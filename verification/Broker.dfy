/** The broker: discovery issues references, and a call goes through reference, definition,
    readiness, argument and policy checks before a connector is opened. Clock, catalog,
    readiness and project bindings can change between any two of these checks. */
module Broker {
  import opened Strings
  import opened References
  import opened Base64

  datatype Request = Request(context: string, view: string)
  datatype Binding = Binding(scope: string, authProfile: string)
  datatype Record = Record(capability: Capability, partition: string, bindings: seq<Binding>)
  datatype ProjectBinding = ProjectBinding(server: string, version: string, scope: string, authProfile: string)

  /** What can change under a running call. */
  datatype Environment = Environment(now: int, catalog: seq<Record>, readiness: Capability -> Availability,
                                     project: seq<ProjectBinding>)

  /** `accepts` validates arguments against an input schema. */
  datatype Setup = Setup(codec: Codec, ttl: int, accepts: (string, string) -> bool)

  datatype Refusal =
    | InvalidReference | ExpiredReference | ContextMismatch | ViewMismatch | NotFound | Changed
    | NotReady | ArgumentsInvalid | PolicyDenied
  datatype Outcome<T> = Passed(value: T) | Refused(reason: Refusal)

  // ---- The checks ----

  function CheckReference(codec: Codec, ref: string, request: Request, now: int): Outcome<Claims> {
    match Verify(codec, ref, now)
    case Invalid => Refused(InvalidReference)
    case Expired => Refused(ExpiredReference)
    case Accepted(claims) =>
      if claims.context != request.context then Refused(ContextMismatch)
      else if claims.view != request.view then Refused(ViewMismatch)
      else Passed(claims)
  }

  predicate Names(claims: Claims, c: Capability) {
    c.server == claims.server && c.version == claims.version && c.kind == claims.kind && c.name == claims.capability
  }

  function FindRecord(catalog: seq<Record>, claims: Claims, partition: string): Option<Record> {
    if catalog == [] then None
    else if Names(claims, catalog[0].capability) && catalog[0].partition == partition then Some(catalog[0])
    else FindRecord(catalog[1..], claims, partition)
  }

  /** The view's own record wins over the public one. */
  function FindInView(catalog: seq<Record>, claims: Claims): Option<Record> {
    var own := FindRecord(catalog, claims, claims.view);
    if own.Some? then own else FindRecord(catalog, claims, "public")
  }

  function Resolve(catalog: seq<Record>, claims: Claims): Option<Capability> {
    match FindInView(catalog, claims)
    case None => None
    case Some(record) =>
      if Binding(claims.routingScope, claims.authProfile) in record.bindings then
        Some(record.capability.(routingScope := claims.routingScope, authProfile := claims.authProfile))
      else if claims.routingScope != "" || claims.authProfile != "" then None
      else Some(record.capability)
  }

  function Overlaid(env: Environment, c: Capability): Capability {
    if c.availability.Stale? then c else c.(availability := env.readiness(c))
  }

  function CheckDefinition(codec: Codec, env: Environment, claims: Claims): Outcome<Capability> {
    match Resolve(env.catalog, claims)
    case None => Refused(NotFound)
    case Some(found) =>
      var c := Overlaid(env, found);
      match Prepared(codec, c)
      case None => Refused(NotFound)
      case Some(digest) =>
        if !Names(claims, c) || claims.schemaDigest != digest then Refused(Changed)
        else if claims.routingScope != c.routingScope || claims.authProfile != c.authProfile then Refused(Changed)
        else Passed(c)
  }

  // ---- What a definition has to be, independently of how it is looked up ----

  predicate Identifies(r: Record, claims: Claims, partition: string) {
    && r.partition == partition && r.capability.server == claims.server && r.capability.version == claims.version
    && r.capability.kind == claims.kind && r.capability.name == claims.capability
  }

  ghost predicate IsFirst(catalog: seq<Record>, claims: Claims, partition: string, i: nat) {
    && i < |catalog| && Identifies(catalog[i], claims, partition)
    && forall j: nat :: j < i ==> !Identifies(catalog[j], claims, partition)
  }

  /** The record that a view sees: its own, or a public one when it has none. */
  ghost predicate Serves(catalog: seq<Record>, claims: Claims, i: nat) {
    || IsFirst(catalog, claims, claims.view, i)
    || (IsFirst(catalog, claims, "public", i) && forall r :: r in catalog ==> !Identifies(r, claims, claims.view))
  }

  /** The capability of a record as the claims route it, with its present availability: an
      expired record stays stale, whatever the readiness says. */
  ghost predicate Routed(env: Environment, r: Record, claims: Claims, c: Capability) {
    var routed := r.capability.(routingScope := claims.routingScope, authProfile := claims.authProfile);
    && (Binding(claims.routingScope, claims.authProfile) in r.bindings
        || (claims.routingScope == "" && claims.authProfile == "" && routed == r.capability))
    && c == routed.(availability := c.availability)
    && (r.capability.availability.Stale? ==> c.availability.Stale?)
    && (!r.capability.availability.Stale? ==> c.availability == env.readiness(routed))
  }

  ghost predicate Defined(codec: Codec, env: Environment, claims: Claims, c: Capability) {
    && Prepared(codec, c) == Some(claims.schemaDigest)
    && exists i: nat :: Serves(env.catalog, claims, i) && Routed(env, env.catalog[i], claims, c)
  }

  lemma {:induction false} FindRecordExactly(catalog: seq<Record>, claims: Claims, partition: string) returns (i: nat)
    ensures match FindRecord(catalog, claims, partition)
      case None => forall r :: r in catalog ==> !Identifies(r, claims, partition)
      case Some(r) => IsFirst(catalog, claims, partition, i) && catalog[i] == r
  {
    i := 0;
    if catalog != [] && !Identifies(catalog[0], claims, partition) {
      var j := FindRecordExactly(catalog[1..], claims, partition);
      assert catalog == [catalog[0]] + catalog[1..];
      if FindRecord(catalog[1..], claims, partition).Some? {
        i := j + 1;
        assert forall k: nat :: 0 < k < i ==> catalog[k] == catalog[1..][k - 1];
      }
    }
  }

  lemma FindInViewExactly(catalog: seq<Record>, claims: Claims) returns (i: nat)
    ensures match FindInView(catalog, claims)
      case None => forall j: nat :: !Serves(catalog, claims, j)
      case Some(r) =>
        Serves(catalog, claims, i) && catalog[i] == r && forall j: nat :: Serves(catalog, claims, j) ==> j == i
  {
    var own := FindRecordExactly(catalog, claims, claims.view);
    var shared := FindRecordExactly(catalog, claims, "public");
    i := if FindRecord(catalog, claims, claims.view).Some? then own else shared;
  }

  /** The lookup passes exactly the capability that is so defined; a served record without the
      binding of the claims is as good as none, one with another digest has changed. */
  lemma DefinitionExactly(codec: Codec, env: Environment, claims: Claims, c: Capability)
    ensures CheckDefinition(codec, env, claims) == Passed(c) <==> Defined(codec, env, claims, c)
    ensures (forall i: nat :: !Serves(env.catalog, claims, i)) ==>
      CheckDefinition(codec, env, claims) == Refused(NotFound)
    ensures forall i: nat :: Serves(env.catalog, claims, i) ==>
      && (claims.routingScope != "" || claims.authProfile != "" ==>
        Binding(claims.routingScope, claims.authProfile) !in env.catalog[i].bindings ==>
          CheckDefinition(codec, env, claims) == Refused(NotFound))
      && (Routed(env, env.catalog[i], claims, c) ==>
        && (Prepared(codec, c).None? ==> CheckDefinition(codec, env, claims) == Refused(NotFound))
        && (Prepared(codec, c).Some? && Prepared(codec, c).value != claims.schemaDigest ==>
          CheckDefinition(codec, env, claims) == Refused(Changed)))
  {
    var i := FindInViewExactly(env.catalog, claims);
  }

  predicate Covers(b: ProjectBinding, c: Capability) {
    b.server == c.server && b.version == c.version && b.scope == c.routingScope && b.authProfile == c.authProfile
  }

  ghost predicate Allowed(env: Environment, c: Capability) {
    (exists b :: b in env.project && Covers(b, c)) && env.readiness(c).Ready?
  }

  /** The search for a project binding. */
  method Evaluate(env: Environment, c: Capability) returns (allow: bool)
    ensures allow <==> Allowed(env, c)
  {
    var found := false;
    for i := 0 to |env.project|
      invariant !found && forall b :: b in env.project[..i] ==> !Covers(b, c)
    {
      assert env.project[..i + 1] == env.project[..i] + [env.project[i]];
      if Covers(env.project[i], c) {
        found := true;
        break;
      }
    }
    assert !found ==> env.project[..|env.project|] == env.project;
    allow := found && env.readiness(c).Ready?;
  }

  ghost function CheckInvocation(setup: Setup, env: Environment, c: Capability, arguments: string): Outcome<()> {
    if !c.availability.Ready? then Refused(NotReady)
    else if !setup.accepts(c.inputSchema, arguments) then Refused(ArgumentsInvalid)
    else if !Allowed(env, c) then Refused(PolicyDenied)
    else Passed(())
  }

  // ---- Discovery ----

  /** A reference that was handed out: for which capability, to whom, when, saying what. */
  datatype Issued = Issued(capability: Capability, request: Request, at: int, claims: Claims)

  /** One connector that was opened, and what the checks before it went by: the environments
      that defined the capability and that allowed the call. */
  datatype Open = Open(claims: Claims, request: Request, verifiedAt: int, capability: Capability,
                       arguments: string, resolved: Environment, env: Environment)

  function IssueOne(setup: Setup, request: Request, c: Capability, digest: string, now: int, nonce: Bytes): Issued {
    Issued(c, request, now, NewClaims(c, digest, request.view, request.context, now, setup.ttl, nonce))
  }

  /** References are issued in page order until a capability cannot be prepared. */
  function IssueAll(setup: Setup, request: Request, page: seq<Capability>, now: int, nonces: seq<Bytes>)
    : (log: seq<Issued>)
    requires |nonces| == |page|
    ensures |log| <= |page|
  {
    if page == [] then []
    else match Prepared(setup.codec, page[0])
      case None => []
      case Some(digest) =>
        [IssueOne(setup, request, page[0], digest, now, nonces[0])]
        + IssueAll(setup, request, page[1..], now, nonces[1..])
  }

  function Limited<T>(found: seq<T>, limit: int): seq<T> {
    if 0 < limit < |found| then found[..limit] else found
  }

  function IssuePage(setup: Setup, request: Request, found: seq<Capability>, limit: int, now: int, nonces: seq<Bytes>)
    : seq<Issued>
    requires |nonces| == |found|
  {
    if request.context == "" || request.view == "" then []
    else IssueAll(setup, request, Limited(found, limit), now, Limited(nonces, limit))
  }

  function SealAll(setup: Setup, log: seq<Issued>): seq<string> {
    seq(|log|, i requires 0 <= i < |log| => Sealed(setup.codec, setup.codec.marshal(log[i].claims)))
  }

  lemma SealOneMore(setup: Setup, log: seq<Issued>, e: Issued)
    ensures SealAll(setup, log + [e]) == SealAll(setup, log) + [Sealed(setup.codec, setup.codec.marshal(e.claims))]
  {
  }

  lemma {:induction false} IssueAllAt(setup: Setup, request: Request, page: seq<Capability>, now: int,
                                      nonces: seq<Bytes>, i: nat)
    requires |nonces| == |page| && i < |IssueAll(setup, request, page, now, nonces)|
    ensures Prepared(setup.codec, page[i]).Some?
    ensures IssueAll(setup, request, page, now, nonces)[i]
         == IssueOne(setup, request, page[i], Prepared(setup.codec, page[i]).value, now, nonces[i])
    decreases |page|
  {
    if i > 0 { IssueAllAt(setup, request, page[1..], now, nonces[1..], i - 1); }
  }

  lemma {:induction false} IssueAllStops(setup: Setup, request: Request, page: seq<Capability>, now: int,
                                         nonces: seq<Bytes>)
    requires |nonces| == |page|
    ensures var n := |IssueAll(setup, request, page, now, nonces)|;
      n < |page| ==> Prepared(setup.codec, page[n]).None?
    decreases |page|
  {
    if page != [] && Prepared(setup.codec, page[0]).Some? {
      IssueAllStops(setup, request, page[1..], now, nonces[1..]);
    }
  }

  lemma AllReferences(setup: Setup, request: Request, page: seq<Capability>, now: int, nonces: seq<Bytes>)
    requires |nonces| == |page| && request.context != "" && request.view != ""
    ensures var refs := SealAll(setup, IssueAll(setup, request, page, now, nonces));
      && (|refs| == |page| <==> forall i :: 0 <= i < |page| ==> Prepared(setup.codec, page[i]).Some?)
      && forall i :: 0 <= i < |refs| ==>
        Issue(setup.codec, page[i], request.view, request.context, now, setup.ttl, nonces[i]) == Some(refs[i])
  {
    IssueAllStops(setup, request, page, now, nonces);
    forall i | 0 <= i < |IssueAll(setup, request, page, now, nonces)|
      ensures Prepared(setup.codec, page[i]).Some?
      ensures IssueAll(setup, request, page, now, nonces)[i]
           == IssueOne(setup, request, page[i], Prepared(setup.codec, page[i]).value, now, nonces[i])
    {
      IssueAllAt(setup, request, page, now, nonces, i);
    }
  }

  lemma LimitedExactly<T>(found: seq<T>, limit: int)
    ensures Limited(found, limit) == found[..if limit > 0 && limit < |found| then limit else |found|]
  {
  }

  /** A page has at most its limit of what was found, if it has one; it is complete exactly when
      every capability on it can be prepared, and its references are those of its capabilities,
      in order. Without a context or a view there are none. */
  lemma PageReferences(setup: Setup, request: Request, found: seq<Capability>, limit: int, now: int,
                       nonces: seq<Bytes>)
    requires |nonces| == |found|
    ensures var refs := SealAll(setup, IssuePage(setup, request, found, limit, now, nonces));
      var page := found[..if limit > 0 && limit < |found| then limit else |found|];
      && (request.context == "" || request.view == "" ==> refs == [])
      && (request.context != "" && request.view != "" ==>
        && (|refs| == |page| <==> forall i :: 0 <= i < |page| ==> Prepared(setup.codec, page[i]).Some?)
        && |refs| <= |page| && forall i :: 0 <= i < |refs| ==>
          Issue(setup.codec, page[i], request.view, request.context, now, setup.ttl, nonces[i]) == Some(refs[i]))
  {
    if request.context != "" && request.view != "" {
      LimitedExactly(found, limit);
      LimitedExactly(nonces, limit);
      AllReferences(setup, request, Limited(found, limit), now, Limited(nonces, limit));
    }
  }

  lemma IssueAllFrom(setup: Setup, request: Request, page: seq<Capability>, now: int, nonces: seq<Bytes>, i: nat)
    requires |nonces| == |page| && i < |page|
    ensures IssueAll(setup, request, page[i..], now, nonces[i..]) ==
      match Prepared(setup.codec, page[i])
      case None => []
      case Some(digest) =>
        [IssueOne(setup, request, page[i], digest, now, nonces[i])]
        + IssueAll(setup, request, page[i + 1..], now, nonces[i + 1..])
  {
    assert page[i..][1..] == page[i + 1..] && nonces[i..][1..] == nonces[i + 1..];
  }

  lemma Regroup<T>(a: seq<T>, b: seq<T>, x: T, c: seq<T>)
    ensures b + ([x] + c) == (b + [x]) + c && (a + b) + [x] == a + (b + [x])
  {
  }

  class Broker {
    const setup: Setup
    // What was handed out and what was opened, in order: the effects of the calls below.
    ghost var issued: seq<Issued>
    ghost var opens: seq<Open>

    /** Everything handed out says what it is for, and everything opened is justified by
        something handed out. */
    ghost predicate Valid() reads this {
      && (forall e :: e in issued ==> Honest(setup, e))
      && forall o :: o in opens ==> exists e :: e in issued && Justified(setup, e, o)
    }

    constructor (setup: Setup)
      ensures Valid() && this.setup == setup && issued == [] && opens == []
    {
      this.setup := setup;
      issued, opens := [], [];
    }

    /** Issues one reference after another; a capability that cannot be prepared ends it. */
    method IssueRefs(request: Request, page: seq<Capability>, now: int, nonces: seq<Bytes>)
      returns (refs: Option<seq<string>>)
      requires |nonces| == |page|
      modifies this`issued
      ensures var log := IssueAll(setup, request, page, now, nonces);
        && issued == old(issued) + log
        && refs == if |log| == |page| then Some(SealAll(setup, log)) else None
    {
      var results: seq<string> := [];
      ghost var log: seq<Issued> := [];
      for i := 0 to |page|
        invariant |log| == i && results == SealAll(setup, log) && issued == old(issued) + log
        invariant log + IssueAll(setup, request, page[i..], now, nonces[i..])
               == IssueAll(setup, request, page, now, nonces)
      {
        IssueAllFrom(setup, request, page, now, nonces, i);
        var digest := Prepared(setup.codec, page[i]);
        if digest.None? {
          assert log + [] == log;
          return None;
        }
        var e := IssueOne(setup, request, page[i], digest.value, now, nonces[i]);
        Regroup(old(issued), log, e, IssueAll(setup, request, page[i + 1..], now, nonces[i + 1..]));
        SealOneMore(setup, log, e);
        log := log + [e];
        issued := issued + [e];
        results := results + [Sealed(setup.codec, setup.codec.marshal(e.claims))];
      }
      assert log == IssueAll(setup, request, page, now, nonces) by { assert log + [] == log; }
      return Some(results);
    }

    /** One discovery page, or none when something on it cannot be referenced. No connector
        is opened. */
    method QueryPage(request: Request, found: seq<Capability>, limit: int, now: int, nonces: seq<Bytes>)
      returns (refs: Option<seq<string>>)
      requires |nonces| == |found|
      modifies this`issued
      ensures var log := IssuePage(setup, request, found, limit, now, nonces);
        && issued == old(issued) + log
        && refs == if request.context != "" && request.view != "" && |log| == |Limited(found, limit)|
                   then Some(SealAll(setup, log)) else None
      ensures old(Valid()) && AllFaithful(setup, IssuePage(setup, request, found, limit, now, nonces)) ==> Valid()
    {
      DiscoveryKeepsValid(setup, issued, opens, request, found, limit, now, nonces);
      if request.context == "" || request.view == "" { return None; }
      refs := IssueRefs(request, Limited(found, limit), now, Limited(nonces, limit));
    }

    /** One call. Each check sees the environment of its own moment. */
    method Call(ref: string, arguments: string, request: Request,
                first: Environment, second: Environment, third: Environment)
      returns (outcome: Outcome<Capability>)
      modifies this`opens
      ensures outcome == CallOutcome(setup, ref, arguments, request, first, second, third)
      ensures opens == if outcome.Refused? then old(opens) else
        old(opens) + [OpenOf(setup, ref, arguments, request, first, second, third, outcome.value)]
      ensures old(Valid()) && Unforged(setup, issued, ref) ==> Valid()
    {
      var claims := CheckReference(setup.codec, ref, request, first.now);
      if claims.Refused? { return Refused(claims.reason); }
      outcome := CheckDefinition(setup.codec, second, claims.value);
      if outcome.Refused? { return; }
      var c := outcome.value;
      if !c.availability.Ready? { return Refused(NotReady); }
      if !setup.accepts(c.inputSchema, arguments) { return Refused(ArgumentsInvalid); }
      var allow := Evaluate(third, c);
      if !allow { return Refused(PolicyDenied); }
      opens := opens + [Open(claims.value, request, first.now, c, arguments, second, third)];
      if old(Valid()) && Unforged(setup, issued, ref) {
        CallIsJustified(setup, issued, ref, arguments, request, first, second, third);
      }
    }
  }

  ghost function CallOutcome(setup: Setup, ref: string, arguments: string, request: Request,
                             first: Environment, second: Environment, third: Environment): Outcome<Capability> {
    match CheckReference(setup.codec, ref, request, first.now)
    case Refused(reason) => Refused(reason)
    case Passed(claims) =>
      match CheckDefinition(setup.codec, second, claims)
      case Refused(reason) => Refused(reason)
      case Passed(c) =>
        match CheckInvocation(setup, third, c, arguments)
        case Refused(reason) => Refused(reason)
        case Passed(_) => Passed(c)
  }

  /** A call passes, whatever changes between its checks, exactly when the claims are accepted
      for this context and view, the served record defines the capability and is ready, the
      arguments fit, and a project binding covers it while it is still ready. */
  lemma CallPassesExactly(setup: Setup, ref: string, arguments: string, request: Request,
                          first: Environment, second: Environment, third: Environment, claims: Claims, c: Capability)
    requires Verify(setup.codec, ref, first.now) == Accepted(claims)
    ensures CallOutcome(setup, ref, arguments, request, first, second, third) == Passed(c) <==>
      && claims.context == request.context && claims.view == request.view
      && Defined(setup.codec, second, claims, c) && c.availability.Ready?
      && setup.accepts(c.inputSchema, arguments) && third.readiness(c).Ready?
      && ProjectBinding(c.server, c.version, c.routingScope, c.authProfile) in third.project
  {
    var checked := CheckDefinition(setup.codec, second, claims);
    if checked.Passed? { DefinitionExactly(setup.codec, second, claims, checked.value); }
    DefinitionExactly(setup.codec, second, claims, c);
    CoveredExactly(third.project, c);
  }

  /** Which refusal it is: first the reference, its context and its view; */
  lemma ReferenceRefusedExactly(setup: Setup, ref: string, request: Request, now: int)
    ensures var verdict, checked := Verify(setup.codec, ref, now), CheckReference(setup.codec, ref, request, now);
      && (checked == Refused(InvalidReference) <==> verdict.Invalid?)
      && (checked == Refused(ExpiredReference) <==> verdict.Expired?)
      && (checked == Refused(ContextMismatch) <==> verdict.Accepted? && verdict.claims.context != request.context)
      && (checked == Refused(ViewMismatch) <==>
        verdict.Accepted? && verdict.claims.context == request.context && verdict.claims.view != request.view)
      && (checked.Passed? ==> verdict == Accepted(checked.value))
  {
  }

  /** then the definition, readiness, arguments and policy, in this order. */
  lemma CallRefusedExactly(setup: Setup, arguments: string, second: Environment, third: Environment, claims: Claims,
                           c: Capability)
    requires Defined(setup.codec, second, claims, c)
    ensures CheckDefinition(setup.codec, second, claims) == Passed(c)
    ensures CheckInvocation(setup, third, c, arguments) ==
      if !c.availability.Ready? then Refused(NotReady)
      else if !setup.accepts(c.inputSchema, arguments) then Refused(ArgumentsInvalid)
      else if ProjectBinding(c.server, c.version, c.routingScope, c.authProfile) !in third.project
              || !third.readiness(c).Ready? then Refused(PolicyDenied)
      else Passed(())
  {
    DefinitionExactly(setup.codec, second, claims, c);
    CoveredExactly(third.project, c);
  }

  lemma CoveredExactly(project: seq<ProjectBinding>, c: Capability)
    ensures (exists b :: b in project && Covers(b, c)) <==>
      ProjectBinding(c.server, c.version, c.routingScope, c.authProfile) in project
  {
    if b :| b in project && Covers(b, c) {
      assert b == ProjectBinding(c.server, c.version, c.routingScope, c.authProfile);
    }
  }

  // ---- Runs ----

  /** A call in progress; `known` is the number of references issued before it began. */
  datatype Call =
    | Checked(claims: Claims, request: Request, at: int, known: nat)
    | Selected(claims: Claims, request: Request, at: int, known: nat, capability: Capability, resolved: Environment)
    | Closed

  datatype Opened = Opened(open: Open, known: nat)

  datatype State = State(env: Environment, issued: seq<Issued>, calls: seq<Call>, connections: seq<Opened>)

  datatype Step =
    | Discover(request: Request, found: seq<Capability>, limit: int, nonces: seq<Bytes>)
    | Change(env: Environment)
    | BeginCall(ref: string, request: Request)
    | ResolveCall(id: nat)
    | InvokeCall(id: nat, arguments: string)

  /** The authentication code is ideal: whatever carries its seal was sealed here before. */
  ghost predicate Unforged(setup: Setup, issued: seq<Issued>, ref: string) {
    forall payload :: ref == Sealed(setup.codec, payload) ==> WasSealed(setup, issued, payload)
  }

  ghost predicate WasSealed(setup: Setup, issued: seq<Issued>, payload: Bytes) {
    exists i :: 0 <= i < |issued| && setup.codec.marshal(issued[i].claims) == payload
  }

  ghost predicate AllFaithful(setup: Setup, log: seq<Issued>) {
    forall e :: e in log ==> Faithful(setup.codec, e.claims)
  }

  ghost predicate Enabled(setup: Setup, s: State, step: Step) {
    match step
    case Discover(request, found, limit, nonces) =>
      |nonces| == |found| && AllFaithful(setup, IssuePage(setup, request, found, limit, s.env.now, nonces))
    case Change(_) => true
    case BeginCall(ref, _) => Unforged(setup, s.issued, ref)
    case ResolveCall(id) => id < |s.calls| && s.calls[id].Checked?
    case InvokeCall(id, _) => id < |s.calls| && s.calls[id].Selected?
  }

  ghost function Take(setup: Setup, s: State, step: Step): State
    requires Enabled(setup, s, step)
  {
    match step
    case Discover(request, found, limit, nonces) =>
      s.(issued := s.issued + IssuePage(setup, request, found, limit, s.env.now, nonces))
    case Change(env) => s.(env := env)
    case BeginCall(ref, request) =>
      (match CheckReference(setup.codec, ref, request, s.env.now)
       case Refused(_) => s
       case Passed(claims) => s.(calls := s.calls + [Checked(claims, request, s.env.now, |s.issued|)]))
    case ResolveCall(id) =>
      var call := s.calls[id];
      (match CheckDefinition(setup.codec, s.env, call.claims)
       case Refused(_) => s.(calls := s.calls[id := Closed])
       case Passed(c) => s.(calls := s.calls[id := Selected(call.claims, call.request, call.at, call.known, c, s.env)]))
    case InvokeCall(id, arguments) =>
      var call := s.calls[id];
      (match CheckInvocation(setup, s.env, call.capability, arguments)
       case Refused(_) => s.(calls := s.calls[id := Closed])
       case Passed(_) =>
         var open := Open(call.claims, call.request, call.at, call.capability, arguments, call.resolved, s.env);
         s.(calls := s.calls[id := Closed], connections := s.connections + [Opened(open, call.known)]))
  }

  ghost predicate CanRun(setup: Setup, s: State, steps: seq<Step>)
    decreases |steps|
  {
    steps == [] || (Enabled(setup, s, steps[0]) && CanRun(setup, Take(setup, s, steps[0]), steps[1..]))
  }

  ghost function Run(setup: Setup, s: State, steps: seq<Step>): State
    requires CanRun(setup, s, steps)
    decreases |steps|
  {
    if steps == [] then s else Run(setup, Take(setup, s, steps[0]), steps[1..])
  }

  // ---- What every run keeps ----

  /** A log entry says what its claims say. */
  ghost predicate Honest(setup: Setup, e: Issued) {
    && Prepared(setup.codec, e.capability).Some? && Faithful(setup.codec, e.claims)
    && var digest := Prepared(setup.codec, e.capability).value;
      exists nonce :: e == IssueOne(setup, e.request, e.capability, digest, e.at, nonce)
  }

  /** Claims that some earlier reference carried, presented by its addressee in time. */
  ghost predicate Backed(issued: seq<Issued>, claims: Claims, request: Request, at: int, known: nat) {
    && known <= |issued| && (exists i :: 0 <= i < known && issued[i].claims == claims)
    && claims.context == request.context && claims.view == request.view && at < claims.expiresAt * SECOND
  }

  ghost predicate CallOk(setup: Setup, issued: seq<Issued>, call: Call) {
    !call.Closed? ==>
      && Backed(issued, call.claims, call.request, call.at, call.known)
      && (call.Selected? ==> Defined(setup.codec, call.resolved, call.claims, call.capability))
  }

  ghost predicate OpenOk(setup: Setup, issued: seq<Issued>, o: Opened) {
    && Backed(issued, o.open.claims, o.open.request, o.open.verifiedAt, o.known)
    && Defined(setup.codec, o.open.resolved, o.open.claims, o.open.capability)
    && CheckInvocation(setup, o.open.env, o.open.capability, o.open.arguments).Passed?
  }

  ghost predicate Inv(setup: Setup, s: State) {
    && (forall e :: e in s.issued ==> Honest(setup, e))
    && (forall call :: call in s.calls ==> CallOk(setup, s.issued, call))
    && (forall o :: o in s.connections ==> OpenOk(setup, s.issued, o))
  }

  lemma DiscoveryKeepsValid(setup: Setup, issued: seq<Issued>, opens: seq<Open>, request: Request,
                            found: seq<Capability>, limit: int, now: int, nonces: seq<Bytes>)
    requires |nonces| == |found|
    ensures var more := IssuePage(setup, request, found, limit, now, nonces);
      AllFaithful(setup, more) ==>
        && ((forall e :: e in issued ==> Honest(setup, e)) ==> forall e :: e in issued + more ==> Honest(setup, e))
        && ((forall o :: o in opens ==> exists e :: e in issued && Justified(setup, e, o)) ==>
          forall o :: o in opens ==> exists e :: e in issued + more && Justified(setup, e, o))
  {
    var more := IssuePage(setup, request, found, limit, now, nonces);
    if AllFaithful(setup, more) && more != [] {
      IssueAllHonest(setup, request, Limited(found, limit), now, Limited(nonces, limit));
    }
    forall o | o in opens && exists e :: e in issued && Justified(setup, e, o)
      ensures exists e :: e in issued + more && Justified(setup, e, o)
    {
      var e :| e in issued && Justified(setup, e, o);
      assert e in issued + more;
    }
  }

  lemma {:induction false} IssueAllHonest(setup: Setup, request: Request, page: seq<Capability>, now: int,
                                          nonces: seq<Bytes>)
    requires |nonces| == |page| && AllFaithful(setup, IssueAll(setup, request, page, now, nonces))
    ensures forall e :: e in IssueAll(setup, request, page, now, nonces) ==> Honest(setup, e)
  {
    if page != [] && Prepared(setup.codec, page[0]).Some? {
      var e := IssueOne(setup, request, page[0], Prepared(setup.codec, page[0]).value, now, nonces[0]);
      var rest := IssueAll(setup, request, page[1..], now, nonces[1..]);
      assert IssueAll(setup, request, page, now, nonces) == [e] + rest;
      assert Honest(setup, e);
      IssueAllHonest(setup, request, page[1..], now, nonces[1..]);
    }
  }

  /** An accepted, unforged reference carries claims that were issued before. */
  lemma AcceptedWasIssued(setup: Setup, issued: seq<Issued>, ref: string, request: Request, now: int)
    requires (forall e :: e in issued ==> Honest(setup, e)) && Unforged(setup, issued, ref)
    requires CheckReference(setup.codec, ref, request, now).Passed?
    ensures Backed(issued, CheckReference(setup.codec, ref, request, now).value, request, now, |issued|)
  {
    var payload := OnlySealedPasses(setup.codec, ref, now);
    assert WasSealed(setup, issued, payload);
    var i :| 0 <= i < |issued| && setup.codec.marshal(issued[i].claims) == payload;
    assert Honest(setup, issued[i]);
  }

  lemma BackedStays(a: seq<Issued>, more: seq<Issued>, claims: Claims, request: Request, at: int, known: nat)
    requires Backed(a, claims, request, at, known)
    ensures Backed(a + more, claims, request, at, known)
  {
    var i :| 0 <= i < known && a[i].claims == claims;
    assert (a + more)[i].claims == claims;
  }

  lemma DiscoverKeepsInv(setup: Setup, s: State, step: Step)
    requires Inv(setup, s) && step.Discover? && Enabled(setup, s, step)
    ensures Inv(setup, Take(setup, s, step))
  {
    var more := IssuePage(setup, step.request, step.found, step.limit, s.env.now, step.nonces);
    if more != [] {
      IssueAllHonest(setup, step.request, Limited(step.found, step.limit), s.env.now, Limited(step.nonces, step.limit));
    }
    forall call | call in s.calls && !call.Closed?
      ensures Backed(s.issued + more, call.claims, call.request, call.at, call.known)
    {
      assert CallOk(setup, s.issued, call);
      BackedStays(s.issued, more, call.claims, call.request, call.at, call.known);
    }
    forall o | o in s.connections
      ensures Backed(s.issued + more, o.open.claims, o.open.request, o.open.verifiedAt, o.known)
    {
      assert OpenOk(setup, s.issued, o);
      BackedStays(s.issued, more, o.open.claims, o.open.request, o.open.verifiedAt, o.known);
    }
  }

  lemma StepKeepsInv(setup: Setup, s: State, step: Step)
    requires Inv(setup, s) && Enabled(setup, s, step)
    ensures Inv(setup, Take(setup, s, step))
  {
    match step
    case Discover(_, _, _, _) => DiscoverKeepsInv(setup, s, step);
    case Change(_) =>
    case BeginCall(ref, request) =>
      if CheckReference(setup.codec, ref, request, s.env.now).Passed? {
        AcceptedWasIssued(setup, s.issued, ref, request, s.env.now);
      }
    case ResolveCall(id) =>
      assert CallOk(setup, s.issued, s.calls[id]);
      var checked := CheckDefinition(setup.codec, s.env, s.calls[id].claims);
      if checked.Passed? { DefinitionExactly(setup.codec, s.env, s.calls[id].claims, checked.value); }
    case InvokeCall(id, arguments) => assert CallOk(setup, s.issued, s.calls[id]);
  }

  lemma {:induction false} RunKeepsInv(setup: Setup, s: State, steps: seq<Step>)
    requires Inv(setup, s) && CanRun(setup, s, steps)
    ensures Inv(setup, Run(setup, s, steps))
    decreases |steps|
  {
    if steps != [] {
      StepKeepsInv(setup, s, steps[0]);
      RunKeepsInv(setup, Take(setup, s, steps[0]), steps[1..]);
    }
  }

  /** The references that a run hands out: one page for each discovery, at the time it sees. */
  function Handed(setup: Setup, env: Environment, steps: seq<Step>): seq<Issued>
    decreases |steps|
  {
    if steps == [] then []
    else match steps[0]
      case Discover(request, found, limit, nonces) =>
        (if |nonces| == |found| then IssuePage(setup, request, found, limit, env.now, nonces) else [])
        + Handed(setup, env, steps[1..])
      case Change(next) => Handed(setup, next, steps[1..])
      case _ => Handed(setup, env, steps[1..])
  }

  lemma {:induction false} IssuedInRun(setup: Setup, s: State, steps: seq<Step>)
    requires CanRun(setup, s, steps)
    ensures Run(setup, s, steps).issued == s.issued + Handed(setup, s.env, steps)
    decreases |steps|
  {
    if steps != [] {
      var next := Take(setup, s, steps[0]);
      IssuedInRun(setup, next, steps[1..]);
      if steps[0].Discover? { Reassociated(s.issued, next.issued[|s.issued|..], Handed(setup, s.env, steps[1..])); }
    }
  }

  lemma Reassociated<T>(a: seq<T>, b: seq<T>, c: seq<T>)
    ensures (a + b) + c == a + (b + c)
  {
  }

  /** No check of a call is ever made twice: a call that was resolved is not resolved again, one
      that was refused or invoked is over. */
  lemma {:induction false} ChecksAreFinal(setup: Setup, s: State, steps: seq<Step>, id: nat)
    requires CanRun(setup, s, steps) && id < |s.calls|
    ensures !s.calls[id].Checked? ==> ResolveCall(id) !in steps
    ensures s.calls[id].Closed? ==> forall arguments :: InvokeCall(id, arguments) !in steps
    decreases |steps|
  {
    if steps != [] {
      ChecksAreFinal(setup, Take(setup, s, steps[0]), steps[1..], id);
      assert steps == [steps[0]] + steps[1..];
    }
  }

  lemma EachCheckOnce(setup: Setup, s: State, step: Step, steps: seq<Step>)
    requires Enabled(setup, s, step) && CanRun(setup, Take(setup, s, step), steps)
    ensures step.ResolveCall? ==> step !in steps
    ensures step.ResolveCall? && CheckDefinition(setup.codec, s.env, s.calls[step.id].claims).Refused? ==>
      forall arguments :: InvokeCall(step.id, arguments) !in steps
    ensures step.InvokeCall? ==> forall arguments :: InvokeCall(step.id, arguments) !in steps
  {
    if step.ResolveCall? || step.InvokeCall? { ChecksAreFinal(setup, Take(setup, s, step), steps, step.id); }
  }

  /** What justifies an opened connector: a reference issued earlier in the same view and
      context, for a capability that agrees in every routing field, verified before its TTL
      ran out; a record of that capability that had not expired and was ready; and all checks
      of this very call passed. */
  ghost predicate Justified(setup: Setup, e: Issued, o: Open) {
    && e.request == o.request && o.verifiedAt < e.at + setup.ttl
    && e.capability.server == o.capability.server && e.capability.version == o.capability.version
    && e.capability.kind == o.capability.kind && e.capability.name == o.capability.name
    && e.capability.routingScope == o.capability.routingScope && e.capability.authProfile == o.capability.authProfile
    && setup.codec.digest(e.capability) == setup.codec.digest(o.capability)
    && (exists i: nat :: Serves(o.resolved.catalog, o.claims, i) && ReadyRecord(o, o.resolved.catalog[i]))
    && setup.accepts(o.capability.inputSchema, o.arguments)
    && Allowed(o.env, o.capability)
  }

  /** The opened capability is the record's, routed as the reference says, ready and not stale. */
  ghost predicate ReadyRecord(o: Open, r: Record) {
    var routed := r.capability.(routingScope := o.claims.routingScope, authProfile := o.claims.authProfile);
    && !r.capability.availability.Stale? && o.resolved.readiness(routed).Ready?
    && o.capability == routed.(availability := Ready)
  }

  lemma BackedIsJustified(setup: Setup, issued: seq<Issued>, o: Open, known: nat) returns (i: nat)
    requires forall e :: e in issued ==> Honest(setup, e)
    requires OpenOk(setup, issued, Opened(o, known))
    ensures i < known <= |issued| && Justified(setup, issued[i], o)
  {
    i :| 0 <= i < known && issued[i].claims == o.claims;
    assert Honest(setup, issued[i]);
    Lifetime(issued[i].at, setup.ttl, o.verifiedAt);
    var k: nat :|
      Serves(o.resolved.catalog, o.claims, k) && Routed(o.resolved, o.resolved.catalog[k], o.claims, o.capability);
    assert ReadyRecord(o, o.resolved.catalog[k]);
  }

  /** Over every run of discovery, changes and calls, in any interleaving. */
  lemma EveryOpenIsJustified(setup: Setup, env: Environment, steps: seq<Step>, o: Opened)
    requires CanRun(setup, State(env, [], [], []), steps)
    requires o in Run(setup, State(env, [], [], []), steps).connections
    ensures var issued := Run(setup, State(env, [], [], []), steps).issued;
      exists i :: 0 <= i < o.known <= |issued| && Justified(setup, issued[i], o.open)
  {
    RunKeepsInv(setup, State(env, [], [], []), steps);
    var issued := Run(setup, State(env, [], [], []), steps).issued;
    assert OpenOk(setup, issued, o);
    var i := BackedIsJustified(setup, issued, o.open, o.known);
  }

  /** What a passing call opens, each check having seen an environment of its own. */
  function OpenOf(setup: Setup, ref: string, arguments: string, request: Request,
                  first: Environment, second: Environment, third: Environment, c: Capability): Open
    requires Verify(setup.codec, ref, first.now).Accepted?
  {
    Open(Verify(setup.codec, ref, first.now).claims, request, first.now, c, arguments, second, third)
  }

  lemma CallIsJustified(setup: Setup, issued: seq<Issued>, ref: string, arguments: string, request: Request,
                        first: Environment, second: Environment, third: Environment)
    requires (forall e :: e in issued ==> Honest(setup, e)) && Unforged(setup, issued, ref)
    requires CallOutcome(setup, ref, arguments, request, first, second, third).Passed?
    ensures var c := CallOutcome(setup, ref, arguments, request, first, second, third).value;
      exists e :: e in issued && Justified(setup, e, OpenOf(setup, ref, arguments, request, first, second, third, c))
  {
    var c := CallOutcome(setup, ref, arguments, request, first, second, third).value;
    var open := OpenOf(setup, ref, arguments, request, first, second, third, c);
    AcceptedWasIssued(setup, issued, ref, request, first.now);
    DefinitionExactly(setup.codec, second, open.claims, c);
    var i := BackedIsJustified(setup, issued, open, |issued|);
    assert issued[i] in issued;
  }

  lemma RunFirst(setup: Setup, s: State, step: Step, rest: seq<Step>)
    requires Enabled(setup, s, step) && CanRun(setup, Take(setup, s, step), rest)
    ensures CanRun(setup, s, [step] + rest)
    ensures Run(setup, s, [step] + rest) == Run(setup, Take(setup, s, step), rest)
  {
    assert ([step] + rest)[1..] == rest;
  }

  /** The steps of one call while the environment moves between its checks. */
  function CallSteps(id: nat, ref: string, arguments: string, request: Request,
                     second: Environment, third: Environment): seq<Step> {
    [BeginCall(ref, request)]
    + ([Change(second)] + ([ResolveCall(id)] + ([Change(third)] + ([InvokeCall(id, arguments)] + []))))
  }

  /** A passing call is such a run, whatever its three environments, so what holds of every
      run holds of it. */
  lemma CallIsARun(setup: Setup, s: State, ref: string, arguments: string, request: Request,
                   second: Environment, third: Environment)
    requires Unforged(setup, s.issued, ref) && CallOutcome(setup, ref, arguments, request, s.env, second, third).Passed?
    ensures var steps := CallSteps(|s.calls|, ref, arguments, request, second, third);
      var c := CallOutcome(setup, ref, arguments, request, s.env, second, third).value;
      && CanRun(setup, s, steps)
      && Run(setup, s, steps) == State(third, s.issued, s.calls + [Closed],
           s.connections + [Opened(OpenOf(setup, ref, arguments, request, s.env, second, third, c), |s.issued|)])
  {
    var id := |s.calls|;
    var claims := Verify(setup.codec, ref, s.env.now).claims;
    var c := CheckDefinition(setup.codec, second, claims).value;
    var begun := Take(setup, s, BeginCall(ref, request));
    assert begun.calls == s.calls + [Checked(claims, request, s.env.now, |s.issued|)];
    var moved := begun.(env := second);
    var selected := Take(setup, moved, ResolveCall(id));
    assert selected.calls == s.calls + [Selected(claims, request, s.env.now, |s.issued|, c, second)];
    InvokeIsRun(setup, s, selected.(env := third), ref, arguments, request, second, c);
    RunFirst(setup, selected, Change(third), [InvokeCall(id, arguments)] + []);
    RunFirst(setup, moved, ResolveCall(id), [Change(third)] + ([InvokeCall(id, arguments)] + []));
    RunFirst(setup, begun, Change(second), [ResolveCall(id)] + ([Change(third)] + ([InvokeCall(id, arguments)] + [])));
    RunFirst(setup, s, BeginCall(ref, request),
             [Change(second)] + ([ResolveCall(id)] + ([Change(third)] + ([InvokeCall(id, arguments)] + []))));
  }

  lemma InvokeIsRun(setup: Setup, s: State, ready: State, ref: string, arguments: string, request: Request,
                    second: Environment, c: Capability)
    requires Verify(setup.codec, ref, s.env.now).Accepted? && CheckInvocation(setup, ready.env, c, arguments).Passed?
    requires var claims := Verify(setup.codec, ref, s.env.now).claims;
      && ready.calls == s.calls + [Selected(claims, request, s.env.now, |s.issued|, c, second)]
      && ready.issued == s.issued && ready.connections == s.connections
    ensures CanRun(setup, ready, [InvokeCall(|s.calls|, arguments)] + [])
    ensures Run(setup, ready, [InvokeCall(|s.calls|, arguments)] + []) == State(ready.env, s.issued, s.calls + [Closed],
      s.connections + [Opened(OpenOf(setup, ref, arguments, request, s.env, second, ready.env, c), |s.issued|)])
  {
    var done := Take(setup, ready, InvokeCall(|s.calls|, arguments));
    assert done.calls == s.calls + [Closed];
    RunFirst(setup, ready, InvokeCall(|s.calls|, arguments), []);
  }
}
