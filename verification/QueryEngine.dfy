/** Query execution: four evaluation strategies that must all answer the same naive filter,
    and one cursor that pages the skill list and the capability list together.

    Full-text search and the capability catalog are given as ordered results: `ranked` lists
    the paths the search found, best first, and `catalog` the capabilities that match. */
module QueryEngine {
  import opened Strings
  import opened Order
  import opened Registry
  import opened PathIndex
  import opened Glob
  import Base64

  datatype Params = Params(path: string, topics: seq<string>, tags: seq<string>, pkg: string, search: string,
                           server: string, kind: string, availability: string, limit: int, cursor: string)
  {
    predicate ClassicFilters() {
      topics != [] || tags != [] || pkg != ""
    }

    predicate SkillFilters() {
      ClassicFilters() || path != "" || search != ""
    }

    predicate CapabilityFilters() {
      search != "" || path != "" || server != "" || kind != "" || availability != ""
    }

    predicate PathOnly() {
      path != "" && search == "" && !ClassicFilters()
    }
  }

  datatype Cursor = Cursor(skills: nat, capabilities: nat)

  datatype Response<C> =
    | Unsupported
    | Vocabulary
    | NoMatch
    | Results(skills: seq<Found>, capabilities: seq<C>, matchCount: nat, capabilityMatchCount: nat,
              next: string, tooBroad: bool)

  // ---- The naive filter ----

  /** One skill against every filter that is set, with no index and no strategy. */
  ghost predicate Naive(e: Entry, p: Params, isRanked: bool) {
    && (forall t :: t in p.topics ==> t in e.topics)
    && (forall t :: t in p.tags ==> t in e.tags)
    && (p.pkg != "" ==> e.cols.packageName == p.pkg)
    && (p.path != "" ==> ScanHit(e, ToSlash(p.path)))
    && (p.search != "" ==> isRanked)
  }

  ghost function NaiveAnswer(db: Tables, p: Params, ranked: seq<string>): set<string> {
    set q | q in db.skills && Naive(EntryOf(db, q), p, q in ranked)
  }

  /** What the strategies select, per skill. */
  ghost predicate Selected(e: Entry, p: Params, isRanked: bool) {
    && p.SkillFilters()
    && ClassicHit(e, p.pkg, p.topics, p.tags)
    && (p.search != "" ==> isRanked)
    && (p.path != "" ==> if p.PathOnly() then IndexHit(e, ToSlash(p.path)) else ScanHit(e, ToSlash(p.path)))
  }

  ghost function Answer(db: Tables, p: Params, ranked: seq<string>): set<string> {
    set q | q in db.skills && Selected(EntryOf(db, q), p, q in ranked)
  }

  /** The strategies answer the naive filter exactly when the caller repeated no topic and no
      tag (or nothing matches anyway) and, for a query by path alone, every skill found
      through a directory-style scope also matches the path as a glob. */
  lemma StrategiesAnswerNaiveFilter(db: Tables, p: Params, ranked: seq<string>)
    requires WellFormed(db) && p.SkillFilters()
    ensures Answer(db, p, ranked) == NaiveAnswer(db, p, ranked) <==>
      && ((Distinct(p.topics) && Distinct(p.tags)) || NaiveAnswer(db, p, ranked) == {})
      && (p.PathOnly() ==> forall q :: q in db.skills ==>
            (DirectoryHit(EntryOf(db, q), ToSlash(p.path)) ==> ScanHit(EntryOf(db, q), ToSlash(p.path))))
  {
    if p.PathOnly() {
      forall q | q in db.skills
        ensures IndexHit(EntryOf(db, q), ToSlash(p.path)) <==>
          ScanHit(EntryOf(db, q), ToSlash(p.path)) || DirectoryHit(EntryOf(db, q), ToSlash(p.path))
      {
        IndexHitExactly(db, q, ToSlash(p.path));
      }
      forall q | q in db.skills && DirectoryHit(EntryOf(db, q), ToSlash(p.path)) ensures q in Answer(db, p, ranked) {
      }
    } else {
      forall q | q in db.skills
        ensures q in Answer(db, p, ranked) <==>
          (Distinct(p.topics) && Distinct(p.tags) && q in NaiveAnswer(db, p, ranked))
      {
      }
    }
  }

  // ---- The ordered listing ----

  function Keep<T(==)>(s: seq<T>, wanted: set<T>): seq<T> {
    if s == [] then []
    else if s[0] in wanted then [s[0]] + Keep(s[1..], wanted)
    else Keep(s[1..], wanted)
  }

  /** A listing of the answer: in search order when searching, in path order otherwise. */
  ghost predicate IsListing(db: Tables, p: Params, ranked: seq<string>, full: seq<string>) {
    if p.search != "" then full == Keep(ranked, Answer(db, p, ranked))
    else Ascending(full) && Elements(full) == Answer(db, p, ranked)
  }

  lemma {:induction false} KeepElements<T>(s: seq<T>, wanted: set<T>)
    ensures forall x :: x in Keep(s, wanted) <==> x in s && x in wanted
    ensures Distinct(s) ==> Distinct(Keep(s, wanted))
  {
    if s != [] {
      KeepElements(s[1..], wanted);
      assert s == [s[0]] + s[1..];
    }
  }

  lemma {:induction false} KeepLast<T>(s: seq<T>, wanted: set<T>)
    requires s != []
    ensures Keep(s, wanted) ==
      Keep(s[..|s| - 1], wanted) + (if s[|s| - 1] in wanted then [s[|s| - 1]] else [])
  {
    if |s| > 1 {
      KeepLast(s[1..], wanted);
      assert s[1..][..|s| - 2] == s[..|s| - 1][1..];
    } else {
      assert s[1..] == [] && s[..0] == [];
    }
  }

  lemma {:induction false} KeepSame<T>(s: seq<T>, a: set<T>, b: set<T>)
    requires forall x :: x in s ==> (x in a <==> x in b)
    ensures Keep(s, a) == Keep(s, b)
  {
    if s != [] { KeepSame(s[1..], a, b); }
  }

  /** A listing is determined by the registry and the query, holds exactly the answer, and
      holds each skill once. */
  lemma ListingIsDetermined(db: Tables, p: Params, ranked: seq<string>, a: seq<string>, b: seq<string>)
    requires Distinct(ranked) && forall q :: q in ranked ==> q in db.skills
    requires IsListing(db, p, ranked, a) && IsListing(db, p, ranked, b)
    ensures a == b && Distinct(a) && Elements(a) == Answer(db, p, ranked)
  {
    KeepElements(ranked, Answer(db, p, ranked));
    if p.search == "" { AscendingUnique(a, b); }
  }

  // ---- Cursors ----

  predicate IsBytes(s: string) {
    forall i :: 0 <= i < |s| ==> s[i] as int < 256
  }

  function ToBytes(s: string): Base64.Bytes
    requires IsBytes(s)
  {
    seq(|s|, i requires 0 <= i < |s| => ToByte(s[i]))
  }

  function ToByte(c: char): Base64.Byte
    requires c as int < 256
  {
    c as int
  }

  function ToText(b: Base64.Bytes): (s: string)
    ensures IsBytes(s)
  {
    seq(|b|, i requires 0 <= i < |b| => b[i] as char)
  }

  lemma TextRoundTrip(s: string)
    requires IsBytes(s)
    ensures ToText(ToBytes(s)) == s
  {
  }

  function MarshalCursor(c: Cursor): (s: string)
    ensures IsBytes(s)
  {
    "{\"s\":" + Itoa(c.skills) + ",\"c\":" + Itoa(c.capabilities) + "}"
  }

  function EncodeCursor(c: Cursor): (s: string)
  {
    Base64.Encode(ToBytes(MarshalCursor(c)))
  }

  /** Decimal text with an optional sign, within 64 bits. */
  function Atoi(s: string): Option<int> {
    var digits := if s != "" && (s[0] == '-' || s[0] == '+') then s[1..] else s;
    if digits == "" || exists i :: 0 <= i < |digits| && !IsDigit(digits[i]) then None
    else
      var magnitude: int := Value(digits);
      var n := if s[0] == '-' then -magnitude else magnitude;
      if -OFFSETS <= n < OFFSETS then Some(n) else None
  }

  /** Reads a cursor; anything unreadable starts from the beginning. `unmarshal` reads a JSON
      object with the two offsets. */
  function DecodeCursor(unmarshal: string -> Option<(int, int)>, text: string): Cursor {
    match Base64.Decode(text)
    case None => Cursor(0, 0)
    case Some(b) =>
      match unmarshal(ToText(b)) {
        case Some((s, c)) => if s >= 0 && c >= 0 then Cursor(s, c) else DecodeLegacy(ToText(b))
        case None => DecodeLegacy(ToText(b))
      }
  }

  /** Earlier versions encoded a skill offset only. */
  function DecodeLegacy(text: string): Cursor {
    match Atoi(text)
    case Some(n) => if n >= 0 then Cursor(n, 0) else Cursor(0, 0)
    case None => Cursor(0, 0)
  }

  /** One more than the largest offset that an int of the program holds. */
  const OFFSETS := 0x8000_0000_0000_0000

  predicate Fits(c: Cursor) {
    c.skills < OFFSETS && c.capabilities < OFFSETS
  }

  /** A JSON reader that reads back what the writer wrote, as long as the offsets fit, and
      takes neither the empty text nor a bare number for an object. */
  ghost predicate JsonReader(unmarshal: string -> Option<(int, int)>) {
    && unmarshal("") == None
    && (forall c: Cursor :: Fits(c) ==> unmarshal(MarshalCursor(c)) == Some((c.skills, c.capabilities)))
    && (forall n: nat :: unmarshal(Itoa(n)) == None)
  }

  lemma MarshalInjective(c: Cursor, d: Cursor)
    requires MarshalCursor(c) == MarshalCursor(d)
    ensures c == d
  {
    var tailC, tailD := "\"c\":" + Itoa(c.capabilities) + "}", "\"c\":" + Itoa(d.capabilities) + "}";
    CutFront("{\"s\":", c, tailC, d, tailD);
    DigitsUpTo(Itoa(c.skills), tailC, Itoa(d.skills), tailD, ',');
    assert tailC == "\"c\":" + (Itoa(c.capabilities) + (['}'] + ""));
    assert tailD == "\"c\":" + (Itoa(d.capabilities) + (['}'] + ""));
    assert tailC[4..] == Itoa(c.capabilities) + (['}'] + "") && tailD[4..] == Itoa(d.capabilities) + (['}'] + "");
    DigitsUpTo(Itoa(c.capabilities), "", Itoa(d.capabilities), "", '}');
    ValueOfItoa(c.skills);
    ValueOfItoa(d.skills);
    ValueOfItoa(c.capabilities);
    ValueOfItoa(d.capabilities);
  }

  lemma CutFront(front: string, c: Cursor, tailC: string, d: Cursor, tailD: string)
    requires front == "{\"s\":" && MarshalCursor(c) == MarshalCursor(d)
    requires tailC == "\"c\":" + Itoa(c.capabilities) + "}" && tailD == "\"c\":" + Itoa(d.capabilities) + "}"
    ensures Itoa(c.skills) + ([','] + tailC) == Itoa(d.skills) + ([','] + tailD)
  {
    var textC, textD := Itoa(c.skills) + ([','] + tailC), Itoa(d.skills) + ([','] + tailD);
    assert MarshalCursor(c) == front + textC && MarshalCursor(d) == front + textD;
    assert textC == (front + textC)[|front|..] && textD == (front + textD)[|front|..];
  }

  /** Reads back exactly what the writer writes, and fails on offsets that do not fit. */
  ghost function ReadsBack(text: string): Option<(int, int)> {
    if c: Cursor :| Fits(c) && MarshalCursor(c) == text then Some((c.skills, c.capabilities)) else None
  }

  /** Readers as assumed above exist: cursors are written unambiguously. */
  lemma JsonReaderExists()
    ensures JsonReader(text => ReadsBack(text))
  {
    assert forall c: Cursor :: MarshalCursor(c)[0] == '{';
    forall c: Cursor | Fits(c) ensures ReadsBack(MarshalCursor(c)) == Some((c.skills, c.capabilities)) {
      var text := MarshalCursor(c);
      var d: Cursor :| MarshalCursor(d) == text && ReadsBack(text) == Some((d.skills, d.capabilities));
      MarshalInjective(c, d);
    }
    forall n: nat ensures ReadsBack(Itoa(n)) == None {
      assert IsDigit(Itoa(n)[0]);
    }
  }

  lemma CursorRoundTrip(unmarshal: string -> Option<(int, int)>, c: Cursor)
    requires JsonReader(unmarshal) && Fits(c)
    ensures DecodeCursor(unmarshal, EncodeCursor(c)) == c
  {
    Base64.RoundTrip(ToBytes(MarshalCursor(c)));
    TextRoundTrip(MarshalCursor(c));
  }

  lemma AtoiAfterItoa(n: nat)
    ensures Atoi(Itoa(n)) == if n < OFFSETS then Some(n) else None
  {
    ValueOfItoa(n);
    assert IsDigit(Itoa(n)[0]);
  }

  lemma AtoiOfSigned(n: int)
    requires n >= 0
    ensures Atoi("-" + Itoa(n)) == if n <= OFFSETS then Some(-n) else None
    ensures Atoi("+" + Itoa(n)) == if n < OFFSETS then Some(n) else None
  {
    ValueOfItoa(n);
    assert ("-" + Itoa(n))[1..] == Itoa(n) == ("+" + Itoa(n))[1..];
  }

  /** Whatever is not a cursor starts from the beginning: text that is no base64, and content
      that is neither two offsets nor a decimal one. */
  lemma UnreadableCursorStarts(unmarshal: string -> Option<(int, int)>, text: string)
    ensures match Base64.Decode(text)
      case None => DecodeCursor(unmarshal, text) == Cursor(0, 0)
      case Some(b) =>
        var content := ToText(b);
        && (forall s, c :: unmarshal(content) == Some((s, c)) ==> s < 0 || c < 0)
        && (forall n :: Atoi(content) == Some(n) ==> n < 0)
        ==> DecodeCursor(unmarshal, text) == Cursor(0, 0)
  {
  }

  lemma LegacyCursor(unmarshal: string -> Option<(int, int)>, n: nat)
    requires JsonReader(unmarshal) && n < OFFSETS
    ensures DecodeCursor(unmarshal, Base64.Encode(ToBytes(Itoa(n)))) == Cursor(n, 0)
  {
    var text := Itoa(n);
    Base64.RoundTrip(ToBytes(text));
    TextRoundTrip(text);
    AtoiAfterItoa(n);
    assert unmarshal(text) == None;
  }

  // ---- One page of two streams ----

  function Min(a: nat, b: nat): nat {
    if a <= b then a else b
  }

  function PageLimit(limit: int): (l: nat)
    ensures 1 <= l && l == if limit <= 0 then 8 else Min(limit, 20)
  {
    if limit <= 0 then 8 else if limit > 20 then 20 else limit
  }

  function Window<T>(s: seq<T>, from: nat, count: nat): (w: seq<T>)
    ensures |w| <= count
  {
    if from >= |s| then [] else s[from..Min(from + count, |s|)]
  }

  /** Where the next page starts, or nothing when both streams are exhausted. */
  function NextCursor(skills: nat, capabilities: nat, c: Cursor, limit: nat): Option<Cursor> {
    var end := Min(Min(c.skills, skills) + limit, skills);
    var capabilityEnd := Min(c.capabilities + limit, capabilities);
    if end < skills || capabilityEnd < capabilities then Some(Cursor(end, capabilityEnd)) else None
  }

  function NextText(next: Option<Cursor>): string {
    match next
    case Some(c) => EncodeCursor(c)
    case None => ""
  }

  function Remaining(length: nat, from: nat): nat {
    length - Min(from, length)
  }

  lemma WindowThenRest<T>(s: seq<T>, from: nat, count: nat)
    ensures Window(s, from, count) + s[Min(Min(from, |s|) + count, |s|)..] == s[Min(from, |s|)..]
    ensures from + count >= |s| ==> Window(s, from, count) == s[Min(from, |s|)..]
  {
  }

  /** What one page shows, followed by what its next cursor still has to show. */
  lemma PageThenRest<S, C>(skills: seq<S>, capabilities: seq<C>, c: Cursor, limit: nat)
    requires limit > 0
    ensures var next := NextCursor(|skills|, |capabilities|, c, limit);
      && Window(skills, c.skills, limit) + Rest(skills, next, true) == skills[Min(c.skills, |skills|)..]
      && Window(capabilities, c.capabilities, limit) + Rest(capabilities, next, false)
         == capabilities[Min(c.capabilities, |capabilities|)..]
      && (next.Some? ==> Left(|skills|, |capabilities|, next.value) < Left(|skills|, |capabilities|, c))
      && (|skills| < OFFSETS && |capabilities| < OFFSETS && next.Some? ==> Fits(next.value))
  {
    WindowThenRest(skills, c.skills, limit);
    WindowThenRest(capabilities, c.capabilities, limit);
  }

  function Rest<T>(s: seq<T>, next: Option<Cursor>, isSkills: bool): seq<T> {
    match next
    case None => []
    case Some(c) => s[Min(if isSkills then c.skills else c.capabilities, |s|)..]
  }

  function Left(skills: nat, capabilities: nat, c: Cursor): nat {
    Remaining(skills, c.skills) + Remaining(capabilities, c.capabilities)
  }

  lemma EmptyCursorStarts(unmarshal: string -> Option<(int, int)>)
    requires JsonReader(unmarshal)
    ensures DecodeCursor(unmarshal, "") == Cursor(0, 0)
  {
    assert ToText([]) == "" && Base64.DecodeSymbols("") == [];
  }

  lemma CursorTextNotEmpty(c: Cursor)
    ensures EncodeCursor(c) != ""
  {
    assert ToBytes(MarshalCursor(c)) != [];
  }

  // ---- The engine ----

  const KINDS: set<string> := {"tool", "prompt", "resource-template", "server"}
  const AVAILABILITIES: set<string> := {"discovered", "suggested", "setup-required", "credential-missing",
    "login-required", "scope-required", "ready", "unsupported-authentication", "policy-denied", "unreachable", "stale"}

  predicate Supported(p: Params) {
    (p.kind == "" || p.kind in KINDS) && (p.availability == "" || p.availability in AVAILABILITIES)
  }

  /** The kinds and availability states of capabilities. */
  predicate KindName(k: string) {
    k == "tool" || k == "prompt" || k == "resource-template" || k == "server"
  }

  predicate AvailabilityName(a: string) {
    || a == "ready" || a == "stale" || a == "discovered" || a == "suggested" || a == "unreachable"
    || a == "setup-required" || a == "credential-missing" || a == "login-required" || a == "scope-required"
    || a == "policy-denied" || a == "unsupported-authentication"
  }

  /** A query is supported exactly when the kind and the availability it asks for exist. */
  lemma SupportedExactly(p: Params)
    ensures Supported(p) <==>
      (p.kind != "" ==> KindName(p.kind)) && (p.availability != "" ==> AvailabilityName(p.availability))
  {
  }

  /** At most the limit of either stream, eight without a limit and twenty at most; too broad when
      either stream has more than that. */
  ghost predicate Bounded<C>(limit: int, resp: Response<C>)
    requires resp.Results?
  {
    var most := if limit <= 0 then 8 else Min(limit, 20);
    && |resp.skills| <= most && |resp.capabilities| <= most
    && (resp.tooBroad <==> resp.matchCount > most || resp.capabilityMatchCount > most)
  }

  /** No field that filters is set. */
  predicate Unfiltered(p: Params) {
    && p.path == "" && p.search == "" && p.topics == [] && p.tags == [] && p.pkg == ""
    && p.server == "" && p.kind == "" && p.availability == ""
  }

  lemma UnfilteredExactly(p: Params)
    ensures Unfiltered(p) <==> !p.SkillFilters() && !p.CapabilityFilters()
  {
  }

  ghost function PathsHit(rows: seq<Found>, path: string): set<string> {
    set r | r in rows && ScanHit(r.entry, path) :: r.path
  }

  lemma PathsHitExactly(db: Tables, rows: seq<Found>, path: string)
    requires forall r :: r in rows ==> r.path in db.skills && r == RowOf(db, r.path)
    ensures forall q :: q in PathsHit(rows, path) <==>
      q in Paths(rows) && q in db.skills && ScanHit(EntryOf(db, q), path)
  {
    RowPaths(rows);
    forall q | q in Paths(rows) ensures q in PathsHit(rows, path) <==> q in db.skills && ScanHit(EntryOf(db, q), path) {
      var r :| r in rows && r.path == q;
    }
  }

  /** The skills whose scopes match the path, in the order given. */
  method FilterByPath(rows: seq<Found>, path: string) returns (filtered: seq<Found>)
    requires Distinct(Paths(rows))
    ensures forall r :: r in filtered ==> r in rows
    ensures Paths(filtered) == Keep(Paths(rows), PathsHit(rows, ToSlash(path)))
  {
    ghost var hits := PathsHit(rows, ToSlash(path));
    filtered := [];
    for i := 0 to |rows|
      invariant forall r :: r in filtered ==> r in rows
      invariant Paths(filtered) == Keep(Paths(rows)[..i], hits)
    {
      KeepLast(Paths(rows)[..i + 1], hits);
      assert Paths(rows)[..i + 1][..i] == Paths(rows)[..i];
      PathInHits(rows, i, ToSlash(path));
      var hit := ScopesMatchPath(rows[i].entry.scopes, path);
      if hit {
        filtered := filtered + [rows[i]];
      }
    }
    assert Paths(rows)[..|rows|] == Paths(rows);
  }

  /** Tries one scope after another. */
  method ScopesMatchPath(scopes: seq<IndexedScope>, path: string) returns (hit: bool)
    ensures hit <==> exists sc :: sc in scopes && Match(ToSlash(sc.scope), ToSlash(path))
  {
    for i := 0 to |scopes|
      invariant forall sc :: sc in scopes[..i] ==> !Match(ToSlash(sc.scope), ToSlash(path))
    {
      ScanIsGlob(scopes[i].scope, ToSlash(path));
      if ScopeMatches(scopes[i].scope, ToSlash(path)) { return true; }
      assert scopes[..i + 1] == scopes[..i] + [scopes[i]];
    }
    assert scopes[..|scopes|] == scopes;
    return false;
  }

  lemma PathInHits(rows: seq<Found>, i: nat, path: string)
    requires Distinct(Paths(rows)) && i < |rows|
    ensures Paths(rows)[i] in PathsHit(rows, path) <==> ScanHit(rows[i].entry, path)
  {
    if r :| r in rows && ScanHit(r.entry, path) && r.path == rows[i].path {
      var j :| 0 <= j < |rows| && rows[j] == r;
      assert Paths(rows)[j] == Paths(rows)[i];
    }
  }

  /** The search results that the classic filters also selected, in search order. */
  method Intersect(found: seq<Found>, classic: set<string>) returns (kept: seq<Found>)
    ensures forall r :: r in kept ==> r in found
    ensures Paths(kept) == Keep(Paths(found), classic)
  {
    kept := [];
    for i := 0 to |found|
      invariant forall r :: r in kept ==> r in found
      invariant Paths(kept) == Keep(Paths(found)[..i], classic)
    {
      KeepLast(Paths(found)[..i + 1], classic);
      assert Paths(found)[..i + 1][..i] == Paths(found)[..i];
      if found[i].path in classic {
        kept := kept + [found[i]];
      }
    }
    assert Paths(found)[..|found|] == Paths(found);
  }

  method SortByPath(rows: seq<Found>) returns (sorted: seq<Found>)
    requires Distinct(Paths(rows))
    ensures Ascending(Paths(sorted)) && Elements(Paths(sorted)) == Elements(Paths(rows))
    ensures forall r :: r in sorted ==> r in rows
  {
    sorted := [];
    for i := 0 to |rows|
      invariant Ascending(Paths(sorted)) && Elements(Paths(sorted)) == Elements(Paths(rows)[..i])
      invariant forall r :: r in sorted ==> r in rows
    {
      assert Paths(rows)[..i + 1] == Paths(rows)[..i] + [Paths(rows)[i]];
      sorted := InsertInOrder(sorted, rows[i]);
    }
    assert Paths(rows)[..|rows|] == Paths(rows);
  }

  class Engine<C> {
    const reg: Registry
    const hasCapabilities: bool
    const unmarshal: string -> Option<(int, int)>

    constructor (reg: Registry, hasCapabilities: bool, unmarshal: string -> Option<(int, int)>)
      ensures this.reg == reg && this.hasCapabilities == hasCapabilities && this.unmarshal == unmarshal
    {
      this.reg, this.hasCapabilities, this.unmarshal := reg, hasCapabilities, unmarshal;
    }

    ghost predicate Ready(ranked: seq<string>) reads reg {
      reg.Valid() && Distinct(ranked) && forall q :: q in ranked ==> q in reg.db.skills
    }

    /** The rows of the search result, in its order. */
    method Load(ranked: seq<string>) returns (rows: seq<Found>)
      requires Ready(ranked)
      ensures Paths(rows) == ranked
      ensures forall r :: r in rows ==> r.path in reg.db.skills && r == RowOf(reg.db, r.path)
    {
      rows := [];
      for i := 0 to |ranked|
        invariant Paths(rows) == ranked[..i]
        invariant forall r :: r in rows ==> r.path in reg.db.skills && r == RowOf(reg.db, r.path)
      {
        assert ranked[i] in ranked;
        rows := rows + [RowOf(reg.db, ranked[i])];
      }
    }

    /** Topics, tags, package and path, without search. */
    method ClassicSkills(p: Params) returns (skills: seq<Found>)
      requires reg.Valid() && p.ClassicFilters()
      ensures forall r :: r in skills ==> r.path in reg.db.skills && r == RowOf(reg.db, r.path)
      ensures Distinct(Paths(skills)) && Elements(Paths(skills)) == set q | q in reg.db.skills
        && ClassicHit(EntryOf(reg.db, q), p.pkg, p.topics, p.tags)
        && (p.path != "" ==> ScanHit(EntryOf(reg.db, q), ToSlash(p.path)))
    {
      skills := reg.Query(p.pkg, p.topics, p.tags);
      if p.path != "" {
        var all := skills;
        skills := FilterByPath(all, p.path);
        KeepElements(Paths(all), PathsHit(all, ToSlash(p.path)));
        PathsHitExactly(reg.db, all, ToSlash(p.path));
        assert forall q :: q in Paths(skills) <==>
          q in Elements(Paths(all)) && q in reg.db.skills && ScanHit(EntryOf(reg.db, q), ToSlash(p.path));
      }
    }

    /** Search results, narrowed by the classic filters or else by the path. */
    method SearchSkills(p: Params, ranked: seq<string>) returns (skills: seq<Found>)
      requires Ready(ranked) && p.search != ""
      ensures forall r :: r in skills ==> r.path in reg.db.skills && r == RowOf(reg.db, r.path)
      ensures Paths(skills) == Keep(ranked, Answer(reg.db, p, ranked))
    {
      var found := Load(ranked);
      if p.ClassicFilters() {
        var selected := ClassicSkills(p);
        RowPaths(selected);
        var classic := set r | r in selected :: r.path;
        assert forall q :: q in classic <==> q in Elements(Paths(selected));
        skills := Intersect(found, classic);
        KeepSame(ranked, classic, Answer(reg.db, p, ranked));
      } else if p.path != "" {
        skills := FilterByPath(found, p.path);
        PathsHitExactly(reg.db, found, ToSlash(p.path));
        KeepSame(ranked, PathsHit(found, ToSlash(p.path)), Answer(reg.db, p, ranked));
      } else {
        skills := found;
        KeepAll(ranked, Answer(reg.db, p, ranked));
      }
    }

    /** The skills one query selects, by whichever strategy fits its filters. */
    method SelectSkills(p: Params, ranked: seq<string>) returns (skills: seq<Found>)
      requires Ready(ranked)
      ensures forall r :: r in skills ==> r.path in reg.db.skills && r == RowOf(reg.db, r.path)
      ensures IsListing(reg.db, p, ranked, Paths(skills))
    {
      if p.search != "" {
        skills := SearchSkills(p, ranked);
      } else {
        if p.ClassicFilters() {
          skills := ClassicSkills(p);
        } else {
          skills := reg.QueryByPath(p.path);
        }
        skills := SortByPath(skills);
      }
    }

    /** What one query answers, given its listing: the page the cursor resumes. */
    ghost predicate Answers(p: Params, catalog: seq<C>, full: seq<string>, resp: Response<C>)
      reads reg
    {
      var matching := Matching(p, catalog);
      var c, limit := DecodeCursor(unmarshal, p.cursor), PageLimit(p.limit);
      if full == [] && matching == [] then resp == NoMatch
      else
        && resp.Results?
        && Paths(resp.skills) == Window(full, c.skills, limit)
        && (forall r :: r in resp.skills ==> r.path in reg.db.skills && r == RowOf(reg.db, r.path))
        && resp.capabilities == Window(matching, c.capabilities, limit)
        && resp.matchCount == |full| && resp.capabilityMatchCount == |matching|
        && resp.next == NextText(NextCursor(|full|, |matching|, c, limit))
        && (resp.tooBroad <==> |full| > limit || |matching| > limit)
    }

    /** One query: the first page of an answer, or the page a cursor resumes. */
    method Execute(p: Params, ranked: seq<string>, catalog: seq<C>) returns (resp: Response<C>, ghost full: seq<string>)
      requires Ready(ranked)
      ensures resp == Unsupported <==> !Supported(p)
      ensures resp == Vocabulary <==> Supported(p) && Unfiltered(p)
      ensures Supported(p) && !Unfiltered(p) ==> IsListing(reg.db, p, ranked, full) && Answers(p, catalog, full, resp)
      ensures resp.Results? ==> Bounded(p.limit, resp)
    {
      full := [];
      if !Supported(p) { return Unsupported, full; }
      UnfilteredExactly(p);
      if !p.SkillFilters() && !p.CapabilityFilters() { return Vocabulary, full; }
      var cursor, limit := DecodeCursor(unmarshal, p.cursor), PageLimit(p.limit);
      var capabilities: seq<C>, capabilityMatchCount := [], 0;
      if hasCapabilities && p.CapabilityFilters() {
        capabilities, capabilityMatchCount := Window(catalog, cursor.capabilities, limit), |catalog|;
      }
      var skills := SelectSkills(p, ranked);
      full := Paths(skills);
      if |skills| == 0 && capabilityMatchCount == 0 { return NoMatch, full; }
      PathsOfWindow(skills, cursor.skills, limit);
      resp := BuildPage(skills, capabilities, capabilityMatchCount, cursor, limit);
    }

    /** The capabilities a query matches: all that the broker finds when there is a broker and
        any field that it filters by is set. */
    ghost function Matching(p: Params, catalog: seq<C>): seq<C> {
      if hasCapabilities
         && (p.path != "" || p.search != "" || p.server != "" || p.kind != "" || p.availability != "")
      then catalog else []
    }

    /** A query with a filter, over tables and a catalog no larger than an int counts. */
    ghost predicate Followable(p: Params, ranked: seq<string>, catalog: seq<C>) reads reg {
      && Ready(ranked) && JsonReader(unmarshal) && Supported(p) && !Unfiltered(p)
      && |reg.db.skills| < OFFSETS && |catalog| < OFFSETS
    }

    /** The page of a query at a cursor. The listing it is cut from is the query's, so a
        listing that is already known is that one. */
    method PageAt(p: Params, ranked: seq<string>, catalog: seq<C>, cursor: string, limit: int,
                  ghost known: Option<seq<string>>)
      returns (skills: seq<Found>, capabilities: seq<C>, next: string, ghost full: seq<string>)
      requires Followable(p, ranked, catalog) && (known.Some? ==> IsListing(reg.db, p, ranked, known.value))
      ensures IsListing(reg.db, p, ranked, full) && (known.Some? ==> full == known.value)
      ensures var matching := Matching(p, catalog); var c := DecodeCursor(unmarshal, cursor);
        && Paths(skills) == Window(full, c.skills, PageLimit(limit))
        && capabilities == Window(matching, c.capabilities, PageLimit(limit))
        && next == NextText(NextCursor(|full|, |matching|, c, PageLimit(limit)))
    {
      var resp;
      resp, full := Execute(p.(cursor := cursor, limit := limit), ranked, catalog);
      SameListing(reg.db, p, ranked, cursor, limit, full);
      if known.Some? { ListingIsDetermined(reg.db, p, ranked, full, known.value); }
      if resp.NoMatch? {
        skills, capabilities, next := [], [], "";
      } else {
        skills, capabilities, next := resp.skills, resp.capabilities, resp.next;
      }
    }

    /** Follows next cursors from the query's own until there is none, with any limit on each
        page. Whatever the first cursor says, the pages show the rest of the listing and of the
        matching capabilities from there, in order and each item once. */
    method FollowCursor(p: Params, ranked: seq<string>, catalog: seq<C>, limits: nat -> int)
      returns (skills: seq<Found>, capabilities: seq<C>)
      requires Followable(p, ranked, catalog)
      ensures Distinct(Paths(skills)) && ListsFrom(p, ranked, DecodeCursor(unmarshal, p.cursor).skills, Paths(skills))
      ensures var matching := Matching(p, catalog);
        capabilities == matching[Min(DecodeCursor(unmarshal, p.cursor).capabilities, |matching|)..]
      ensures p.cursor == "" ==>
        IsListing(reg.db, p, ranked, Paths(skills)) && capabilities == Matching(p, catalog)
    {
      EmptyCursorStarts(unmarshal);
      var next;
      ghost var full, at;
      skills, capabilities, next, full, at := FirstPage(p, ranked, catalog, limits(0));
      ListingFrom(p, ranked, full, DecodeCursor(unmarshal, p.cursor).skills);
      skills, capabilities := FollowFrom(p, ranked, catalog, limits, full, at, skills, capabilities, next);
    }

    lemma ListingFrom(p: Params, ranked: seq<string>, full: seq<string>, from: nat)
      requires IsListing(reg.db, p, ranked, full) && Distinct(full)
      ensures var listed := full[Min(from, |full|)..];
        Distinct(listed) && ListsFrom(p, ranked, from, listed) && (from == 0 ==> listed == full)
    {
    }

    /** The page at the query's own cursor and what it leaves. */
    method FirstPage(p: Params, ranked: seq<string>, catalog: seq<C>, limit: int)
      returns (skills: seq<Found>, capabilities: seq<C>, next: string, ghost full: seq<string>,
               ghost at: Option<Cursor>)
      requires Followable(p, ranked, catalog)
      ensures IsListing(reg.db, p, ranked, full) && Distinct(full) && |full| < OFFSETS && Reads(at, next)
      ensures var start, matching := DecodeCursor(unmarshal, p.cursor), Matching(p, catalog);
        && Paths(skills) + Rest(full, at, true) == full[Min(start.skills, |full|)..]
        && capabilities + Rest(matching, at, false) == matching[Min(start.capabilities, |matching|)..]
    {
      skills, capabilities, next, full := PageAt(p, ranked, catalog, p.cursor, limit, None);
      ListingIsDetermined(reg.db, p, ranked, full, full);
      ListingFits(reg.db, p, ranked, full);
      ghost var start, matching := DecodeCursor(unmarshal, p.cursor), Matching(p, catalog);
      at := NextCursor(|full|, |matching|, start, PageLimit(limit));
      PageThenRest(full, matching, start, PageLimit(limit));
      NextTextReads(at);
    }

    /** The part of the query's listing from a position on. */
    ghost predicate ListsFrom(p: Params, ranked: seq<string>, from: nat, listed: seq<string>) reads reg {
      exists full :: IsListing(reg.db, p, ranked, full) && listed == full[Min(from, |full|)..]
    }

    /** The rest of the walk, after a first page: everything that its next cursor leaves. */
    method FollowFrom(p: Params, ranked: seq<string>, catalog: seq<C>, limits: nat -> int, ghost full: seq<string>,
                      ghost from: Option<Cursor>, firstSkills: seq<Found>, firstCapabilities: seq<C>, cursor: string)
      returns (skills: seq<Found>, capabilities: seq<C>)
      requires Followable(p, ranked, catalog) && IsListing(reg.db, p, ranked, full) && |full| < OFFSETS
      requires Reads(from, cursor)
      ensures Paths(skills) == Paths(firstSkills) + Rest(full, from, true)
      ensures capabilities == firstCapabilities + Rest(Matching(p, catalog), from, false)
    {
      ghost var matching, at := Matching(p, catalog), from;
      skills, capabilities := firstSkills, firstCapabilities;
      var next, page := cursor, 1;
      while next != ""
        invariant Reads(at, next)
        invariant Paths(skills) + Rest(full, at, true) == Paths(firstSkills) + Rest(full, from, true)
        invariant capabilities + Rest(matching, at, false) == firstCapabilities + Rest(matching, from, false)
        decreases if at.None? then 0 else 1 + Left(|full|, |matching|, at.value)
      {
        skills, capabilities, next, at :=
          AddPage(p, ranked, catalog, limits(page), full, at.value, skills, capabilities, next);
        page := page + 1;
      }
    }

    /** The text of a cursor, or the empty text when there is none. */
    ghost predicate Reads(at: Option<Cursor>, text: string) {
      (at.Some? <==> text != "") && (at.Some? ==> DecodeCursor(unmarshal, text) == at.value)
    }

    /** One more page: what is collected grows by what leaves the rest. */
    method AddPage(p: Params, ranked: seq<string>, catalog: seq<C>, limit: int, ghost full: seq<string>,
                   ghost c: Cursor, before: seq<Found>, capabilitiesBefore: seq<C>, cursor: string)
      returns (skills: seq<Found>, capabilities: seq<C>, next: string, ghost at: Option<Cursor>)
      requires Followable(p, ranked, catalog) && IsListing(reg.db, p, ranked, full) && |full| < OFFSETS
      requires DecodeCursor(unmarshal, cursor) == c
      ensures Reads(at, next)
      ensures var matching := Matching(p, catalog);
        && Paths(skills) + Rest(full, at, true) == Paths(before) + Rest(full, Some(c), true)
        && capabilities + Rest(matching, at, false) == capabilitiesBefore + Rest(matching, Some(c), false)
        && (at.Some? ==> Left(|full|, |matching|, at.value) < Left(|full|, |matching|, c))
    {
      ghost var matching := Matching(p, catalog);
      var more, moreCapabilities;
      ghost var again;
      more, moreCapabilities, next, again := PageAt(p, ranked, catalog, cursor, limit, Some(full));
      at := NextCursor(|full|, |matching|, c, PageLimit(limit));
      PageThenRest(full, matching, c, PageLimit(limit));
      NextTextReads(at);
      PageExtends(full, matching, c, PageLimit(limit), before, more, capabilitiesBefore, moreCapabilities);
      skills, capabilities := before + more, capabilitiesBefore + moreCapabilities;
    }

    lemma NextTextReads(at: Option<Cursor>)
      requires JsonReader(unmarshal) && (at.Some? ==> Fits(at.value))
      ensures Reads(at, NextText(at))
    {
      if at.Some? {
        CursorTextNotEmpty(at.value);
        CursorRoundTrip(unmarshal, at.value);
      }
    }

    method BuildPage(skills: seq<Found>, capabilities: seq<C>, capabilityMatchCount: nat, cursor: Cursor, limit: nat)
      returns (resp: Response<C>)
      requires |capabilities|
            == Min(cursor.capabilities + limit, capabilityMatchCount) - Min(cursor.capabilities, capabilityMatchCount)
      ensures resp == Results(Window(skills, cursor.skills, limit), capabilities, |skills|, capabilityMatchCount,
        NextText(NextCursor(|skills|, capabilityMatchCount, cursor, limit)),
        |skills| > limit || capabilityMatchCount > limit)
    {
      var matchCount := |skills|;
      var start := Min(cursor.skills, matchCount);
      var end := Min(start + limit, matchCount);
      var capabilityEnd := Min(cursor.capabilities, capabilityMatchCount) + |capabilities|;
      var more := end < matchCount || capabilityEnd < capabilityMatchCount;
      var next := if more then Some(Cursor(end, capabilityEnd)) else None;
      assert next == NextCursor(matchCount, capabilityMatchCount, cursor, limit);
      assert skills[start..end] == Window(skills, cursor.skills, limit);
      resp := Results(skills[start..end], capabilities, matchCount, capabilityMatchCount, NextText(next),
                      matchCount > limit || capabilityMatchCount > limit);
    }
  }

  lemma Reassociate<T>(a: seq<T>, b: seq<T>, c: seq<T>)
    ensures a + (b + c) == (a + b) + c
  {
  }

  /** A page moves the start of what is left behind what is collected. */
  lemma PageExtends<C>(full: seq<string>, matching: seq<C>, c: Cursor, limit: nat,
                       skills: seq<Found>, more: seq<Found>, capabilities: seq<C>, moreCapabilities: seq<C>)
    requires limit > 0 && Paths(more) == Window(full, c.skills, limit)
    requires moreCapabilities == Window(matching, c.capabilities, limit)
    ensures var at := NextCursor(|full|, |matching|, c, limit);
      && Paths(skills + more) + Rest(full, at, true) == Paths(skills) + Rest(full, Some(c), true)
      && (capabilities + moreCapabilities) + Rest(matching, at, false)
         == capabilities + Rest(matching, Some(c), false)
  {
    var at := NextCursor(|full|, |matching|, c, limit);
    PageThenRest(full, matching, c, limit);
    PathsOfConcat(skills, more);
    Reassociate(Paths(skills), Paths(more), Rest(full, at, true));
    Reassociate(capabilities, moreCapabilities, Rest(matching, at, false));
  }

  lemma PathsOfConcat(a: seq<Found>, b: seq<Found>)
    ensures Paths(a + b) == Paths(a) + Paths(b)
  {
  }

  /** A listing is no longer than the table. */
  lemma ListingFits(db: Tables, p: Params, ranked: seq<string>, full: seq<string>)
    requires Distinct(ranked) && (forall q :: q in ranked ==> q in db.skills) && IsListing(db, p, ranked, full)
    ensures |full| <= |db.skills|
  {
    ListingIsDetermined(db, p, ranked, full, full);
    DistinctCount(full);
    SubsetSize(Elements(full), db.skills.Keys);
    assert |db.skills.Keys| == |db.skills|;
  }

  /** The listing does not depend on the page. */
  lemma SameListing(db: Tables, p: Params, ranked: seq<string>, cursor: string, limit: int, full: seq<string>)
    ensures IsListing(db, p.(cursor := cursor, limit := limit), ranked, full) <==> IsListing(db, p, ranked, full)
  {
    var q := p.(cursor := cursor, limit := limit);
    forall x | x in db.skills
      ensures Selected(EntryOf(db, x), q, x in ranked) <==> Selected(EntryOf(db, x), p, x in ranked)
    {
    }
    assert Answer(db, q, ranked) == Answer(db, p, ranked);
  }

  lemma PathsOfWindow(rows: seq<Found>, from: nat, count: nat)
    ensures Paths(Window(rows, from, count)) == Window(Paths(rows), from, count)
    ensures forall r :: r in Window(rows, from, count) ==> r in rows
  {
  }

  lemma RowPaths(rows: seq<Found>)
    ensures forall q :: q in Paths(rows) <==> exists r :: r in rows && r.path == q
  {
    forall q | q in Paths(rows) ensures exists r :: r in rows && r.path == q {
      var i :| 0 <= i < |rows| && Paths(rows)[i] == q;
      assert rows[i] in rows;
    }
    forall r | r in rows ensures r.path in Paths(rows) {
      var i :| 0 <= i < |rows| && rows[i] == r;
      assert Paths(rows)[i] == r.path;
    }
  }

  lemma {:induction false} KeepAll<T>(s: seq<T>, wanted: set<T>)
    requires forall x :: x in s ==> x in wanted
    ensures Keep(s, wanted) == s
  {
    if s != [] { KeepAll(s[1..], wanted); }
  }
}
