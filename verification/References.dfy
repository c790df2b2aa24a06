/** Signed capability references: short-lived claims, sealed with a message authentication
    code and read back strictly. JSON encoding, the schema digest and the code itself are
    parameters; times are clock readings in nanoseconds. */
module References {
  import opened Strings
  import opened Base64

  datatype Availability = Ready | Stale | Unavailable

  datatype Capability = Capability(server: string, version: string, kind: string, name: string,
                                   inputSchema: string, outputSchema: string,
                                   routingScope: string, authProfile: string, availability: Availability)

  datatype Claims = Claims(server: string, version: string, capability: string, kind: string, schemaDigest: string,
                           routingScope: string, authProfile: string, view: string, context: string,
                           issuedAt: int, expiresAt: int, nonce: string)

  /** Everything the signer computes with. */
  datatype Codec = Codec(marshal: Claims -> Bytes, unmarshal: Bytes -> Option<Claims>,
                         mac: Bytes -> Bytes, digest: Capability -> Option<string>)

  datatype Verdict = Accepted(claims: Claims) | Invalid | Expired

  const PREFIX := "mcp-tool:v1:"
  const SECOND := 1_000_000_000

  function Unix(t: int): int {
    t / SECOND
  }

  /** The digest a capability is referenced under; none when its identity is incomplete or
      its schemas cannot be read. */
  function Prepared(codec: Codec, c: Capability): Option<string> {
    if c.server == "" || c.version == "" || c.kind == "" || c.name == "" then None else codec.digest(c)
  }

  function NewClaims(c: Capability, digest: string, view: string, context: string, now: int, ttl: int, nonce: Bytes)
    : Claims
  {
    Claims(c.server, c.version, c.name, c.kind, digest, c.routingScope, c.authProfile, view, context,
           Unix(now), Unix(now + ttl), Encode(nonce))
  }

  function Sealed(codec: Codec, payload: Bytes): string {
    PREFIX + (Encode(payload) + "." + Encode(codec.mac(payload)))
  }

  function Issue(codec: Codec, c: Capability, view: string, context: string, now: int, ttl: int, nonce: Bytes)
    : Option<string>
  {
    match Prepared(codec, c)
    case None => None
    case Some(digest) =>
      if view == "" || context == "" then None
      else Some(Sealed(codec, codec.marshal(NewClaims(c, digest, view, context, now, ttl, nonce))))
  }

  predicate Complete(c: Claims) {
    && c.server != "" && c.version != "" && c.capability != "" && c.kind != "" && c.schemaDigest != ""
    && c.view != "" && c.context != "" && c.issuedAt > 0 && c.expiresAt > c.issuedAt && c.nonce != ""
  }

  /** Bytes whose text is their own canonical encoding. */
  function DecodeStrictly(text: string): Option<Bytes> {
    match Decode(text)
    case None => None
    case Some(b) => if Encode(b) == text then Some(b) else None
  }

  /** What the claims in a payload are worth at some time, its seal aside. */
  function Judge(codec: Codec, payload: Bytes, now: int): Verdict {
    match codec.unmarshal(payload)
    case None => Invalid
    case Some(claims) =>
      if !Complete(claims) then Invalid
      else if now >= claims.expiresAt * SECOND then Expired
      else Accepted(claims)
  }

  function Verify(codec: Codec, ref: string, now: int): Verdict {
    if !(PREFIX <= ref) then Invalid
    else
      var parts := Split(ref[|PREFIX|..], '.');
      if |parts| != 2 then Invalid
      else match DecodeStrictly(parts[0])
        case None => Invalid
        case Some(payload) =>
          if DecodeStrictly(parts[1]) != Some(codec.mac(payload)) then Invalid
          else Judge(codec, payload, now)
  }

  lemma {:induction false} DecodeStrictlyExactly(text: string, b: Bytes)
    ensures DecodeStrictly(text) == Some(b) <==> text == Encode(b)
  {
    RoundTrip(b);
  }

  lemma SealedParts(codec: Codec, payload: Bytes)
    ensures var ref := Sealed(codec, payload);
      PREFIX <= ref && Split(ref[|PREFIX|..], '.') == [Encode(payload), Encode(codec.mac(payload))]
  {
    var parts := [Encode(payload), Encode(codec.mac(payload))];
    assert parts[1..] == [parts[1]] && !InAlphabet('.');
    SplitAfterJoinClean(parts, '.');
    assert Sealed(codec, payload)[|PREFIX|..] == Join(parts, ".");
  }

  /** A seal is transparent: verifying a sealed payload judges the payload. */
  lemma VerifySealed(codec: Codec, payload: Bytes, now: int)
    ensures Verify(codec, Sealed(codec, payload), now) == Judge(codec, payload, now)
  {
    SealedParts(codec, payload);
    DecodeStrictlyExactly(Encode(payload), payload);
    DecodeStrictlyExactly(Encode(codec.mac(payload)), codec.mac(payload));
  }

  /** ... and nothing but a sealed payload gets past the shape checks: the text of a
      reference is determined by its payload. */
  lemma OnlySealedPasses(codec: Codec, ref: string, now: int) returns (payload: Bytes)
    requires Verify(codec, ref, now) != Invalid
    ensures ref == Sealed(codec, payload) && Verify(codec, ref, now) == Judge(codec, payload, now)
  {
    var body := ref[|PREFIX|..];
    var parts := Split(body, '.');
    payload := DecodeStrictly(parts[0]).value;
    DecodeStrictlyExactly(parts[0], payload);
    DecodeStrictlyExactly(parts[1], codec.mac(payload));
    JoinAfterSplit(body, '.');
    assert parts == [parts[0]] + [parts[1]] && parts[1..] == [parts[1]];
    assert ref == PREFIX + body;
  }

  /** The text of a reference: prefix, payload and authentication code. */
  ghost predicate Carries(codec: Codec, ref: string, claims: Claims, payload: Bytes) {
    && ref == "mcp-tool:v1:" + (Encode(payload) + "." + Encode(codec.mac(payload)))
    && codec.unmarshal(payload) == Some(claims)
  }

  ghost predicate NothingMissing(c: Claims) {
    && "" !in {c.server, c.version, c.kind, c.capability, c.schemaDigest, c.view, c.context, c.nonce}
    && 0 < c.issuedAt < c.expiresAt
  }

  /** What it takes to be accepted, all of it: the text of a payload that reads as claims with
      no field missing, and a time before their end. */
  lemma AcceptedExactly(codec: Codec, ref: string, now: int, claims: Claims)
    ensures Verify(codec, ref, now) == Accepted(claims) <==>
      && (exists payload :: Carries(codec, ref, claims, payload))
      && NothingMissing(claims) && now < claims.expiresAt * 1_000_000_000
  {
    if Verify(codec, ref, now) == Accepted(claims) {
      var payload := OnlySealedPasses(codec, ref, now);
      assert Carries(codec, ref, claims, payload);
    }
    if payload :| Carries(codec, ref, claims, payload) {
      assert ref == Sealed(codec, payload);
      VerifySealed(codec, payload, now);
    }
  }

  /** A sealed payload of such claims is refused as expired exactly from their end on; whatever
      else is refused is refused as invalid. */
  lemma ExpiredExactly(codec: Codec, ref: string, now: int)
    ensures Verify(codec, ref, now).Expired? <==>
      exists earlier: int :: Verify(codec, ref, earlier).Accepted?
        && now >= Verify(codec, ref, earlier).claims.expiresAt * 1_000_000_000
  {
    if Verify(codec, ref, now).Expired? {
      var payload := OnlySealedPasses(codec, ref, now);
      var claims := codec.unmarshal(payload).value;
      VerifySealed(codec, payload, claims.expiresAt * SECOND - 1);
      assert Verify(codec, ref, claims.expiresAt * SECOND - 1) == Accepted(claims);
    }
    forall earlier: int | Verify(codec, ref, earlier).Accepted?
      ensures Verify(codec, ref, now) != Invalid
      ensures Verify(codec, ref, now).Expired? <==> now >= Verify(codec, ref, earlier).claims.expiresAt * SECOND
    {
      var payload := OnlySealedPasses(codec, ref, earlier);
      VerifySealed(codec, payload, now);
    }
  }

  /** A reference is issued exactly for a named capability with readable schemas, to a named
      view and context. */
  lemma IssuedExactly(codec: Codec, c: Capability, view: string, context: string, now: int, ttl: int, nonce: Bytes)
    ensures Issue(codec, c, view, context, now, ttl, nonce).Some? <==>
      && c.server != "" && c.version != "" && c.kind != "" && c.name != ""
      && codec.digest(c).Some? && view != "" && context != ""
  {
  }

  /** Two references that are not invalid and carry the same payload are the same string,
      although base64 decoding itself is lenient. */
  lemma SamePayloadSameReference(codec: Codec, a: string, b: string, t: int, u: int, payload: Bytes)
    requires Verify(codec, a, t) != Invalid && Verify(codec, b, u) != Invalid
    requires PayloadOf(a) == Some(payload) && PayloadOf(b) == Some(payload)
    ensures a == b
  {
    var p := OnlySealedPasses(codec, a, t);
    var q := OnlySealedPasses(codec, b, u);
    PayloadOfSealed(codec, p);
    PayloadOfSealed(codec, q);
  }

  /** The payload a reader who only decodes would see. */
  function PayloadOf(ref: string): Option<Bytes> {
    if PREFIX <= ref then Decode(Split(ref[|PREFIX|..], '.')[0]) else None
  }

  lemma PayloadOfSealed(codec: Codec, payload: Bytes)
    ensures PayloadOf(Sealed(codec, payload)) == Some(payload)
  {
    SealedParts(codec, payload);
    RoundTrip(payload);
  }

  ghost predicate Faithful(codec: Codec, claims: Claims) {
    codec.unmarshal(codec.marshal(claims)) == Some(claims)
  }

  /** Verify undoes Issue: at any time, the outcome is decided by the claims alone. */
  lemma VerifyAfterIssue(codec: Codec, c: Capability, view: string, context: string, issued: int, ttl: int,
                         nonce: Bytes, now: int)
    requires Issue(codec, c, view, context, issued, ttl, nonce).Some?
    requires Faithful(codec, NewClaims(c, codec.digest(c).value, view, context, issued, ttl, nonce))
    ensures var claims := NewClaims(c, codec.digest(c).value, view, context, issued, ttl, nonce);
      Verify(codec, Issue(codec, c, view, context, issued, ttl, nonce).value, now) ==
        if codec.digest(c) == Some("") || nonce == [] || issued < SECOND || Unix(issued + ttl) <= Unix(issued)
        then Invalid
        else if now < Unix(issued + ttl) * SECOND then Accepted(claims) else Expired
  {
    var claims := NewClaims(c, codec.digest(c).value, view, context, issued, ttl, nonce);
    VerifySealed(codec, codec.marshal(claims), now);
    assert Encode(nonce) == "" <==> nonce == [];
  }

  /** The life of a reference: never longer than its TTL, never a whole second shorter, and
      with a TTL of at least a second it lives at all. */
  lemma Lifetime(issued: int, ttl: int, now: int)
    ensures now < Unix(issued + ttl) * SECOND ==> now < issued + ttl
    ensures now >= Unix(issued + ttl) * SECOND ==> now > issued + ttl - SECOND
    ensures ttl >= SECOND ==> Unix(issued) < Unix(issued + ttl)
  {
  }
}
