/** Canonical JSON for schema digests: a document is decoded into maps and printed with its
    members in key order. Reading and printing of tokens is not part of this model; numbers
    keep their literal text. */
module CanonicalJson {
  import opened Strings
  import opened Order

  /** A document as written: members in order, names may repeat. */
  datatype Json =
    | Null
    | Bool(value: bool)
    | Number(literal: string)
    | Text(text: string)
    | Array(items: seq<Json>)
    | Object(members: seq<Member>)
  datatype Member = Member(name: string, value: Json)

  /** A document as decoded: objects are maps. */
  datatype Value =
    | NullValue
    | BoolValue(value: bool)
    | NumberValue(literal: string)
    | TextValue(text: string)
    | ListValue(items: seq<Value>)
    | MapValue(fields: map<string, Value>)

  /** Decoding: a later member replaces an earlier one of the same name. */
  function Decode(j: Json): Value
    decreases j, Size(j)
  {
    match j
    case Null => NullValue
    case Bool(b) => BoolValue(b)
    case Number(l) => NumberValue(l)
    case Text(t) => TextValue(t)
    case Array(items) => ListValue(DecodeItems(j, 0))
    case Object(members) => MapValue(DecodeMembers(j, |members|))
  }

  function Size(j: Json): nat {
    match j
    case Array(items) => |items| + 1
    case Object(members) => |members| + 1
    case _ => 0
  }

  function DecodeItems(j: Json, i: nat): (items: seq<Value>)
    requires j.Array? && i <= |j.items|
    decreases j, |j.items| - i
  {
    if i == |j.items| then [] else [Decode(j.items[i])] + DecodeItems(j, i + 1)
  }

  /** The first `n` members. */
  function DecodeMembers(j: Json, n: nat): map<string, Value>
    requires j.Object? && n <= |j.members|
    decreases j, n
  {
    if n == 0 then map[] else DecodeMembers(j, n - 1)[j.members[n - 1].name := Decode(j.members[n - 1].value)]
  }

  /** Of several members with one name the last one counts. */
  lemma {:induction false} LastMemberWins(j: Json, n: nat, i: nat)
    requires j.Object? && i < n <= |j.members|
    requires forall k :: i < k < n ==> j.members[k].name != j.members[i].name
    ensures j.members[i].name in DecodeMembers(j, n)
    ensures DecodeMembers(j, n)[j.members[i].name] == Decode(j.members[i].value)
    decreases n
  {
    if i < n - 1 { LastMemberWins(j, n - 1, i); }
  }

  ghost function Encode(v: Value): Json
    decreases v
  {
    match v
    case NullValue => Null
    case BoolValue(b) => Bool(b)
    case NumberValue(l) => Number(l)
    case TextValue(t) => Text(t)
    case ListValue(items) => Array(seq(|items|, i requires 0 <= i < |items| => Encode(items[i])))
    case MapValue(fields) =>
      var names := SortedKeys(fields.Keys);
      Object(seq(|names|, i requires 0 <= i < |names| => Member(names[i], Encode(fields[names[i]]))))
  }

  ghost function SortedKeys(keys: set<string>): (names: seq<string>)
    ensures Ascending(names) && Elements(names) == keys
  {
    if keys == {} then []
    else
      var k :| k in keys;
      Place(k, SortedKeys(keys - {k}))
  }

  ghost function Place(k: string, names: seq<string>): (r: seq<string>)
    requires Ascending(names) && k !in names
    ensures Ascending(r) && Elements(r) == Elements(names) + {k}
  {
    if names == [] then [k]
    else if TextLe(k, names[0]) then
      BelowAll(k, names);
      Ahead(k, names);
      [k] + names
    else
      var rest := Place(k, names[1..]);
      BelowRest(k, names, rest);
      Ahead(names[0], rest);
      [names[0]] + rest
  }

  lemma Ahead(k: string, names: seq<string>)
    requires Ascending(names) && forall i :: 0 <= i < |names| ==> TextLe(k, names[i]) && k != names[i]
    ensures Elements([k] + names) == Elements(names) + {k} && Ascending([k] + names)
  {
    forall i, j | 0 <= i < j < |names| + 1
      ensures TextLe(([k] + names)[i], ([k] + names)[j]) && ([k] + names)[i] != ([k] + names)[j]
    {
      assert ([k] + names)[j] == names[j - 1];
      if i > 0 { assert ([k] + names)[i] == names[i - 1]; }
    }
  }

  lemma BelowAll(k: string, names: seq<string>)
    requires Ascending(names) && names != [] && TextLe(k, names[0])
    ensures forall i :: 0 <= i < |names| ==> TextLe(k, names[i])
  {
    TextTotal();
    forall i | 0 <= i < |names| ensures TextLe(k, names[i]) {
      if i > 0 { assert TextLe(names[0], names[i]); }
    }
  }

  lemma BelowRest(k: string, names: seq<string>, rest: seq<string>)
    requires Ascending(names) && names != [] && k !in names && !TextLe(k, names[0])
    requires Elements(rest) == Elements(names[1..]) + {k}
    ensures Elements(names[1..]) + {names[0]} == Elements(names)
    ensures forall i :: 0 <= i < |rest| ==> TextLe(names[0], rest[i]) && names[0] != rest[i]
  {
    TextTotal();
    forall i | 0 <= i < |rest| ensures TextLe(names[0], rest[i]) && names[0] != rest[i] {
      assert rest[i] in Elements(rest);
      if rest[i] != k {
        var j :| 0 <= j < |names[1..]| && names[1..][j] == rest[i];
        assert names[j + 1] == rest[i];
      }
    }
  }

  ghost function Canonical(j: Json): Json {
    Encode(Decode(j))
  }

  // ---- Printing loses nothing ----

  lemma {:induction false} DecodeEncode(v: Value)
    ensures Decode(Encode(v)) == v
    decreases v, 1, 0
  {
    match v
    case ListValue(items) => DecodeEncodeItems(v, 0);
    case MapValue(fields) =>
      var names := SortedKeys(fields.Keys);
      DecodeEncodeMembers(v, |names|);
      RestrictedToAll(fields, names);
    case _ =>
  }

  lemma {:induction false} DecodeEncodeItems(v: Value, i: nat)
    requires v.ListValue? && i <= |v.items|
    ensures DecodeItems(Encode(v), i) == v.items[i..]
    decreases v, 0, |v.items| - i
  {
    if i < |v.items| {
      DecodeEncode(v.items[i]);
      DecodeEncodeItems(v, i + 1);
    }
  }

  ghost function Restricted(fields: map<string, Value>, names: seq<string>): map<string, Value> {
    map k | k in names && k in fields :: fields[k]
  }

  lemma RestrictedToAll(fields: map<string, Value>, names: seq<string>)
    requires Elements(names) == fields.Keys
    ensures Restricted(fields, names[..|names|]) == fields
  {
    assert names[..|names|] == names;
    assert forall k :: k in fields <==> k in Elements(names);
  }

  lemma OneMoreName(fields: map<string, Value>, names: seq<string>, n: nat)
    requires n < |names| && names[n] in fields
    ensures Restricted(fields, names[..n + 1]) == Restricted(fields, names[..n])[names[n] := fields[names[n]]]
  {
    assert names[..n + 1] == names[..n] + [names[n]];
  }

  lemma EncodedMember(v: Value, n: nat)
    requires v.MapValue? && n < |SortedKeys(v.fields.Keys)|
    ensures var name := SortedKeys(v.fields.Keys)[n];
      name in v.fields && Encode(v).members[n] == Member(name, Encode(v.fields[name]))
  {
    assert SortedKeys(v.fields.Keys)[n] in Elements(SortedKeys(v.fields.Keys));
  }

  lemma {:induction false} DecodeEncodeMembers(v: Value, n: nat)
    requires v.MapValue? && n <= |SortedKeys(v.fields.Keys)|
    ensures DecodeMembers(Encode(v), n) == Restricted(v.fields, SortedKeys(v.fields.Keys)[..n])
    decreases v, 0, n
  {
    if n > 0 {
      EncodedMember(v, n - 1);
      DecodeEncodeMembers(v, n - 1);
      DecodeEncode(v.fields[SortedKeys(v.fields.Keys)[n - 1]]);
      OneMoreName(v.fields, SortedKeys(v.fields.Keys), n - 1);
    }
  }

  /** Canonical form is a normal form: taking it twice changes nothing ... */
  lemma CanonicalIdempotent(j: Json)
    ensures Canonical(Canonical(j)) == Canonical(j)
  {
    DecodeEncode(Decode(j));
  }

  /** ... and two documents share it exactly when they decode to the same value. */
  lemma CanonicalExactly(a: Json, b: Json)
    ensures Canonical(a) == Canonical(b) <==> Decode(a) == Decode(b)
  {
    DecodeEncode(Decode(a));
    DecodeEncode(Decode(b));
  }

  // ---- Order of members ----

  ghost predicate DistinctNames(members: seq<Member>) {
    forall i, j :: 0 <= i < j < |members| ==> members[i].name != members[j].name
  }

  ghost predicate SameNames(a: seq<Member>, b: seq<Member>) {
    && (forall m :: m in a ==> exists n :: n in b && n.name == m.name)
    && (forall n :: n in b ==> exists m :: m in a && m.name == n.name)
  }

  /** The same document but for the order of members, at any depth. */
  ghost predicate Reordered(a: Json, b: Json)
    decreases a
  {
    match a
    case Array(items) =>
      b.Array? && |b.items| == |items| && forall i :: 0 <= i < |items| ==> Reordered(items[i], b.items[i])
    case Object(members) =>
      && b.Object? && DistinctNames(members) && DistinctNames(b.members) && SameNames(members, b.members)
      && forall i, k :: 0 <= i < |members| && 0 <= k < |b.members| && members[i].name == b.members[k].name ==>
        Reordered(members[i].value, b.members[k].value)
    case _ => a == b
  }

  /** With distinct names, every member is found under its name. */
  lemma {:induction false} MemberByName(j: Json, n: nat, i: nat)
    requires j.Object? && DistinctNames(j.members) && i < n <= |j.members|
    ensures j.members[i].name in DecodeMembers(j, n)
    ensures DecodeMembers(j, n)[j.members[i].name] == Decode(j.members[i].value)
    decreases n
  {
    LastMemberWins(j, n, i);
  }

  lemma {:induction false} NameOfMember(j: Json, n: nat, k: string) returns (i: nat)
    requires j.Object? && n <= |j.members| && k in DecodeMembers(j, n)
    ensures i < n && j.members[i].name == k
    decreases n
  {
    if j.members[n - 1].name == k { i := n - 1; } else { i := NameOfMember(j, n - 1, k); }
  }

  lemma {:induction false} ReorderedDecodeAlike(a: Json, b: Json)
    requires Reordered(a, b)
    ensures Decode(a) == Decode(b)
    decreases a, 1, 0
  {
    match a
    case Array(items) => ReorderedItems(a, b, 0);
    case Object(members) => ReorderedMembers(a, b);
    case _ =>
  }

  lemma {:induction false} ReorderedItems(a: Json, b: Json, i: nat)
    requires a.Array? && Reordered(a, b) && i <= |a.items|
    ensures DecodeItems(a, i) == DecodeItems(b, i)
    decreases a, 0, |a.items| - i
  {
    if i < |a.items| {
      ReorderedDecodeAlike(a.items[i], b.items[i]);
      ReorderedItems(a, b, i + 1);
    }
  }

  lemma Counterpart(a: seq<Member>, b: seq<Member>, i: nat) returns (l: nat)
    requires i < |a| && (forall m :: m in a ==> exists n :: n in b && n.name == m.name)
    ensures l < |b| && b[l].name == a[i].name
  {
    assert a[i] in a;
    var other :| other in b && other.name == a[i].name;
    l :| 0 <= l < |b| && b[l] == other;
  }

  lemma {:induction false} ReorderedMember(a: Json, b: Json, k: string)
    requires a.Object? && Reordered(a, b)
    requires k in DecodeMembers(a, |a.members|)
    ensures k in DecodeMembers(b, |b.members|) && DecodeMembers(b, |b.members|)[k] == DecodeMembers(a, |a.members|)[k]
    decreases a, 0, 0
  {
    var i := NameOfMember(a, |a.members|, k);
    var l := Counterpart(a.members, b.members, i);
    MemberByName(a, |a.members|, i);
    MemberByName(b, |b.members|, l);
    ReorderedDecodeAlike(a.members[i].value, b.members[l].value);
  }

  lemma {:induction false} ReorderedMembers(a: Json, b: Json)
    requires a.Object? && Reordered(a, b)
    ensures DecodeMembers(a, |a.members|) == DecodeMembers(b, |b.members|)
    decreases a, 0, 1
  {
    var m, n := DecodeMembers(a, |a.members|), DecodeMembers(b, |b.members|);
    forall k | k in m ensures k in n && n[k] == m[k] {
      ReorderedMember(a, b, k);
    }
    forall k | k in n ensures k in m {
      var l := NameOfMember(b, |b.members|, k);
      NameInBoth(a, b, l);
    }
  }

  lemma NameInBoth(a: Json, b: Json, l: nat)
    requires a.Object? && Reordered(a, b) && l < |b.members|
    ensures b.members[l].name in DecodeMembers(a, |a.members|)
  {
    var i := Counterpart(b.members, a.members, l);
    MemberByName(a, |a.members|, i);
  }

  // ---- The digest payload ----

  /** What is hashed; an empty schema counts as null. */
  datatype Payload = Payload(kind: string, name: string, input: Json, output: Json)

  function Given(raw: Option<Json>): Json {
    if raw.None? then Null else raw.value
  }

  ghost function PayloadOf(kind: string, name: string, input: Option<Json>, output: Option<Json>): Payload {
    Payload(kind, name, Canonical(Given(input)), Canonical(Given(output)))
  }

  /** The digest distinguishes what the schemas mean and nothing else. */
  lemma PayloadExactly(kind: string, name: string, input: Option<Json>, output: Option<Json>,
                       kind2: string, name2: string, input2: Option<Json>, output2: Option<Json>)
    ensures PayloadOf(kind, name, input, output) == PayloadOf(kind2, name2, input2, output2) <==>
      && kind == kind2 && name == name2
      && Meaning(input) == Meaning(input2) && Meaning(output) == Meaning(output2)
  {
    CanonicalExactly(Given(input), Given(input2));
    CanonicalExactly(Given(output), Given(output2));
  }

  /** What a schema means: its decoded value, or null when none is given. */
  function Meaning(raw: Option<Json>): Value {
    match raw
    case None => NullValue
    case Some(schema) => Decode(schema)
  }

  /** In particular it does not depend on the order of members, at any depth. */
  lemma ReorderingKeepsPayload(kind: string, name: string, input: Json, output: Json, input2: Json, output2: Json)
    requires Reordered(input, input2) && Reordered(output, output2)
    ensures PayloadOf(kind, name, Some(input), Some(output)) == PayloadOf(kind, name, Some(input2), Some(output2))
  {
    ReorderedDecodeAlike(input, input2);
    ReorderedDecodeAlike(output, output2);
  }

  /** Members of canonical objects are in ascending order of their names, without repeats. */
  lemma CanonicalIsSorted(j: Json)
    requires j.Object?
    ensures Canonical(j).Object?
    ensures var members := Canonical(j).members;
      Ascending(seq(|members|, i requires 0 <= i < |members| => members[i].name))
  {
    var names := SortedKeys(Decode(j).fields.Keys);
    var members := Canonical(j).members;
    assert names == seq(|members|, i requires 0 <= i < |members| => members[i].name);
  }
}
