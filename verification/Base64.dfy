/** Unpadded URL-safe base64 (sections 3.5 and 5 of RFC 4648) as Go's RawURLEncoding does it:
    decoding skips line breaks and does not insist on zero trailing bits. */
module Base64 {
  import opened Strings

  type Byte = b: int | 0 <= b < 256
  type Bytes = seq<Byte>

  predicate InAlphabet(c: char) {
    'A' <= c <= 'Z' || 'a' <= c <= 'z' || '0' <= c <= '9' || c == '-' || c == '_'
  }

  function Symbol(i: nat): (c: char)
    requires i < 64
    ensures InAlphabet(c) && Index(c) == i
  {
    if i < 26 then 'A' + i as char
    else if i < 52 then 'a' + (i - 26) as char
    else if i < 62 then '0' + (i - 52) as char
    else if i == 62 then '-' else '_'
  }

  function Index(c: char): (i: nat)
    requires InAlphabet(c)
    ensures i < 64
  {
    if 'A' <= c <= 'Z' then c as int - 'A' as int
    else if 'a' <= c <= 'z' then c as int - 'a' as int + 26
    else if '0' <= c <= '9' then c as int - '0' as int + 52
    else if c == '-' then 62 else 63
  }

  function EncodeGroup(a: Byte, b: Byte, c: Byte): (s: string)
    ensures |s| == 4 && forall x :: x in s ==> InAlphabet(x)
  {
    [Symbol(a / 4), Symbol(a % 4 * 16 + b / 16), Symbol(b % 16 * 4 + c / 64), Symbol(c % 64)]
  }

  function DecodeGroup(s: string): (b: Bytes)
    requires |s| == 4 && forall x :: x in s ==> InAlphabet(x)
    ensures |b| == 3
  {
    var i, j, k, l := Index(s[0]), Index(s[1]), Index(s[2]), Index(s[3]);
    [i * 4 + j / 16, j % 16 * 16 + k / 4, k % 4 * 64 + l]
  }

  /** Three bytes split over four six-bit groups come back together. */
  lemma GroupRoundTrip(a: Byte, b: Byte, c: Byte)
    ensures DecodeGroup(EncodeGroup(a, b, c)) == [a, b, c]
  {
    assert (a % 4 * 16 + b / 16) / 16 == a % 4 && (a % 4 * 16 + b / 16) % 16 == b / 16;
    assert (b % 16 * 4 + c / 64) / 4 == b % 16 && (b % 16 * 4 + c / 64) % 4 == c / 64;
  }

  /** A final group of one or two bytes is encoded as if zeros followed, then cut short. */
  function Encode(b: Bytes): (s: string)
    ensures forall x :: x in s ==> InAlphabet(x)
  {
    if |b| == 0 then ""
    else if |b| == 1 then EncodeGroup(b[0], 0, 0)[..2]
    else if |b| == 2 then EncodeGroup(b[0], b[1], 0)[..3]
    else EncodeGroup(b[0], b[1], b[2]) + Encode(b[3..])
  }

  function DropLineBreaks(s: string): (r: string)
    ensures '\n' !in s && '\r' !in s ==> r == s
  {
    if s == "" then ""
    else if s[0] == '\n' || s[0] == '\r' then DropLineBreaks(s[1..])
    else [s[0]] + DropLineBreaks(s[1..])
  }

  function DecodeSymbols(s: string): Bytes
    requires |s| % 4 != 1 && forall x :: x in s ==> InAlphabet(x)
  {
    if |s| == 0 then []
    else if |s| == 2 then DecodeGroup(s + "AA")[..1]
    else if |s| == 3 then DecodeGroup(s + "A")[..2]
    else DecodeGroup(s[..4]) + DecodeSymbols(s[4..])
  }

  function Decode(text: string): Option<Bytes> {
    var s := DropLineBreaks(text);
    if |s| % 4 != 1 && forall c :: c in s ==> InAlphabet(c) then Some(DecodeSymbols(s)) else None
  }

  lemma LastGroupRoundTrip(b: Bytes)
    requires |b| == 1 || |b| == 2
    ensures |Encode(b)| == |b| + 1 && DecodeSymbols(Encode(b)) == b
  {
    var s, c := Encode(b), if |b| == 1 then 0 else b[1];
    GroupRoundTrip(b[0], c, 0);
    assert s + (if |b| == 1 then "AA" else "A") == EncodeGroup(b[0], c, 0);
  }

  lemma DecodeGroupFirst(group: string, rest: string)
    requires |group| == 4 && |rest| % 4 != 1 && forall x :: x in group + rest ==> InAlphabet(x)
    ensures |group + rest| % 4 != 1
    ensures (forall x :: x in group ==> InAlphabet(x)) && forall x :: x in rest ==> InAlphabet(x)
    ensures DecodeSymbols(group + rest) == DecodeGroup(group) + DecodeSymbols(rest)
  {
    forall x | x in group || x in rest ensures InAlphabet(x) { assert x in group + rest; }
    assert (group + rest)[..4] == group && (group + rest)[4..] == rest;
  }

  lemma {:induction false} SymbolsRoundTrip(b: Bytes)
    ensures |Encode(b)| % 4 != 1 && DecodeSymbols(Encode(b)) == b
  {
    if |b| >= 3 {
      SymbolsRoundTrip(b[3..]);
      var group := EncodeGroup(b[0], b[1], b[2]);
      GroupRoundTrip(b[0], b[1], b[2]);
      DecodeGroupFirst(group, Encode(b[3..]));
      assert b == [b[0], b[1], b[2]] + b[3..];
    } else if b != [] {
      LastGroupRoundTrip(b);
    }
  }

  lemma RoundTrip(b: Bytes)
    ensures Decode(Encode(b)) == Some(b)
  {
    SymbolsRoundTrip(b);
    assert !InAlphabet('\n') && !InAlphabet('\r');
  }

  /** Decoding alone is not injective: stray trailing bits and line breaks are ignored, so a
      strict reader has to compare the text with its re-encoding. */
  lemma DecodeIsLenient()
    ensures Decode("QQ") == Decode("QR") == Decode("Q\nQ") == Some([65])
  {
    assert "Q\nQ"[1..] == "\nQ" && "\nQ"[1..] == "Q" && "Q"[1..] == "";
    assert DropLineBreaks("Q\nQ") == "QQ";
    assert Index('Q') == 16 && Index('R') == 17;
    assert DecodeSymbols("QQ") == DecodeGroup("QQ" + "AA")[..1] == [65];
    assert DecodeSymbols("QR") == DecodeGroup("QR" + "AA")[..1] == [65];
  }
}
