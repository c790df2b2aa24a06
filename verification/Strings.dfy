/** The few string operations the rest of the model needs: splitting and joining on one
    separator, slash normalisation and decimal printing. */
module Strings {

  datatype Option<+T> = None | Some(value: T)

  /** Splits at every occurrence of `c`; the result is never empty. */
  function Split(s: string, c: char): (parts: seq<string>)
    ensures |parts| >= 1
    ensures forall p :: p in parts ==> c !in p
  {
    if s == "" then [""]
    else
      var rest := Split(s[1..], c);
      if s[0] == c then [""] + rest else [[s[0]] + rest[0]] + rest[1..]
  }

  function Join(parts: seq<string>, sep: string): string {
    if |parts| == 0 then ""
    else if |parts| == 1 then parts[0]
    else parts[0] + sep + Join(parts[1..], sep)
  }

  lemma {:induction false} JoinAfterSplit(s: string, c: char)
    ensures Join(Split(s, c), [c]) == s
  {
    if s != "" {
      JoinAfterSplit(s[1..], c);
      var rest := Split(s[1..], c);
      assert s == [s[0]] + s[1..];
      if s[0] == c {
        assert Split(s, c)[1..] == rest;
      } else {
        var parts := Split(s, c);
        assert parts[1..] == rest[1..];
        assert Join(parts, [c]) == [s[0]] + Join(rest, [c]);
      }
    }
  }

  /** A join can be undone exactly when there is at least one part and no part has the
      separator; joining nothing reads back as one empty part. */
  lemma {:induction false} SplitAfterJoin(parts: seq<string>, c: char)
    ensures Split(Join(parts, [c]), c) == parts <==> (parts != [] && forall p :: p in parts ==> c !in p)
  {
    if parts != [] && forall p :: p in parts ==> c !in p {
      SplitAfterJoinClean(parts, c);
    }
  }

  lemma {:induction false} SplitAfterJoinClean(parts: seq<string>, c: char)
    requires parts != [] && forall p :: p in parts ==> c !in p
    ensures Split(Join(parts, [c]), c) == parts
    decreases |parts|, |parts[0]|
  {
    var head := parts[0];
    var text := Join(parts, [c]);
    if head == "" {
      if |parts| > 1 {
        SplitAfterJoinClean(parts[1..], c);
        assert text[1..] == Join(parts[1..], [c]);
      }
    } else {
      assert head in parts;
      var shorter := [head[1..]] + parts[1..];
      assert forall p :: p in shorter ==> c !in p by {
        forall p | p in shorter ensures c !in p {
          if p != head[1..] { assert p in parts; }
        }
      }
      assert shorter[1..] == parts[1..];
      assert text[1..] == Join(shorter, [c]) && text[0] == head[0];
      SplitAfterJoinClean(shorter, c);
      assert head == [head[0]] + head[1..];
      assert text[0] in head;
    }
  }

  /** Whether the host separates the components of a path by backslashes. */
  const WINDOWS: bool

  /** A path of the host with forward slashes; on a host that uses them nothing changes. */
  function HostToSlash(s: string): (r: string)
    ensures |r| == |s| && forall i :: 0 <= i < |s| ==> r[i] == if WINDOWS && s[i] == '\\' then '/' else s[i]
  {
    if WINDOWS then ToSlash(s) else s
  }

  /** Backslashes become forward slashes. */
  function ToSlash(s: string): (r: string)
    ensures |r| == |s|
    ensures forall i :: 0 <= i < |s| ==> r[i] == (if s[i] == '\\' then '/' else s[i])
  {
    seq(|s|, i requires 0 <= i < |s| => if s[i] == '\\' then '/' else s[i])
  }

  predicate HasSuffix(s: string, suffix: string) {
    |suffix| <= |s| && s[|s| - |suffix|..] == suffix
  }

  function TrimSuffix(s: string, suffix: string): string {
    if HasSuffix(s, suffix) then s[..|s| - |suffix|] else s
  }

  /** White space in Unicode. */
  predicate IsSpace(c: char) {
    || c == ' ' || '\t' <= c <= '\r' || c == '\U{85}' || c == '\U{A0}' || c == '\U{1680}'
    || '\U{2000}' <= c <= '\U{200A}' || c == '\U{2028}' || c == '\U{2029}' || c == '\U{202F}'
    || c == '\U{205F}' || c == '\U{3000}'
  }

  function TrimSpace(s: string): (r: string)
    ensures forall c :: c in r ==> c in s
    ensures r != "" ==> !IsSpace(r[0]) && !IsSpace(r[|r| - 1])
  {
    if s == "" then ""
    else if IsSpace(s[0]) then TrimSpace(s[1..])
    else if IsSpace(s[|s| - 1]) then TrimSpace(s[..|s| - 1])
    else s
  }

  /** Trimming leaves nothing exactly of white space. */
  lemma {:induction false} OnlySpaces(s: string)
    ensures TrimSpace(s) == "" <==> forall c :: c in s ==> IsSpace(c)
  {
    if s != "" {
      if IsSpace(s[0]) {
        OnlySpaces(s[1..]);
        assert s == [s[0]] + s[1..];
      } else if IsSpace(s[|s| - 1]) {
        OnlySpaces(s[..|s| - 1]);
        assert s == s[..|s| - 1] + [s[|s| - 1]] && s[0] in s && s[0] in s[..|s| - 1];
      } else {
        assert s[0] in s;
      }
    }
  }

  predicate AllSpaces(s: string) {
    forall i :: 0 <= i < |s| ==> IsSpace(s[i])
  }

  lemma OneMoreSpace(c: char, front: string, mid: string, back: string)
    requires IsSpace(c) && AllSpaces(front) && AllSpaces(back)
    ensures AllSpaces([c] + front) && AllSpaces(back + [c])
    ensures [c] + (front + (mid + back)) == ([c] + front) + (mid + back)
    ensures (front + (mid + back)) + [c] == front + (mid + (back + [c]))
  {
  }

  /** Trimming takes white space away from both ends and nothing else. */
  lemma {:induction false} TrimmedAway(s: string) returns (front: string, back: string)
    ensures s == front + (TrimSpace(s) + back) && AllSpaces(front) && AllSpaces(back)
    decreases |s|
  {
    front, back := "", "";
    if s != "" {
      var n := |s| - 1;
      if IsSpace(s[0]) {
        front, back := TrimmedAway(s[1..]);
        OneMoreSpace(s[0], front, TrimSpace(s), back);
        assert s == [s[0]] + s[1..];
        front := [s[0]] + front;
      } else if IsSpace(s[n]) {
        front, back := TrimmedAway(s[..n]);
        OneMoreSpace(s[n], front, TrimSpace(s), back);
        assert s == s[..n] + [s[n]];
        back := back + [s[n]];
      }
    }
  }

  predicate IsDigit(c: char) {
    '0' <= c <= '9'
  }

  function Digit(d: nat): (c: char)
    requires d < 10
    ensures IsDigit(c) && c as int - '0' as int == d
  {
    '0' + d as char
  }

  /** Decimal text of a natural number, without leading zeros. */
  function Itoa(n: nat): (s: string)
    ensures s != "" && forall i :: 0 <= i < |s| ==> IsDigit(s[i])
  {
    if n < 10 then [Digit(n)] else Itoa(n / 10) + [Digit(n % 10)]
  }

  /** Value of a run of decimal digits. */
  function Value(s: string): nat
    requires forall i :: 0 <= i < |s| ==> IsDigit(s[i])
  {
    if s == "" then 0
    else 10 * Value(s[..|s| - 1]) + DigitValue(s[|s| - 1])
  }

  function DigitValue(c: char): nat
    requires IsDigit(c)
  {
    c as int - '0' as int
  }

  lemma {:induction false} ValueOfItoa(n: nat)
    ensures Value(Itoa(n)) == n
  {
    if n >= 10 {
      ValueOfItoa(n / 10);
      var s := Itoa(n);
      assert s[..|s| - 1] == Itoa(n / 10);
    } else {
      assert Itoa(n)[..0] == "";
    }
  }

  /** A run of digits ends at the first character that is none. */
  lemma DigitsUpTo(m: string, afterM: string, n: string, afterN: string, c: char)
    requires m + ([c] + afterM) == n + ([c] + afterN) && !IsDigit(c)
    requires (forall i :: 0 <= i < |m| ==> IsDigit(m[i])) && forall i :: 0 <= i < |n| ==> IsDigit(n[i])
    ensures m == n && afterM == afterN
  {
    var text := m + ([c] + afterM);
    assert text == n + ([c] + afterN);
    assert text[|m|] == c && text[|n|] == c;
    assert forall i :: 0 <= i < |m| ==> text[i] == m[i];
    assert forall i :: 0 <= i < |n| ==> text[i] == n[i];
    assert |m| == |n| && m == text[..|m|] == n;
    assert afterM == text[|m| + 1..] == afterN;
  }
}
