/** Glob matching with '/' as separator, for patterns without brackets and braces: a literal
    matches itself, `?` one character other than '/', `*` any run without '/', and `**` any
    run at all. Brackets and braces are not part of this model. */
module Glob {

  predicate IsWild(c: char) {
    c == '*' || c == '?'
  }

  predicate Literal(p: string) {
    forall c :: c in p ==> !IsWild(c)
  }

  predicate StartsSuper(p: string) {
    |p| >= 2 && p[0] == '*' && p[1] == '*'
  }

  predicate Match(p: string, s: string)
    decreases |p| + |s|
  {
    if p == "" then s == ""
    else if StartsSuper(p) then
      Match(p[2..], s) || (s != "" && Match(p, s[1..]))
    else if p[0] == '*' then
      Match(p[1..], s) || (s != "" && s[0] != '/' && Match(p, s[1..]))
    else if p[0] == '?' then
      s != "" && s[0] != '/' && Match(p[1..], s[1..])
    else
      s != "" && s[0] == p[0] && Match(p[1..], s[1..])
  }

  /** What the two stars mean without recursion on the text: `**` consumes some prefix. */
  lemma {:induction false} SuperConsumesAnyPrefix(q: string, s: string)
    ensures Match("**" + q, s) <==> exists k :: 0 <= k <= |s| && Match(q, s[k..])
    decreases |s|
  {
    var p := "**" + q;
    assert p[2..] == q && s[0..] == s;
    if s != "" {
      SuperConsumesAnyPrefix(q, s[1..]);
      if k :| 0 <= k <= |s| && Match(q, s[k..]) {
        if k > 0 { assert s[1..][k - 1..] == s[k..]; }
      }
      if k :| 0 <= k <= |s[1..]| && Match(q, s[1..][k..]) {
        assert s[1..][k..] == s[k + 1..];
      }
    }
  }

  /** ... and a lone `*` consumes a prefix that stays inside one path segment. */
  lemma {:induction false} StarConsumesWithinSegment(q: string, s: string)
    requires q == "" || q[0] != '*'
    ensures Match("*" + q, s) <==> exists k :: 0 <= k <= |s| && StarSplit(q, s, k)
    decreases |s|
  {
    var p := "*" + q;
    assert p[1..] == q && s[0..] == s && s[..0] == "";
    assert StarSplit(q, s, 0) <==> Match(q, s);
    if s != "" {
      StarConsumesWithinSegment(q, s[1..]);
      forall k: nat | k < |s| ensures StarSplit(q, s, k + 1) <==> s[0] != '/' && StarSplit(q, s[1..], k) {
        assert s[..k + 1] == [s[0]] + s[1..][..k] && s[1..][k..] == s[k + 1..];
      }
      if k :| 0 < k <= |s| && StarSplit(q, s, k) { assert StarSplit(q, s[1..], k - 1); }
    }
  }

  predicate StarSplit(q: string, s: string, k: nat)
    requires k <= |s|
  {
    '/' !in s[..k] && Match(q, s[k..])
  }

  /** A literal head of a pattern must be found verbatim; the rest matches what follows. */
  lemma {:induction false} LiteralHead(lit: string, p: string, s: string)
    requires Literal(lit)
    ensures Match(lit + p, s) <==> lit <= s && Match(p, s[|lit|..])
  {
    if lit == "" {
      assert lit + p == p && s[0..] == s;
    } else {
      assert lit[0] in lit;
      assert (lit + p)[1..] == lit[1..] + p;
      if s != "" {
        LiteralHead(lit[1..], p, s[1..]);
        assert lit[1..] <= s[1..] && lit[0] == s[0] <==> lit <= s by {
          assert lit == [lit[0]] + lit[1..] && s == [s[0]] + s[1..];
        }
        if lit <= s { assert s[1..][|lit| - 1..] == s[|lit|..]; }
      }
    }
  }

  lemma {:induction false} LiteralMatchesItself(lit: string, s: string)
    requires Literal(lit)
    ensures Match(lit, s) <==> lit == s
  {
    LiteralHead(lit, "", s);
    assert lit + "" == lit;
  }

  lemma {:induction false} SuperMatchesAll(s: string)
    ensures Match("**", s)
  {
    SuperConsumesAnyPrefix("", s);
    assert "**" + "" == "**" && s[|s|..] == "";
  }
}
