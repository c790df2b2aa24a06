/** How the path globs of a discovered agent skill become scopes: globs are placed under the
    directory that owns the skill, and every pattern with an inner double star is stored
    beside shorter forms, because the matcher's `**` never stands for "no directory". */
module AgentScopes {
  import opened Strings
  import opened Order
  import opened Glob

  // ---- The owning directory ----

  const PARENTS: seq<string> := [".agents", ".claude", ".codex", ".cursor", ".gemini", ".github"]

  /** The number of leading components that own the skill: those before `.tool/skills`. */
  function AnchorLength(parts: seq<string>): (n: Option<nat>)
    ensures n.Some? ==> OwnsSkills(parts, n.value) && forall i: nat :: i < n.value ==> !OwnsSkills(parts, i)
    ensures n.None? ==> forall i: nat :: !OwnsSkills(parts, i)
  {
    if |parts| < 2 then None
    else if OwnsSkills(parts, 0) then Some(0)
    else
      assert forall i: nat :: i > 0 ==> (OwnsSkills(parts, i) <==> OwnsSkills(parts[1..], i - 1));
      match AnchorLength(parts[1..])
      case None => None
      case Some(n) => Some(n + 1)
  }

  predicate OwnsSkills(parts: seq<string>, i: nat) {
    i + 1 < |parts| && parts[i] in PARENTS && parts[i + 1] == "skills"
  }

  function Anchor(rel: string): Option<string> {
    var parts := Split(HostToSlash(rel), '/');
    match AnchorLength(parts)
    case None => None
    case Some(n) => Some(Join(parts[..n], "/"))
  }

  // ---- Patterns with zero-segment forms ----

  /** A `**` followed by a slash that starts a path segment; `starts` says whether the start
      of the text does. */
  predicate SuperSegment(p: string, k: nat, starts: bool) {
    k + 2 < |p| && p[k] == '*' && p[k + 1] == '*' && p[k + 2] == '/' && if k == 0 then starts else p[k - 1] == '/'
  }

  ghost predicate NoneBefore(p: string, n: nat, starts: bool) {
    forall k: nat :: k < n ==> !SuperSegment(p, k, starts)
  }

  predicate InnerAt(p: string, i: nat) {
    i + 3 < |p| && p[i] == '/' && p[i + 1] == '*' && p[i + 2] == '*' && p[i + 3] == '/'
  }

  /** The position of the first slash, double star, slash. */
  function FirstInner(p: string, from: nat): (i: Option<nat>)
    ensures i.Some? ==> InnerAt(p, i.value) && forall j: nat :: from <= j < i.value ==> !InnerAt(p, j)
    ensures i.None? ==> forall j: nat :: from <= j ==> !InnerAt(p, j)
    decreases |p| - from
  {
    if from + 4 > |p| then None
    else if InnerAt(p, from) then Some(from)
    else FirstInner(p, from + 1)
  }

  /** Where the first double-star segment starts. */
  function FirstSegment(p: string): (k: Option<nat>)
    ensures k.Some? ==> SuperSegment(p, k.value, true) && NoneBefore(p, k.value, true)
    ensures k.None? ==> NoneBefore(p, |p|, true)
  {
    if "**/" <= p then
      assert p[0] == '*' && p[1] == '*' && p[2] == '/';
      Some(0)
    else
      assert forall j: nat :: SuperSegment(p, j, true) ==> InnerOrFirst(p, j);
      match FirstInner(p, 0)
      case None => None
      case Some(i) => Some(i + 1)
  }

  predicate InnerOrFirst(p: string, j: nat) {
    if j == 0 then "**/" <= p else InnerAt(p, j - 1)
  }

  function WithoutFirst(p: string): (shorter: Option<string>)
    ensures shorter.Some? ==> |shorter.value| < |p|
    ensures shorter.None? <==> FirstSegment(p).None?
  {
    match FirstSegment(p)
    case None => None
    case Some(k) => Some(p[..k] + p[k + 3..])
  }

  /** The pattern and its shorter forms, leftmost segment dropped first. */
  function Expand(p: string): (forms: seq<string>)
    ensures |forms| >= 1 && forms[0] == p
    decreases |p|, 1
  {
    [p] + ShorterForms(p)
  }

  function ShorterForms(p: string): seq<string>
    decreases |p|, 0
  {
    var shorter := WithoutFirst(p);
    if shorter.None? || shorter.value == "" then [] else Expand(shorter.value)
  }

  /** A pattern that drops to nothing leaves no form: all forms of a pattern say something. */
  lemma {:induction false} FormsNotEmpty(p: string)
    requires p != ""
    ensures "" !in Expand(p)
    decreases |p|
  {
    var shorter := WithoutFirst(p);
    if shorter.Some? && shorter.value != "" { FormsNotEmpty(shorter.value); }
  }

  /** The loop that computes the forms; it ends because every form is shorter. */
  method ExpandEmptyDoubleStar(glob: string) returns (out: seq<string>)
    ensures out == Expand(glob)
  {
    out := [glob];
    var current := glob;
    var next := WithoutFirst(current);
    while next.Some? && next.value != ""
      invariant next == WithoutFirst(current)
      invariant out + ShorterForms(current) == Expand(glob)
      decreases |current|
    {
      MoveOne(out, next.value, ShorterForms(next.value));
      current := next.value;
      out := out + [current];
      next := WithoutFirst(current);
    }
  }

  /** What a reader expects of a pattern: a double-star segment stands for any number of
      directories, including none. `starts` says whether a segment starts here. */
  predicate DirMatch(p: string, s: string, starts: bool)
    decreases |p| + |s|
  {
    if p == "" then s == ""
    else if starts && "**/" <= p && DirMatch(p[3..], s, true) then true
    else if StartsSuper(p) then
      DirMatch(p[2..], s, false) || (s != "" && DirMatch(p, s[1..], false))
    else if p[0] == '*' then
      DirMatch(p[1..], s, false) || (s != "" && s[0] != '/' && DirMatch(p, s[1..], false))
    else if p[0] == '?' then
      s != "" && s[0] != '/' && DirMatch(p[1..], s[1..], false)
    else
      s != "" && s[0] == p[0] && DirMatch(p[1..], s[1..], p[0] == '/')
  }

  lemma {:induction false} MatchIsDirMatch(p: string, s: string, starts: bool)
    requires Match(p, s)
    ensures DirMatch(p, s, starts)
    decreases |p| + |s|
  {
    if p == "" {
    } else if StartsSuper(p) {
      if Match(p[2..], s) { MatchIsDirMatch(p[2..], s, false); } else { MatchIsDirMatch(p, s[1..], false); }
    } else if p[0] == '*' {
      if Match(p[1..], s) { MatchIsDirMatch(p[1..], s, false); } else { MatchIsDirMatch(p, s[1..], false); }
    } else {
      MatchIsDirMatch(p[1..], s[1..], p[0] == '/');
    }
  }

  lemma TailSegments(p: string, n: nat, starts: bool)
    requires p != "" && n > 0 && NoneBefore(p, n, starts)
    ensures NoneBefore(p, n, false) && NoneBefore(p[1..], n - 1, p[0] == '/')
    ensures StartsSuper(p) && n > 1 ==> NoneBefore(p[2..], n - 2, false)
    ensures starts ==> !("**/" <= p)
  {
    forall k: nat | k < n ensures !SuperSegment(p, k, false) {
      assert !SuperSegment(p, k, starts);
    }
    var slash := p[0] == '/';
    forall k: nat | k < n - 1 ensures !SuperSegment(p[1..], k, slash) {
      assert !SuperSegment(p, k + 1, starts);
    }
    if StartsSuper(p) && n > 1 {
      forall k: nat | k < n - 2 ensures !SuperSegment(p[2..], k, false) {
        assert !SuperSegment(p, k + 2, starts);
      }
    }
    assert !SuperSegment(p, 0, starts);
  }

  /** Without a double-star segment the two readings agree. */
  lemma {:induction false} PlainDirMatch(p: string, s: string, starts: bool)
    requires NoneBefore(p, |p|, starts) && DirMatch(p, s, starts)
    ensures Match(p, s)
    decreases |p| + |s|
  {
    if p != "" {
      TailSegments(p, |p|, starts);
      if StartsSuper(p) {
        if DirMatch(p[2..], s, false) { PlainDirMatch(p[2..], s, false); } else { PlainDirMatch(p, s[1..], false); }
      } else if p[0] == '*' {
        if DirMatch(p[1..], s, false) { PlainDirMatch(p[1..], s, false); } else { PlainDirMatch(p, s[1..], false); }
      } else {
        PlainDirMatch(p[1..], s[1..], p[0] == '/');
      }
    }
  }

  predicate EndsSegment(pre: string, starts: bool) {
    if pre == "" then starts else pre[|pre| - 1] == '/'
  }

  /** Dropping a double-star segment never adds a match under the expected reading. */
  lemma {:induction false} DroppingIsSound(pre: string, rest: string, s: string, starts: bool)
    requires EndsSegment(pre, starts) && DirMatch(pre + rest, s, starts)
    ensures DirMatch(pre + ("**/" + rest), s, starts)
    decreases |pre| + |s|
  {
    var long := "**/" + rest;
    if pre == "" {
      assert pre + rest == rest && pre + long == long && long[3..] == rest;
    } else {
      Tails(pre, rest);
      Tails(pre, long);
      if starts && "**/" <= pre && DirMatch(pre[3..] + rest, s, true) {
        DroppingIsSound(pre[3..], rest, s, true);
      } else if StartsSuper(pre) {
        if DirMatch(pre[2..] + rest, s, false) { DroppingIsSound(pre[2..], rest, s, false); }
        else { DroppingIsSound(pre, rest, s[1..], false); }
      } else if pre[0] == '*' {
        if DirMatch(pre[1..] + rest, s, false) { DroppingIsSound(pre[1..], rest, s, false); }
        else { DroppingIsSound(pre, rest, s[1..], false); }
      } else {
        DroppingIsSound(pre[1..], rest, s[1..], pre[0] == '/');
      }
    }
  }

  /** No token of a pattern reaches across a slash. */
  lemma Tails(pre: string, rest: string)
    requires pre != "" && pre[|pre| - 1] == '/'
    ensures (pre + rest)[0] == pre[0] && (pre + rest)[1..] == pre[1..] + rest
    ensures StartsSuper(pre + rest) <==> StartsSuper(pre)
    ensures StartsSuper(pre) ==> (pre + rest)[2..] == pre[2..] + rest && |pre| > 2
    ensures "**/" <= pre + rest <==> "**/" <= pre
    ensures "**/" <= pre ==> (pre + rest)[3..] == pre[3..] + rest
    ensures pre[0] == '*' ==> |pre| > 1
  {
    if "**/" <= pre + rest {
      assert (pre + rest)[0] == '*' && (pre + rest)[1] == '*' && (pre + rest)[2] == '/';
      assert |pre| > 2;
      assert pre[..3] == (pre + rest)[..3];
    }
  }

  lemma CutApart(p: string)
    requires FirstSegment(p).Some?
    ensures var k := FirstSegment(p).value;
      && p == p[..k] + ("**/" + p[k + 3..]) && EndsSegment(p[..k], true)
      && WithoutFirst(p) == Some(p[..k] + p[k + 3..])
  {
    var k := FirstSegment(p).value;
    assert p[k..k + 3] == "**/";
    assert p == p[..k] + p[k..k + 3] + p[k + 3..];
  }

  /** Every stored form matches only what the original pattern is expected to match. */
  lemma {:induction false} FormsAreSound(p: string, form: string, s: string)
    requires form in Expand(p) && Match(form, s)
    ensures DirMatch(p, s, true)
    decreases |p|
  {
    if form == p {
      MatchIsDirMatch(p, s, true);
    } else {
      var k := FirstSegment(p).value;
      CutApart(p);
      FormsAreSound(WithoutFirst(p).value, form, s);
      DroppingIsSound(p[..k], p[k + 3..], s, true);
    }
  }

  // ---- When the forms are complete ----

  /** Some stored form matches. */
  ghost predicate Matched(p: string, s: string) {
    exists form :: form in Expand(p) && Match(form, s)
  }

  /** The stored forms match exactly what the pattern is expected to match. */
  ghost predicate Complete(p: string) {
    forall s :: s != "" ==> (DirMatch(p, s, true) <==> Matched(p, s))
  }

  /** Double-star segments next to each other. */
  function Run(n: nat): string {
    if n == 0 then "" else "**/" + Run(n - 1)
  }

  /** A pattern whose first run of double-star segments has length `n`. */
  function Pattern(pre: string, n: nat, q: string): string {
    pre + (Run(n) + q)
  }

  ghost predicate FirstRun(pre: string, n: nat, q: string) {
    n > 0 && EndsSegment(pre, true) && NoneBefore(pre, |pre|, true) && !("**/" <= q)
  }

  /** What follows the double-star segments at the front. */
  function AfterRun(s: string): (q: string)
    ensures !("**/" <= q)
  {
    if "**/" <= s then AfterRun(s[3..]) else s
  }

  /** All double-star segments of a pattern stand next to each other. */
  predicate Adjacent(p: string) {
    match FirstSegment(p)
    case None => true
    case Some(k) => FirstSegment(AfterRun(p[k..])).None?
  }

  /** Every pattern with a double-star segment has a first run. */
  lemma SplitAtRun(p: string) returns (pre: string, n: nat)
    requires FirstSegment(p).Some?
    ensures var k := FirstSegment(p).value;
      pre == p[..k] && p == Pattern(pre, n, AfterRun(p[k..])) && FirstRun(pre, n, AfterRun(p[k..]))
  {
    var k := FirstSegment(p).value;
    CutApart(p);
    pre := p[..k];
    forall j: nat | j < k ensures !SuperSegment(pre, j, true) {
      assert !SuperSegment(p, j, true);
    }
    n := LongestRun(p[k..]);
    assert p[k..k + 3] == "**/" && p[k..][..3] == "**/";
    assert p == pre + p[k..];
  }

  lemma {:induction false} LongestRun(s: string) returns (n: nat)
    ensures s == Run(n) + AfterRun(s) && (n > 0 <==> "**/" <= s)
  {
    if "**/" <= s {
      n := LongestRun(s[3..]);
      RunAhead(n, AfterRun(s));
      assert s == "**/" + s[3..];
      n := n + 1;
    } else {
      n := 0;
      assert s == "" + s;
    }
  }

  /** Dropping shortens the first run by one. */
  lemma DropFromRun(pre: string, n: nat, q: string)
    requires n > 0 && EndsSegment(pre, true) && NoneBefore(pre, |pre|, true)
    ensures FirstSegment(Pattern(pre, n, q)) == Some(|pre|)
    ensures WithoutFirst(Pattern(pre, n, q)) == Some(Pattern(pre, n - 1, q))
  {
    var p := Pattern(pre, n, q);
    assert Run(n) + q == "**/" + (Run(n - 1) + q);
    assert SuperSegment(p, |pre|, true);
    HeadHasNone(pre, Run(n) + q);
    assert p[..|pre|] == pre && p[|pre| + 3..] == Run(n - 1) + q;
  }

  /** Whether a segment starts before the end of `pre` depends on `pre` alone. */
  lemma HeadHasNone(pre: string, rest: string)
    requires EndsSegment(pre, true) && NoneBefore(pre, |pre|, true)
    ensures NoneBefore(pre + rest, |pre|, true)
  {
    forall k: nat | k < |pre| ensures !SuperSegment(pre + rest, k, true) {
      assert !SuperSegment(pre, k, true);
    }
  }

  lemma {:induction false} RunLength(n: nat)
    ensures |Run(n)| == 3 * n
  {
    if n > 0 { RunLength(n - 1); }
  }

  /** All lengths of the run are among the forms ... */
  lemma {:induction false} ShorterRunsAreForms(pre: string, n: nat, q: string, i: nat)
    requires EndsSegment(pre, true) && NoneBefore(pre, |pre|, true) && i <= n && Pattern(pre, i, q) != ""
    ensures Pattern(pre, i, q) in Expand(Pattern(pre, n, q))
  {
    if i < n {
      DropFromRun(pre, n, q);
      RunLength(i);
      RunLength(n - 1);
      assert |Pattern(pre, n - 1, q)| >= |Pattern(pre, i, q)| > 0;
      ShorterRunsAreForms(pre, n - 1, q, i);
    }
  }

  /** ... and everything else comes after the whole run is dropped. */
  lemma {:induction false} FormsOfRun(pre: string, n: nat, q: string, form: string)
    requires EndsSegment(pre, true) && NoneBefore(pre, |pre|, true) && form in Expand(Pattern(pre, n, q))
    ensures form in Expand(Pattern(pre, 0, q)) || exists i :: 0 < i <= n && form == Pattern(pre, i, q)
  {
    if n > 0 && form != Pattern(pre, n, q) {
      DropFromRun(pre, n, q);
      FormsOfRun(pre, n - 1, q, form);
    }
  }

  lemma RunAhead(n: nat, q: string)
    ensures var tail := Run(n) + q; var p := Run(n + 1) + q;
      && p == "**/" + tail && p[3..] == tail && p[2..] == "/" + tail && p[2..][1..] == tail
      && StartsSuper(p) && "**/" <= p
  {
    assert Run(n + 1) + q == "**/" + (Run(n) + q);
  }

  lemma MatchAhead(n: nat, q: string, s: string)
    requires s != "" && s[0] == '/' && Match(Run(n) + q, s[1..])
    ensures Match(Run(n + 1) + q, s)
  {
    RunAhead(n, q);
  }

  /** What the text after a run is expected to match, one of some patterns matches plainly. */
  ghost predicate Covers(q: string, plain: seq<string>) {
    forall s, starts :: DirMatch(q, s, starts) ==> exists a :: a in plain && Match(a, s)
  }

  lemma PlainCovers(q: string)
    requires FirstSegment(q).None?
    ensures Covers(q, [q])
  {
    forall s, starts | DirMatch(q, s, starts) ensures exists a :: a in [q] && Match(a, s) {
      forall k: nat | k < |q| ensures !SuperSegment(q, k, starts) { assert !SuperSegment(q, k, true); }
      PlainDirMatch(q, s, starts);
      assert q in [q];
    }
  }

  /** A run is matched by some shorter run, read plainly. */
  lemma {:induction false} RunIsComplete(n: nat, q: string, plain: seq<string>, s: string, starts: bool)
    returns (i: nat, a: string)
    requires Covers(q, plain) && DirMatch(Run(n) + q, s, starts)
    ensures i <= n && a in plain && Match(Run(i) + a, s) && (!starts && n > 0 ==> i > 0)
    decreases n + |s|
  {
    if n == 0 {
      assert Run(n) + q == q;
      a :| a in plain && Match(a, s);
      assert Run(0) + a == a;
      i := 0;
    } else {
      RunAhead(n - 1, q);
      var p := Run(n) + q;
      if starts && DirMatch(p[3..], s, true) {
        i, a := RunIsComplete(n - 1, q, plain, s, true);
      } else if DirMatch(p[2..], s, false) {
        i, a := RunIsComplete(n - 1, q, plain, s[1..], true);
        MatchAhead(i, a, s);
        i := i + 1;
      } else {
        i, a := RunIsComplete(n, q, plain, s[1..], false);
        RunAhead(i - 1, a);
      }
    }
  }

  lemma {:induction false} PrefixedRunIsComplete(pre: string, n: nat, q: string, plain: seq<string>, s: string,
                                                 starts: bool)
    returns (i: nat, a: string)
    requires EndsSegment(pre, starts) && Covers(q, plain)
    requires NoneBefore(Pattern(pre, n, q), |pre|, starts) && DirMatch(Pattern(pre, n, q), s, starts)
    ensures i <= n && a in plain && Match(Pattern(pre, i, a), s)
    decreases |pre| + |s|
  {
    var long := Run(n) + q;
    if pre == "" {
      assert pre + long == long;
      i, a := RunIsComplete(n, q, plain, s, true);
      assert Pattern(pre, i, a) == Run(i) + a;
    } else {
      Tails(pre, long);
      TailSegments(pre + long, |pre|, starts);
      if StartsSuper(pre) {
        if DirMatch(pre[2..] + long, s, false) { i, a := PrefixedRunIsComplete(pre[2..], n, q, plain, s, false); }
        else { i, a := PrefixedRunIsComplete(pre, n, q, plain, s[1..], false); }
      } else if pre[0] == '*' {
        if DirMatch(pre[1..] + long, s, false) { i, a := PrefixedRunIsComplete(pre[1..], n, q, plain, s, false); }
        else { i, a := PrefixedRunIsComplete(pre, n, q, plain, s[1..], false); }
      } else {
        i, a := PrefixedRunIsComplete(pre[1..], n, q, plain, s[1..], pre[0] == '/');
      }
      Tails(pre, Run(i) + a);
    }
  }

  /** With one run of double-star segments, however long, nothing is lost. */
  lemma OneRunIsComplete(pre: string, n: nat, q: string)
    requires FirstRun(pre, n, q) && FirstSegment(q).None?
    ensures Complete(Pattern(pre, n, q))
  {
    var p := Pattern(pre, n, q);
    PlainCovers(q);
    HeadHasNone(pre, Run(n) + q);
    forall s | s != "" ensures DirMatch(p, s, true) <==> Matched(p, s) {
      if form :| form in Expand(p) && Match(form, s) { FormsAreSound(p, form, s); }
      if DirMatch(p, s, true) {
        var i, a := PrefixedRunIsComplete(pre, n, q, [q], s, true);
        ShorterRunsAreForms(pre, n, q, i);
      }
    }
  }

  /** ... and without any segment there is nothing to lose. */
  lemma NoSegmentIsComplete(p: string)
    requires FirstSegment(p).None?
    ensures Complete(p)
  {
    forall s | s != "" ensures DirMatch(p, s, true) <==> Matched(p, s) {
      if form :| form in Expand(p) && Match(form, s) { FormsAreSound(p, form, s); }
      if DirMatch(p, s, true) {
        PlainDirMatch(p, s, true);
        assert p in Expand(p);
      }
    }
  }

  /** For every pattern: when all its double-star segments are adjacent, the stored forms match
      exactly what the pattern is expected to match, on every path. */
  lemma AdjacentIsComplete(p: string)
    requires Adjacent(p)
    ensures Complete(p)
  {
    if FirstSegment(p).None? {
      NoSegmentIsComplete(p);
    } else {
      var pre, n := SplitAtRun(p);
      OneRunIsComplete(pre, n, AfterRun(p[FirstSegment(p).value..]));
    }
  }

  // ---- When they are not ----

  /** A shortest text that a pattern matches. */
  function Least(p: string): string {
    if p == "" then ""
    else if StartsSuper(p) then Least(p[2..])
    else if p[0] == '*' then Least(p[1..])
    else if p[0] == '?' then "a" + Least(p[1..])
    else [p[0]] + Least(p[1..])
  }

  lemma {:induction false} LeastMatches(p: string)
    ensures Match(p, Least(p))
  {
    if p == "" {
    } else if StartsSuper(p) {
      LeastMatches(p[2..]);
    } else {
      LeastMatches(p[1..]);
      if p[0] != '*' { assert Least(p)[1..] == Least(p[1..]); }
    }
  }

  lemma {:induction false} LeastIsShortest(p: string, s: string)
    requires Match(p, s)
    ensures |s| >= |Least(p)|
    decreases |p| + |s|
  {
    if p == "" {
    } else if StartsSuper(p) {
      if Match(p[2..], s) { LeastIsShortest(p[2..], s); } else { LeastIsShortest(p, s[1..]); }
    } else if p[0] == '*' {
      if Match(p[1..], s) { LeastIsShortest(p[1..], s); } else { LeastIsShortest(p, s[1..]); }
    } else {
      LeastIsShortest(p[1..], s[1..]);
    }
  }

  /** A directory that does not begin like `mid`, then `mid`, then the least of the rest. */
  function Below(mid: string, rest: string): string
    requires mid != ""
  {
    [if mid[0] == 'x' then 'y' else 'x'] + ("/" + (mid + Least(rest)))
  }

  lemma BelowMatches(mid: string, rest: string)
    requires mid != "" && Literal(mid)
    ensures Match("**" + (("/" + mid) + rest), Below(mid, rest))
  {
    var u, slashed := Below(mid, rest), "/" + mid;
    LeastMatches(rest);
    assert u[1..] == slashed + Least(rest);
    assert u[1..][|slashed|..] == Least(rest);
    LiteralHead(slashed, rest, u[1..]);
    SuperConsumesAnyPrefix(slashed + rest, u);
  }

  lemma BelowIsExpected(pre: string, n: nat, mid: string, rest: string)
    requires n > 0 && Literal(pre) && EndsSegment(pre, true) && mid != "" && Literal(mid) && EndsSegment(mid, true)
    ensures DirMatch(Pattern(pre, n, mid + ("**/" + rest)), pre + Below(mid, rest), true)
  {
    var s, tail := pre + Below(mid, rest), "**" + (("/" + mid) + rest);
    BelowMatches(mid, rest);
    LiteralHead(pre, tail, s);
    assert s[|pre|..] == Below(mid, rest);
    MatchIsDirMatch(pre + tail, s, true);
    SegmentAfterMid(pre, mid, rest, s);
    LongerRuns(pre, n, mid + ("**/" + rest), s);
  }

  lemma Regroup(pre: string, mid: string, rest: string)
    ensures pre + ("**" + (("/" + mid) + rest)) == (pre + ("**/" + mid)) + rest
    ensures (pre + ("**/" + mid)) + rest == pre + ("**/" + (mid + rest))
  {
  }

  lemma SegmentAfterMid(pre: string, mid: string, rest: string, s: string)
    requires mid != "" && EndsSegment(mid, true) && DirMatch(pre + ("**" + (("/" + mid) + rest)), s, true)
    ensures DirMatch(Pattern(pre, 1, mid + ("**/" + rest)), s, true)
  {
    var head := pre + ("**/" + mid);
    Regroup(pre, mid, rest);
    Regroup(pre, mid, "**/" + rest);
    assert head[|head| - 1] == mid[|mid| - 1];
    DroppingIsSound(head, rest, s, true);
    RunOfOne(mid + ("**/" + rest));
  }

  lemma RunOfOne(q: string)
    ensures Run(1) + q == "**/" + q
  {
    RunAhead(0, q);
    assert Run(0) + q == q;
  }

  lemma {:induction false} LongerRuns(pre: string, n: nat, q: string, s: string)
    requires n > 0 && EndsSegment(pre, true) && DirMatch(Pattern(pre, 1, q), s, true)
    ensures DirMatch(Pattern(pre, n, q), s, true)
  {
    if n > 1 {
      LongerRuns(pre, n - 1, q, s);
      RunAhead(n - 1, q);
      DroppingIsSound(pre, Run(n - 1) + q, s, true);
    }
  }

  /** Read plainly, a run needs at least a slash before what follows it. */
  lemma {:induction false} RunNeedsSlash(n: nat, q: string, s: string) returns (k: nat)
    requires n > 0 && Match(Run(n) + q, s)
    ensures k <= |s| && Match("/" + q, s[k..])
  {
    var tail := Run(n - 1) + q;
    assert Run(n) + q == "**" + ("/" + tail);
    SuperConsumesAnyPrefix("/" + tail, s);
    k :| 0 <= k <= |s| && Match("/" + tail, s[k..]);
    if n > 1 {
      assert ("/" + tail)[1..] == tail && s[k..][1..] == s[k + 1..];
      var j := RunNeedsSlash(n - 1, q, s[k + 1..]);
      assert s[k + 1..][j..] == s[k + 1 + j..];
      k := k + 1 + j;
    } else {
      assert tail == q;
    }
  }

  /** With the run, a text that does not begin with a slash has to hold two slashes, the literal
      and the rest. */
  lemma RunNeedsRoom(n: nat, mid: string, rest: string, u: string)
    requires n > 0 && Literal(mid) && u != "" && u[0] != '/' && Match(Run(n) + (mid + ("**/" + rest)), u)
    ensures |u| >= 3 + |mid| + |Least(rest)|
  {
    var slashed, after := "/" + mid, "**/" + rest;
    var k := RunNeedsSlash(n, mid + after, u);
    assert "/" + (mid + after) == slashed + after;
    LiteralHead(slashed, after, u[k..]);
    assert u[k] == '/' && k > 0;
    SlashNeedsRoom(rest, u[k..][|slashed|..]);
  }

  lemma SlashNeedsRoom(rest: string, s: string)
    requires Match("**/" + rest, s)
    ensures |s| >= 1 + |Least(rest)|
  {
    SuperConsumesAnyPrefix("/" + rest, s);
    assert "**" + ("/" + rest) == "**/" + rest;
    var j :| 0 <= j <= |s| && Match("/" + rest, s[j..]);
    assert ("/" + rest)[1..] == rest;
    LeastIsShortest(rest, s[j..][1..]);
  }

  /** A literal head stays at the head of every form. */
  lemma {:induction false} HeadStays(head: string, p: string, form: string)
    requires Literal(head) && head <= p && form in Expand(p)
    ensures head <= form
    decreases |p|
  {
    if form != p {
      var k := FirstSegment(p).value;
      CutApart(p);
      assert forall i :: 0 <= i < |head| ==> p[i] == head[i] && head[i] in head;
      CutKeepsHead(head, p, k);
      HeadStays(head, WithoutFirst(p).value, form);
    }
  }

  lemma CutKeepsHead(head: string, p: string, k: nat)
    requires head <= p && |head| <= k && k + 3 <= |p|
    ensures head <= p[..k] + p[k + 3..]
  {
  }

  lemma RunMisses(pre: string, n: nat, mid: string, rest: string)
    requires n > 0 && Literal(pre) && mid != "" && Literal(mid)
    ensures !Match(Pattern(pre, n, mid + ("**/" + rest)), pre + Below(mid, rest))
  {
    var q, s := mid + ("**/" + rest), pre + Below(mid, rest);
    LiteralHead(pre, Run(n) + q, s);
    assert s[|pre|..] == Below(mid, rest);
    if Match(Run(n) + q, Below(mid, rest)) { RunNeedsRoom(n, mid, rest, Below(mid, rest)); }
  }

  lemma DroppedRunMisses(pre: string, mid: string, rest: string, form: string)
    requires Literal(pre) && mid != "" && Literal(mid) && form in Expand(pre + mid + ("**/" + rest))
    ensures !Match(form, pre + Below(mid, rest))
  {
    var head, s := pre + mid, pre + Below(mid, rest);
    HeadStays(head, head + ("**/" + rest), form);
    LiteralHead(head, form[|head|..], s);
    assert form == head + form[|head|..];
    assert s[|pre|] != mid[0] && head[|pre|] == mid[0];
  }

  lemma BelowIsMissed(pre: string, n: nat, mid: string, rest: string, form: string)
    requires Literal(pre) && EndsSegment(pre, true) && mid != "" && Literal(mid)
    requires form in Expand(Pattern(pre, n, mid + ("**/" + rest)))
    ensures !Match(form, pre + Below(mid, rest))
  {
    var q := mid + ("**/" + rest);
    LiteralHasNone(pre);
    FormsOfRun(pre, n, q, form);
    if i :| 0 < i <= n && form == Pattern(pre, i, q) {
      RunMisses(pre, i, mid, rest);
    } else {
      assert Pattern(pre, 0, q) == pre + mid + ("**/" + rest);
      DroppedRunMisses(pre, mid, rest, form);
    }
  }

  lemma LiteralHasNone(s: string)
    requires Literal(s)
    ensures NoneBefore(s, |s|, true)
  {
    forall k: nat | k < |s| ensures !SuperSegment(s, k, true) {
      assert s[k] in s;
    }
  }

  /** For patterns without wildcards before their first run of double-star segments and from
      there to the next one: the stored forms are complete exactly when there is no next one,
      that is, when all double-star segments are adjacent. */
  lemma FormsCompleteExactly(pre: string, n: nat, q: string)
    requires FirstRun(pre, n, q) && Literal(pre)
    requires FirstSegment(q).Some? ==> Literal(q[..FirstSegment(q).value])
    ensures Complete(Pattern(pre, n, q)) <==> FirstSegment(q).None?
  {
    if FirstSegment(q).None? {
      OneRunIsComplete(pre, n, q);
    } else {
      var k := FirstSegment(q).value;
      var mid, rest := q[..k], q[k + 3..];
      CutApart(q);
      var s := pre + Below(mid, rest);
      BelowIsExpected(pre, n, mid, rest);
      forall form | form in Expand(Pattern(pre, n, q)) ensures !Match(form, s) {
        BelowIsMissed(pre, n, mid, rest, form);
      }
      assert DirMatch(Pattern(pre, n, q), s, true) && !Matched(Pattern(pre, n, q), s);
    }
  }

  /** Two segments with wildcard-free text between them lose nothing exactly when there is no
      text between them. */
  lemma TwoSegmentsExactly(pre: string, mid: string, rest: string)
    requires Literal(pre) && EndsSegment(pre, true) && Literal(mid) && EndsSegment(mid, true)
    requires FirstSegment(rest).None?
    ensures Complete(pre + ("**/" + (mid + ("**/" + rest)))) <==> mid == ""
  {
    LiteralHasNone(pre);
    RunOfOne(rest);
    if mid == "" {
      assert !SuperSegment(rest, 0, true);
      RunAhead(1, rest);
      assert mid + ("**/" + rest) == Run(1) + rest;
      FormsCompleteExactly(pre, 2, rest);
    } else {
      LiteralHasNone(mid);
      ApartSegments(pre, mid, rest);
    }
  }

  lemma ApartSegments(pre: string, mid: string, rest: string)
    requires Literal(pre) && EndsSegment(pre, true) && NoneBefore(pre, |pre|, true)
    requires mid != "" && Literal(mid) && EndsSegment(mid, true) && NoneBefore(mid, |mid|, true)
    ensures !Complete(pre + ("**/" + (mid + ("**/" + rest))))
  {
    var q := mid + ("**/" + rest);
    RunOfOne(rest);
    RunOfOne(q);
    DropFromRun(mid, 1, rest);
    assert q[..|mid|] == mid && mid[0] in mid && q[0] == mid[0];
    FormsCompleteExactly(pre, 1, q);
  }

  lemma TwoSegmentExamples()
    ensures Complete("**/**/a") && !Complete("**/a/**/b")
  {
    assert FirstSegment("a").None? && FirstSegment("b").None?;
    TwoSegmentsExactly("", "", "a");
    assert "" + ("**/" + ("" + ("**/" + "a"))) == "**/**/a";
    TwoSegmentsExactly("", "a/", "b");
    assert "" + ("**/" + ("a/" + ("**/" + "b"))) == "**/a/**/b";
  }

  // ---- Lone wildcards ----

  /** No two stars in a row. */
  predicate Lone(p: string) {
    forall i :: 0 <= i < |p| - 1 ==> !(p[i] == '*' && p[i + 1] == '*')
  }

  predicate Directory(d: string) {
    '/' !in d && Lone(d)
  }

  predicate Directories(ds: seq<string>) {
    forall i :: 0 <= i < |ds| ==> Directory(ds[i])
  }

  predicate AllStars(ds: seq<string>) {
    forall i :: 0 <= i < |ds| ==> ds[i] == "*"
  }

  function Slashed(ds: seq<string>): string {
    if ds == [] then "" else ds[0] + ("/" + Slashed(ds[1..]))
  }

  lemma Regrouped(a: string, b: string, c: string)
    ensures a + (b + c) == (a + b) + c && (a + ("/" + b)) + c == a + ("/" + (b + c))
  {
  }

  lemma {:induction false} SlashedIsLone(ds: seq<string>)
    requires Directories(ds)
    ensures Lone(Slashed(ds)) && EndsSegment(Slashed(ds), true) && (ds != [] ==> Slashed(ds) != "")
    ensures NoneBefore(Slashed(ds), |Slashed(ds)|, true)
  {
    if ds != [] {
      SlashedIsLone(ds[1..]);
      LoneBeside(ds[0], Slashed(ds[1..]));
    }
  }

  lemma LoneBeside(a: string, b: string)
    requires Lone(a) && Lone(b) && EndsSegment(b, true)
    ensures Lone(a + ("/" + b)) && EndsSegment(a + ("/" + b), true)
  {
    var p := a + ("/" + b);
    forall i | 0 <= i < |p| - 1 ensures !(p[i] == '*' && p[i + 1] == '*') {
      if i > |a| { assert p[i] == b[i - |a| - 1] && p[i + 1] == b[i - |a|]; }
    }
  }

  lemma DirectoryTail(a: string, w: string)
    requires a != "" && Directory(a)
    ensures var p := a + ("/" + w); p[0] == a[0] != '/' && p[1..] == a[1..] + ("/" + w) && !StartsSuper(p)
    ensures Directory(a[1..]) && !StartsSuper(a)
  {
    var p := a + ("/" + w);
    assert a[0] in a && p[1] == if |a| > 1 then a[1] else '/';
  }

  /** Lone wildcards match directory by directory. */
  lemma {:induction false} OneDirectory(a: string, w: string, b: string, u: string)
    requires Directory(a) && '/' !in b && Match(a + ("/" + w), b + ("/" + u))
    ensures Match(a, b) && Match(w, u)
    decreases |a| + |b|
  {
    var p, s := a + ("/" + w), b + ("/" + u);
    if a == "" {
      assert p[0] == '/' && p[1..] == w && s[0] == '/';
      assert s[1..] == u;
    } else {
      DirectoryTail(a, w);
      if b == "" {
        assert s[0] == '/' && a[0] == '*';
        OneDirectory(a[1..], w, b, u);
      } else {
        assert s[0] == b[0] && s[1..] == b[1..] + ("/" + u);
        if a[0] == '*' && Match(p[1..], s) {
          OneDirectory(a[1..], w, b, u);
        } else if a[0] == '*' {
          OneDirectory(a, w, b[1..], u);
        } else {
          OneDirectory(a[1..], w, b[1..], u);
        }
      }
    }
  }

  lemma {:induction false} LeastOfDirectory(a: string, w: string)
    requires Directory(a)
    ensures '/' !in Least(a) && Least(a + ("/" + w)) == Least(a) + ("/" + Least(w))
  {
    var p := a + ("/" + w);
    if a == "" {
      assert p == "/" + w && p[1..] == w;
    } else {
      DirectoryTail(a, w);
      LeastOfDirectory(a[1..], w);
      Regrouped(if a[0] == '?' then "a" else [a[0]], Least(a[1..]), "/" + Least(w));
    }
  }

  lemma {:induction false} LeastOfDirectories(ds: seq<string>, w: string)
    requires Directories(ds)
    ensures Least(Slashed(ds) + w) == Least(Slashed(ds)) + Least(w)
  {
    if ds == [] {
      assert Slashed(ds) + w == w;
    } else {
      var rest := Slashed(ds[1..]);
      LeastOfDirectory(ds[0], rest);
      LeastOfDirectory(ds[0], rest + w);
      LeastOfDirectories(ds[1..], w);
      Regrouped(ds[0], rest, w);
      Regrouped(Least(ds[0]), Least(rest), Least(w));
    }
  }

  /** The least text of some directories is matched by them alone. */
  lemma {:induction false} LeastIsConsumed(ds: seq<string>, w: string, u: string)
    requires Directories(ds) && Match(Slashed(ds) + w, Least(Slashed(ds)) + u)
    ensures Match(w, u)
  {
    if ds == [] {
      assert Slashed(ds) + w == w && Least(Slashed(ds)) + u == u;
    } else {
      var rest := Slashed(ds[1..]);
      LeastOfDirectory(ds[0], rest);
      Regrouped(ds[0], rest, w);
      Regrouped(Least(ds[0]), Least(rest), u);
      OneDirectory(ds[0], rest + w, Least(ds[0]), Least(rest) + u);
      LeastIsConsumed(ds[1..], w, u);
    }
  }

  lemma {:induction false} LeastOfRun(n: nat, q: string)
    ensures |Least(Run(n) + q)| == n + |Least(q)|
  {
    if n == 0 {
      assert Run(n) + q == q;
    } else {
      RunAhead(n - 1, q);
      LeastOfRun(n - 1, q);
    }
  }

  lemma FirstIsStar(d: string, rest: string, w: string, u: string)
    requires Directory(d) && d != "" && Match((d + ("/" + rest)) + w, "/" + (Least(d + ("/" + rest)) + u))
    ensures d == "*" && Match(rest + w, "/" + (Least(rest) + u))
  {
    var after := Least(d + ("/" + rest)) + u;
    Regrouped(d, rest, w);
    assert "/" + after == "" + ("/" + after);
    OneDirectory(d, rest + w, "", after);
    OnlyStar(d);
    LeastOfDirectory(d, rest);
    Regrouped("", Least(rest), u);
    assert "" + ("/" + (Least(rest) + u)) == "/" + (Least(rest) + u);
  }

  /** Only stars reach the same text with one more slash in front. */
  lemma {:induction false} StarsNeeded(ds: seq<string>, w: string, u: string)
    requires Directories(ds) && "" !in ds && Match(Slashed(ds) + w, "/" + (Least(Slashed(ds)) + u))
    ensures AllStars(ds)
  {
    if ds != [] {
      FirstIsStar(ds[0], Slashed(ds[1..]), w, u);
      StarsNeeded(ds[1..], w, u);
      assert forall i :: 0 < i < |ds| ==> ds[i] == ds[1..][i - 1];
    }
  }

  lemma OnlyStar(a: string)
    requires a != "" && Lone(a) && Match(a, "")
    ensures a == "*" && Least(a) == ""
  {
    assert a[0] == '*' && Match(a[1..], "");
  }

  /** A text that the whole pattern is expected to match: no directory for the second run. */
  function Shortest(pre: seq<string>, mid: seq<string>, rest: string): string {
    Least(Slashed(pre)) + ("/" + (Least(Slashed(mid)) + Least(rest)))
  }

  lemma LeastBehindSuper(m: string, rest: string)
    ensures Least("**" + (("/" + m) + rest)) == "/" + Least(m + rest)
  {
    var tail := ("/" + m) + rest;
    assert ("**" + tail)[2..] == tail && tail == "/" + (m + rest) && tail[1..] == m + rest;
  }

  lemma ShortestIsLeast(pre: seq<string>, mid: seq<string>, rest: string)
    requires Directories(pre) && Directories(mid)
    ensures Least(Slashed(pre) + ("**" + (("/" + Slashed(mid)) + rest))) == Shortest(pre, mid, rest)
  {
    LeastBehindSuper(Slashed(mid), rest);
    LeastOfDirectories(mid, rest);
    LeastOfDirectories(pre, "**" + (("/" + Slashed(mid)) + rest));
  }

  lemma ShortestIsExpected(pre: seq<string>, n: nat, mid: seq<string>, rest: string)
    requires n > 0 && Directories(pre) && Directories(mid) && mid != []
    ensures DirMatch(Pattern(Slashed(pre), n, Slashed(mid) + ("**/" + rest)), Shortest(pre, mid, rest), true)
  {
    var s, head, m := Shortest(pre, mid, rest), Slashed(pre), Slashed(mid);
    var missing := "**" + (("/" + m) + rest);
    ShortestIsLeast(pre, mid, rest);
    LeastMatches(head + missing);
    MatchIsDirMatch(head + missing, s, true);
    SlashedIsLone(pre);
    SlashedIsLone(mid);
    SegmentAfterMid(head, m, rest, s);
    LongerRuns(head, n, m + ("**/" + rest), s);
  }

  lemma RunIsLonger(pre: seq<string>, i: nat, mid: seq<string>, rest: string)
    requires i > 0 && Directories(pre) && Directories(mid)
    ensures !Match(Pattern(Slashed(pre), i, Slashed(mid) + ("**/" + rest)), Shortest(pre, mid, rest))
  {
    var q := Slashed(mid) + ("**/" + rest);
    LeastOfDirectories(pre, Run(i) + q);
    LeastOfRun(i, q);
    LeastOfDirectories(mid, "**/" + rest);
    RunOfOne(rest);
    LeastOfRun(1, rest);
    if Match(Pattern(Slashed(pre), i, q), Shortest(pre, mid, rest)) {
      LeastIsShortest(Pattern(Slashed(pre), i, q), Shortest(pre, mid, rest));
    }
  }

  lemma NoSegmentInHead(head: string, p: string, k: nat)
    requires Lone(head) && EndsSegment(head, true) && head <= p && SuperSegment(p, k, true)
    ensures k >= |head|
  {
    assert forall i :: 0 <= i < |head| ==> p[i] == head[i];
  }

  lemma {:induction false} LoneHeadStays(head: string, p: string, form: string)
    requires Lone(head) && EndsSegment(head, true) && head <= p && form in Expand(p)
    ensures head <= form
    decreases |p|
  {
    if form != p {
      var k := FirstSegment(p).value;
      CutApart(p);
      NoSegmentInHead(head, p, k);
      CutKeepsHead(head, p, k);
      LoneHeadStays(head, WithoutFirst(p).value, form);
    }
  }

  lemma HeadsNeedStars(pre: seq<string>, mid: seq<string>, rest: string, form: string)
    requires Directories(pre) && Directories(mid) && "" !in mid
    requires Slashed(pre) + Slashed(mid) <= form && Match(form, Shortest(pre, mid, rest))
    ensures AllStars(mid)
  {
    var w := form[|Slashed(pre) + Slashed(mid)|..];
    assert form == Slashed(pre) + (Slashed(mid) + w);
    LeastIsConsumed(pre, Slashed(mid) + w, "/" + (Least(Slashed(mid)) + Least(rest)));
    StarsNeeded(mid, w, Least(rest));
  }

  lemma ShortestIsMissed(pre: seq<string>, n: nat, mid: seq<string>, rest: string, form: string)
    requires Directories(pre) && Directories(mid) && mid != [] && "" !in mid && !AllStars(mid)
    requires form in Expand(Pattern(Slashed(pre), n, Slashed(mid) + ("**/" + rest)))
    ensures !Match(form, Shortest(pre, mid, rest))
  {
    var head, q := Slashed(pre), Slashed(mid) + ("**/" + rest);
    SlashedIsLone(pre);
    FormsOfRun(head, n, q, form);
    if i :| 0 < i <= n && form == Pattern(head, i, q) {
      RunIsLonger(pre, i, mid, rest);
    } else {
      assert Pattern(head, 0, q) == head + Slashed(mid) + ("**/" + rest);
      BothAreLone(pre, mid);
      LoneHeadStays(head + Slashed(mid), Pattern(head, 0, q), form);
      if Match(form, Shortest(pre, mid, rest)) { HeadsNeedStars(pre, mid, rest, form); }
    }
  }

  lemma {:induction false} BothAreLone(pre: seq<string>, mid: seq<string>)
    requires Directories(pre) && Directories(mid)
    ensures Lone(Slashed(pre) + Slashed(mid)) && EndsSegment(Slashed(pre) + Slashed(mid), true)
  {
    if pre == [] {
      SlashedIsLone(mid);
      assert Slashed(pre) + Slashed(mid) == Slashed(mid);
    } else {
      BothAreLone(pre[1..], mid);
      LoneBeside(pre[0], Slashed(pre[1..]) + Slashed(mid));
      Regrouped(pre[0], Slashed(pre[1..]), Slashed(mid));
    }
  }

  // ---- Directories of any name commute with a double star ----

  ghost predicate Subsumed(x: string, y: string) {
    forall u :: Match(x, u) ==> Match(y, u)
  }

  lemma {:induction false} SubsumedAfter(pre: string, x: string, y: string, s: string)
    requires EndsSegment(pre, true) && Subsumed(x, y) && Match(pre + x, s)
    ensures Match(pre + y, s)
    decreases |pre| + |s|
  {
    if pre == "" {
      assert pre + x == x && pre + y == y;
    } else {
      Tails(pre, x);
      Tails(pre, y);
      if StartsSuper(pre) {
        if Match(pre[2..] + x, s) { SubsumedAfter(pre[2..], x, y, s); } else { SubsumedAfter(pre, x, y, s[1..]); }
      } else if pre[0] == '*' {
        if Match(pre[1..] + x, s) { SubsumedAfter(pre[1..], x, y, s); } else { SubsumedAfter(pre, x, y, s[1..]); }
      } else {
        SubsumedAfter(pre[1..], x, y, s[1..]);
      }
    }
  }

  /** A double star leaves a slash with the rest after it, a star before a slash the next slash. */
  lemma SlashAfterSuper(w: string, u: string) returns (k: nat)
    requires Match("**/" + w, u)
    ensures k < |u| && u[k] == '/' && Match(w, u[k + 1..])
  {
    var outer := "/" + w;
    assert "**/" + w == "**" + outer && outer[1..] == w;
    SuperConsumesAnyPrefix(outer, u);
    k :| 0 <= k <= |u| && Match(outer, u[k..]);
    assert u[k..][1..] == u[k + 1..];
  }

  lemma SlashAfterStar(w: string, u: string) returns (i: nat)
    requires Match("*/" + w, u)
    ensures i < |u| && u[i] == '/' && Match(w, u[i + 1..])
  {
    var inner := "/" + w;
    assert "*/" + w == "*" + inner && inner[1..] == w;
    StarConsumesWithinSegment(inner, u);
    i :| 0 <= i <= |u| && StarSplit(inner, u, i);
    assert u[i..][1..] == u[i + 1..];
  }

  lemma TwoSlashes(w: string, u: string) returns (k: nat, j: nat)
    requires Match("**/" + ("*/" + w), u)
    ensures k < j < |u| && u[k] == '/' && u[j] == '/' && Match(w, u[j + 1..])
  {
    k := SlashAfterSuper("*/" + w, u);
    var i := SlashAfterStar(w, u[k + 1..]);
    j := k + 1 + i;
    assert u[k + 1..][i + 1..] == u[j + 1..];
  }

  lemma FirstSlash(u: string, k: nat) returns (f: nat)
    requires k < |u| && u[k] == '/'
    ensures f <= k && u[f] == '/' && '/' !in u[..f]
  {
    f := 0;
    while u[f] != '/'
      invariant f <= k && '/' !in u[..f]
      decreases k - f
    {
      assert u[..f + 1] == u[..f] + [u[f]];
      f := f + 1;
    }
  }

  lemma StarFirst(w: string, u: string)
    requires Match("**/" + ("*/" + w), u)
    ensures Match("*/" + ("**/" + w), u)
  {
    var k, j := TwoSlashes(w, u);
    var f := FirstSlash(u, k);
    var below, tail, v := "/" + w, "/" + ("**/" + w), u[f + 1..];
    assert "**/" + w == "**" + below && tail[1..] == "**/" + w && "*/" + ("**/" + w) == "*" + tail;
    assert v[j - f - 1..] == u[j..] && u[j..][1..] == u[j + 1..] && below[1..] == w;
    SuperConsumesAnyPrefix(below, v);
    assert u[f..][1..] == v;
    assert StarSplit(tail, u, f);
    StarConsumesWithinSegment(tail, u);
  }

  lemma StarAhead(x: string, y: string)
    requires Subsumed("**/" + x, y)
    ensures Subsumed("**/" + ("*/" + x), "*/" + y)
  {
    forall u | Match("**/" + ("*/" + x), u) ensures Match("*/" + y, u) {
      StarFirst(x, u);
      SubsumedAfter("*/", "**/" + x, y, u);
    }
  }

  lemma StarDirectory(d: string, rest: string, w: string)
    requires d == "*"
    ensures (d + ("/" + rest)) + w == "*/" + (rest + w)
  {
  }

  lemma {:induction false} StarsFirst(ds: seq<string>, w: string)
    requires AllStars(ds)
    ensures Subsumed("**/" + (Slashed(ds) + w), Slashed(ds) + ("**/" + w))
  {
    if ds == [] {
      assert Slashed(ds) + w == w && Slashed(ds) + ("**/" + w) == "**/" + w;
    } else {
      var rest := Slashed(ds[1..]);
      StarsFirst(ds[1..], w);
      StarDirectory(ds[0], rest, w);
      StarDirectory(ds[0], rest, "**/" + w);
      StarAhead(rest + w, rest + ("**/" + w));
    }
  }

  lemma {:induction false} LastOfRun(n: nat, x: string)
    ensures Run(n + 1) + x == Run(n) + ("**/" + x) && EndsSegment(Run(n), true)
  {
    if n > 0 {
      LastOfRun(n - 1, x);
      assert Run(n + 1) + x == "**/" + (Run(n) + x);
      assert Run(n)[|Run(n)| - 1] == '/' by {
        if n > 1 { RunLength(n - 1); assert Run(n)[|Run(n)| - 1] == Run(n - 1)[|Run(n - 1)| - 1]; }
      }
    }
  }

  /** The last double star of a run may as well stand behind directories of any name. */
  lemma LastMovesBehind(pre: string, i: nat, mid: seq<string>, rest: string, s: string)
    requires EndsSegment(pre, true) && i > 0 && AllStars(mid) && Match(Pattern(pre, i, Slashed(mid) + rest), s)
    ensures Match(Pattern(pre, i - 1, Slashed(mid) + ("**/" + rest)), s)
  {
    var x, y, head := "**/" + (Slashed(mid) + rest), Slashed(mid) + ("**/" + rest), pre + Run(i - 1);
    LastOfRun(i - 1, Slashed(mid) + rest);
    StarsFirst(mid, rest);
    Regrouped(pre, Run(i - 1), x);
    Moved(pre, i - 1, Slashed(mid), "**/" + rest);
    assert EndsSegment(head, true) by {
      if Run(i - 1) == "" { assert head == pre; } else { assert head[|head| - 1] == Run(i - 1)[|Run(i - 1)| - 1]; }
    }
    SubsumedAfter(head, x, y, s);
  }

  lemma {:induction false} DroppedRunForms(pre: string, n: nat, q: string, form: string)
    requires EndsSegment(pre, true) && NoneBefore(pre, |pre|, true) && q != "" && form in Expand(Pattern(pre, 0, q))
    ensures form in Expand(Pattern(pre, n, q))
  {
    if n > 0 {
      DropFromRun(pre, n, q);
      DroppedRunForms(pre, n - 1, q, form);
    }
  }

  /** What follows the first run, read plainly: with its own double star or without. */
  lemma MidCovers(mid: seq<string>, rest: string)
    requires Directories(mid) && mid != [] && FirstSegment(rest).None?
    ensures Covers(Slashed(mid) + ("**/" + rest), [Slashed(mid) + ("**/" + rest), Slashed(mid) + rest])
  {
    var m := Slashed(mid);
    var q, plain := m + ("**/" + rest), [m + ("**/" + rest), m + rest];
    SlashedIsLone(mid);
    PlainCovers(rest);
    RunOfOne(rest);
    assert Pattern(m, 1, rest) == q && Pattern(m, 0, rest) == m + rest;
    LoneHasNone(m, "**/" + rest);
    forall s, starts | DirMatch(q, s, starts) ensures exists a :: a in plain && Match(a, s) {
      var i, a := PrefixedRunIsComplete(m, 1, rest, [rest], s, starts);
      assert Pattern(m, i, a) in plain;
    }
  }

  lemma LoneHasNone(head: string, tail: string)
    requires Lone(head) && EndsSegment(head, true)
    ensures forall starts :: NoneBefore(head + tail, |head|, starts)
  {
    var p := head + tail;
    forall starts, k: nat | k < |head| ensures !SuperSegment(p, k, starts) {
      if k + 1 < |head| { assert p[k] == head[k] && p[k + 1] == head[k + 1]; }
    }
  }

  lemma StarsLoseNothing(pre: seq<string>, n: nat, mid: seq<string>, rest: string, s: string)
    requires n > 0 && Directories(pre) && mid != [] && AllStars(mid) && FirstSegment(rest).None?
    requires DirMatch(Pattern(Slashed(pre), n, Slashed(mid) + ("**/" + rest)), s, true)
    ensures Matched(Pattern(Slashed(pre), n, Slashed(mid) + ("**/" + rest)), s)
  {
    var head, q, shorter := Slashed(pre), Slashed(mid) + ("**/" + rest), Slashed(mid) + rest;
    SlashedIsLone(pre);
    assert Directories(mid);
    MidCovers(mid, rest);
    HeadHasNone(head, Run(n) + q);
    var i, a := PrefixedRunIsComplete(head, n, q, [q, shorter], s, true);
    if a == shorter && i == 0 {
      WithoutBoth(pre, n, mid, rest);
    } else {
      if a == shorter { LastMovesBehind(head, i, mid, rest, s); }
      ShorterRunsAreForms(head, n, q, if a == shorter then i - 1 else i);
    }
  }

  lemma WithoutBoth(pre: seq<string>, n: nat, mid: seq<string>, rest: string)
    requires Directories(pre) && Directories(mid) && mid != []
    ensures Pattern(Slashed(pre), 0, Slashed(mid) + rest)
         in Expand(Pattern(Slashed(pre), n, Slashed(mid) + ("**/" + rest)))
  {
    var head, q := Slashed(pre), Slashed(mid) + ("**/" + rest);
    var both := head + Slashed(mid);
    SlashedIsLone(pre);
    SlashedIsLone(mid);
    BothAreLone(pre, mid);
    LoneHasNone(both, "");
    assert both + "" == both;
    RunOfOne(rest);
    Moved(head, 0, Slashed(mid), "**/" + rest);
    Moved(head, 0, Slashed(mid), rest);
    ShorterRunsAreForms(both, 1, rest, 0);
    DroppedRunForms(head, n, q, Pattern(both, 0, rest));
  }

  lemma Moved(pre: string, i: nat, mid: string, rest: string)
    ensures Pattern(pre, i, mid + rest) == (pre + Run(i)) + (mid + rest)
    ensures i == 0 ==> Pattern(pre, i, mid + rest) == (pre + mid) + rest == Pattern(pre + mid, 0, rest)
  {
  }

  /** With no wildcards but `?` and lone stars up to the second run, two runs lose nothing
      exactly when every directory between them may have any name; further runs never make
      up for a named one. */
  lemma LoneWildcardsExactly(pre: seq<string>, n: nat, mid: seq<string>, rest: string)
    requires n > 0 && Directories(pre) && Directories(mid) && mid != [] && "" !in mid
    ensures var complete := Complete(Pattern(Slashed(pre), n, Slashed(mid) + ("**/" + rest)));
      (complete ==> AllStars(mid)) && (FirstSegment(rest).None? && AllStars(mid) ==> complete)
  {
    var p := Pattern(Slashed(pre), n, Slashed(mid) + ("**/" + rest));
    if AllStars(mid) && FirstSegment(rest).None? {
      forall s | s != "" ensures DirMatch(p, s, true) <==> Matched(p, s) {
        if form :| form in Expand(p) && Match(form, s) { FormsAreSound(p, form, s); }
        if DirMatch(p, s, true) { StarsLoseNothing(pre, n, mid, rest, s); }
      }
    } else if !AllStars(mid) {
      var s := Shortest(pre, mid, rest);
      ShortestIsExpected(pre, n, mid, rest);
      forall form | form in Expand(p) ensures !Match(form, s) { ShortestIsMissed(pre, n, mid, rest, form); }
      assert DirMatch(p, s, true) && !Matched(p, s);
    }
  }

  // ---- Placing globs under the anchor ----

  /** One glob of the skill as a pattern of the repository, or nothing when it points
      outside the owning directory. */
  function Place(anchor: string, raw: string): Option<string> {
    var glob := HostToSlash(TrimSpace(raw));
    if glob == "" then None
    else if anchor == "" then Some(glob)
    else if glob == "**" || glob == "**/**" then Some(anchor + "/**")
    else if "**/" <= glob then Some(anchor + "/" + glob)
    else if glob == anchor || anchor + "/" <= glob then Some(glob)
    else None
  }

  function Qualify(anchor: string, globs: seq<string>): seq<string> {
    if globs == [] then []
    else
      var before := Qualify(anchor, globs[..|globs| - 1]);
      match Place(anchor, globs[|globs| - 1])
      case None => before
      case Some(glob) => AppendNew(before, Expand(glob))
  }

  /** Adds the forms of one glob; `seen` holds what is there. */
  method AddForms(out: seq<string>, seen: set<string>, forms: seq<string>) returns (r: seq<string>, now: set<string>)
    requires seen == Elements(out)
    ensures r == AppendNew(out, forms) && now == Elements(r)
  {
    r, now := out, seen;
    for j := 0 to |forms|
      invariant now == Elements(r) && AppendNew(out, forms) == AppendNew(r, forms[j..])
    {
      if forms[j] != "" && forms[j] !in now {
        now := now + {forms[j]};
        r := r + [forms[j]];
      }
    }
  }

  method QualifyAgentGlobs(anchor: string, globs: seq<string>) returns (out: seq<string>)
    ensures out == Qualify(anchor, globs)
  {
    out := [];
    var seen: set<string> := {};
    for i := 0 to |globs|
      invariant out == Qualify(anchor, globs[..i]) && seen == Elements(out)
    {
      assert globs[..i + 1][..i] == globs[..i];
      var placed := Place(anchor, globs[i]);
      if placed.Some? {
        var forms := ExpandEmptyDoubleStar(placed.value);
        out, seen := AddForms(out, seen, forms);
      }
    }
    assert globs[..|globs|] == globs;
  }

  /** Without globs a skill applies everywhere, or everywhere below its anchor. */
  function ScopesFor(rel: string, globs: seq<string>): seq<string> {
    var anchor := match Anchor(rel) case None => "" case Some(a) => a;
    if globs != [] then Qualify(anchor, globs)
    else if anchor == "" then ["**"] else [anchor + "/**"]
  }

  predicate Within(anchor: string, path: string) {
    path == anchor || anchor + "/" <= path
  }

  lemma StarIsBehindAnchor(anchor: string, p: string, k: nat)
    requires Literal(anchor) && Within(anchor, p) && k < |p| && p[k] == '*'
    ensures k > |anchor| && anchor + "/" <= p
  {
    assert forall i :: 0 <= i < |anchor| ==> p[i] == anchor[i] && anchor[i] in anchor;
  }

  lemma {:induction false} FormsStayWithin(anchor: string, p: string, form: string)
    requires anchor != "" && Literal(anchor) && Within(anchor, p) && form in Expand(p)
    ensures Within(anchor, form)
    decreases |p|
  {
    if form != p {
      var k := FirstSegment(p).value;
      CutApart(p);
      StarIsBehindAnchor(anchor, p, k);
      CutKeepsHead(anchor + "/", p, k);
      FormsStayWithin(anchor, WithoutFirst(p).value, form);
    }
  }

  lemma {:induction false} QualifiedStaysWithin(anchor: string, globs: seq<string>, scope: string)
    requires anchor != "" && Literal(anchor) && scope in Qualify(anchor, globs)
    ensures Within(anchor, scope)
  {
    var before := Qualify(anchor, globs[..|globs| - 1]);
    var placed := Place(anchor, globs[|globs| - 1]);
    if scope in before {
      QualifiedStaysWithin(anchor, globs[..|globs| - 1], scope);
    } else {
      assert scope in Elements(AppendNew(before, Expand(placed.value)));
      FormsStayWithin(anchor, placed.value, scope);
    }
  }

  /** Below a wildcard-free anchor, no scope of the skill matches a path outside it. */
  lemma ScopesMatchOnlyWithinAnchor(anchor: string, globs: seq<string>, scope: string, path: string)
    requires anchor != "" && Literal(anchor) && scope in Qualify(anchor, globs) && Match(scope, path)
    ensures Within(anchor, path)
  {
    QualifiedStaysWithin(anchor, globs, scope);
    if scope == anchor {
      LiteralMatchesItself(anchor, path);
    } else {
      LiteralHead(anchor + "/", scope[|anchor| + 1..], path);
      assert scope == anchor + "/" + scope[|anchor| + 1..];
    }
  }

  /** Where a glob ends up, by what it matches: below a wildcard-free anchor, `**` reaches what
      lies below the anchor, a glob that starts with a double-star segment reaches below the
      anchor what it reached before, a glob within the anchor stays as it is, and any other is
      dropped; without an anchor every glob stays as it is. */
  lemma PlacedExactly(anchor: string, raw: string, q: string)
    requires Literal(anchor)
    ensures var glob, placed, top := HostToSlash(TrimSpace(raw)), Place(anchor, raw), anchor + "/";
      && (glob == "" ==> placed == None)
      && (anchor == "" && glob != "" ==> placed == Some(glob))
      && (anchor != "" && glob in {"**", "**/**"} ==> placed.Some? && (Match(placed.value, q) <==> top <= q))
      && (anchor != "" && "**/" <= glob != "**/**" ==>
        placed.Some? && (Match(placed.value, q) <==> top <= q && Match(glob, q[|top|..])))
      && (anchor != "" && glob !in {"", "**"} && !("**/" <= glob) ==>
        (placed.Some? <==> Within(anchor, glob)) && (placed.Some? ==> placed.value == glob))
  {
    var glob, top := HostToSlash(TrimSpace(raw)), anchor + "/";
    LiteralHead(top, "**", q);
    LiteralHead(top, glob, q);
    if top <= q { SuperMatchesAll(q[|top|..]); }
    assert anchor + "/**" == top + "**";
  }

  /** The scopes are the nonempty forms of the placed globs, each once. */
  lemma {:induction false} QualifiedExactly(anchor: string, globs: seq<string>)
    ensures forall s :: s in Qualify(anchor, globs) <==>
      s != "" && exists raw :: raw in globs && Place(anchor, raw).Some? && s in Expand(Place(anchor, raw).value)
    ensures Distinct(Qualify(anchor, globs))
  {
    if globs != [] {
      var n := |globs| - 1;
      QualifiedExactly(anchor, globs[..n]);
      assert forall raw :: raw in globs <==> raw in globs[..n] || raw == globs[n];
      var all := Qualify(anchor, globs);
      assert forall s :: s in all <==> s in Elements(all);
      assert forall s :: s in Qualify(anchor, globs[..n]) <==> s in Elements(Qualify(anchor, globs[..n]));
      if Place(anchor, globs[n]).Some? {
        var forms := Expand(Place(anchor, globs[n]).value);
        assert forall s :: s in forms <==> s in Elements(forms);
      }
    }
  }

  /** The globs a skill states are placed under its anchor; without globs it applies everywhere,
      or everywhere below its wildcard-free anchor. */
  lemma DefaultScopeReaches(rel: string, q: string)
    requires Anchor(rel).Some? ==> Literal(Anchor(rel).value)
    ensures forall globs :: globs != [] ==>
      ScopesFor(rel, globs) == Qualify(if Anchor(rel).Some? then Anchor(rel).value else "", globs)
    ensures |ScopesFor(rel, [])| == 1
    ensures Match(ScopesFor(rel, [])[0], q) <==>
      Anchor(rel) in {None, Some("")} || Anchor(rel).value + "/" <= q
  {
    SuperMatchesAll(q);
    if Anchor(rel).Some? {
      var top := Anchor(rel).value + "/";
      LiteralHead(top, "**", q);
      if top <= q { SuperMatchesAll(q[|top|..]); }
      assert Anchor(rel).value + "/**" == top + "**";
    }
  }

  /** A wildcard-free glob is dropped exactly when it matches nothing within the anchor. */
  lemma LiteralGlobsKept(anchor: string, raw: string)
    requires anchor != "" && Literal(HostToSlash(TrimSpace(raw)))
    ensures Place(anchor, raw).Some? <==>
      exists path :: Within(anchor, path) && Match(HostToSlash(TrimSpace(raw)), path)
  {
    var glob := HostToSlash(TrimSpace(raw));
    forall path ensures Match(glob, path) <==> glob == path {
      LiteralMatchesItself(glob, path);
    }
    assert !("**/" <= glob) && glob != "**" by {
      if |glob| > 1 { assert glob[0] in glob; }
    }
    if Place(anchor, raw).Some? { assert Within(anchor, glob); }
  }
}
