/** Headings of a skill document: the scanner that lists them with their ids, and the scanner
    that cuts out the section an id names. */
module Sections {
  import opened Strings
  import opened Order

  datatype Heading = Heading(level: nat, title: string)
  datatype Section = Section(id: string, title: string, level: nat)

  // ---- One line ----

  predicate IsBlank(c: char) {
    c == ' ' || c == '\t'
  }

  function LeadingHashes(line: string): (n: nat)
    ensures n <= |line| && (forall i :: 0 <= i < n ==> line[i] == '#') && (n < |line| ==> line[n] != '#')
  {
    if line == "" || line[0] != '#' then 0 else 1 + LeadingHashes(line[1..])
  }

  function LeadingBlanks(s: string): (n: nat)
    ensures n <= |s| && (forall i :: 0 <= i < n ==> IsBlank(s[i])) && (n < |s| ==> !IsBlank(s[n]))
  {
    if s == "" || !IsBlank(s[0]) then 0 else 1 + LeadingBlanks(s[1..])
  }

  /** Blanks, closing hashes, blanks, and nothing else. */
  predicate ClosesHeading(s: string) {
    var afterBlanks := s[LeadingBlanks(s)..];
    var afterHashes := afterBlanks[LeadingHashes(afterBlanks)..];
    LeadingBlanks(afterHashes) == |afterHashes|
  }

  /** The shortest title of at least `n` characters that only a closing follows. */
  function TitleLength(s: string, n: nat): (r: nat)
    requires n <= |s|
    ensures n <= r <= |s|
    decreases |s| - n
  {
    if n == |s| || ClosesHeading(s[n..]) then n else TitleLength(s, n + 1)
  }

  /** One to six hashes, blanks, a title, an optional closing. A title of blanks only keeps
      its last blank. */
  function HeadingOf(line: string): Option<Heading> {
    var level := LeadingHashes(line);
    var rest := line[level..];
    var blanks := LeadingBlanks(rest);
    if level < 1 || level > 6 || blanks == 0 || |rest| < 2 then None
    else
      var text := if blanks == |rest| then rest[blanks - 1..] else rest[blanks..];
      Some(Heading(level, TrimSpace(text[..TitleLength(text, 1)])))
  }

  lemma {:induction false} TitleEnds(title: string, closing: string, n: nat)
    requires n <= |title| && ClosesHeading(closing)
    requires title != "" ==> !IsBlank(title[|title| - 1]) && title[|title| - 1] != '#'
    ensures TitleLength(title + closing, n) == |title|
    decreases |title| - n
  {
    SuffixOf(title, closing, n);
    if n < |title| {
      NotClosedEarly(title[n..], closing);
      TitleEnds(title, closing, n + 1);
    }
  }

  lemma SuffixOf(a: string, b: string, n: nat)
    requires n <= |a|
    ensures (a + b)[n..] == a[n..] + b && (n == |a| ==> (a + b)[n..] == b)
  {
  }

  lemma {:induction false} NotClosedEarly(rest: string, closing: string)
    requires rest != "" && !IsBlank(rest[|rest| - 1]) && rest[|rest| - 1] != '#'
    ensures !ClosesHeading(rest + closing)
  {
    var s := rest + closing;
    assert s[|rest| - 1] == rest[|rest| - 1];
    var b := LeadingBlanks(s);
    var afterBlanks := s[b..];
    assert b < |rest| && afterBlanks[|rest| - 1 - b] == rest[|rest| - 1];
    var h := LeadingHashes(afterBlanks);
    var afterHashes := afterBlanks[h..];
    assert b + h < |rest| && afterHashes[|rest| - 1 - b - h] == rest[|rest| - 1];
  }

  lemma {:induction false} CountHashes(hashes: string, rest: string)
    requires (forall i :: 0 <= i < |hashes| ==> hashes[i] == '#') && (rest == "" || rest[0] != '#')
    ensures LeadingHashes(hashes + rest) == |hashes|
  {
    if hashes == "" {
      assert hashes + rest == rest;
    } else {
      assert (hashes + rest)[1..] == hashes[1..] + rest;
      CountHashes(hashes[1..], rest);
    }
  }

  /** A heading written as hashes, a blank, a title and an optional closing reads back. */
  lemma HeadingReadsBack(hashes: string, title: string, closing: string)
    requires 1 <= |hashes| <= 6 && forall i :: 0 <= i < |hashes| ==> hashes[i] == '#'
    requires title != "" && TrimSpace(title) == title && title[|title| - 1] != '#' && ClosesHeading(closing)
    ensures HeadingOf(hashes + (" " + (title + closing))) == Some(Heading(|hashes|, title))
  {
    var rest := " " + (title + closing);
    CountHashes(hashes, rest);
    assert (hashes + rest)[|hashes|..] == rest && rest[1] == title[0] && rest[1..] == title + closing;
    assert LeadingBlanks(rest) == 1 by { assert LeadingBlanks(rest[1..]) == 0; }
    TitleEnds(title, closing, 1);
    assert (title + closing)[..|title|] == title;
  }

  // ---- The expression, read as a choice of splits ----

  predicate AllBlank(s: string) {
    forall i :: 0 <= i < |s| ==> s[i] in {' ', '\t'}
  }

  predicate AllHashes(s: string) {
    forall i :: 0 <= i < |s| ==> s[i] == '#'
  }

  ghost predicate Closing(s: string) {
    exists i, j :: 0 <= i <= j <= |s| && AllBlank(s[..i]) && AllHashes(s[i..j]) && AllBlank(s[j..])
  }

  /** A title of `n` characters and a closing. */
  ghost predicate SplitsTitle(text: string, n: nat) {
    1 <= n <= |text| && Closing(text[n..])
  }

  /** Before that, `b` blanks. */
  ghost predicate SplitsRest(rest: string, b: nat, n: nat) {
    1 <= b <= |rest| && AllBlank(rest[..b]) && SplitsTitle(rest[b..], n)
  }

  /** Before that, `a` hashes. */
  ghost predicate SplitsAt(line: string, a: nat, b: nat, n: nat) {
    1 <= a <= 6 && a <= |line| && AllHashes(line[..a]) && SplitsRest(line[a..], b, n)
  }

  /** Hashes and blanks are taken greedily, the title is as short as can be. */
  ghost predicate Preferred(line: string, a: nat, b: nat, n: nat) {
    && SplitsAt(line, a, b, n)
    && forall c: nat, d: nat, m: nat :: SplitsAt(line, c, d, m) ==> c == a && d <= b && (d == b ==> n <= m)
  }

  lemma {:induction false} CountBlanks(blanks: string, rest: string)
    requires AllBlank(blanks) && (rest == "" || !IsBlank(rest[0]))
    ensures LeadingBlanks(blanks + rest) == |blanks|
  {
    if blanks == "" {
      assert blanks + rest == rest;
    } else {
      assert (blanks + rest)[1..] == blanks[1..] + rest;
      CountBlanks(blanks[1..], rest);
    }
  }

  lemma ClosingParts(b: string, h: string, r: string)
    requires AllBlank(b) && AllHashes(h) && AllBlank(r)
    ensures ClosesHeading(b + (h + r))
  {
    CountBlanks(r, "");
    assert r + "" == r && (b + (h + r))[|b|..] == h + r && (h + r)[|h|..] == r;
    if h == "" {
      CountBlanks(b + r, "");
      assert b + (h + r) == (b + r) + "" && (b + r)[|b + r|..] == "";
    } else {
      CountBlanks(b, h + r);
      CountHashes(h, r);
    }
  }

  lemma Leading(s: string)
    ensures AllBlank(s[..LeadingBlanks(s)]) && AllHashes(s[..LeadingHashes(s)])
  {
  }

  lemma Slices(s: string, i: nat, j: nat)
    requires i + j <= |s|
    ensures s[i..][j..] == s[i + j..] && s[i..][..j] == s[i..i + j]
  {
  }

  lemma ClosingExactly(s: string)
    ensures ClosesHeading(s) <==> Closing(s)
  {
    if ClosesHeading(s) { ClosingOf(s); }
    if i, j :| 0 <= i <= j <= |s| && AllBlank(s[..i]) && AllHashes(s[i..j]) && AllBlank(s[j..]) {
      ClosingFrom(s, i, j);
    }
  }

  lemma ClosingFrom(s: string, i: nat, j: nat)
    requires i <= j <= |s| && AllBlank(s[..i]) && AllHashes(s[i..j]) && AllBlank(s[j..])
    ensures ClosesHeading(s)
  {
    var b, h, r := s[..i], s[i..j], s[j..];
    ClosingParts(b, h, r);
    assert s == b + (h + r);
  }

  lemma ClosingOf(s: string)
    requires ClosesHeading(s)
    ensures Closing(s)
  {
    var b := LeadingBlanks(s);
    var h := LeadingHashes(s[b..]);
    Leading(s);
    Leading(s[b..]);
    Leading(s[b..][h..]);
    Slices(s, b, h);
    var rest := s[b + h..];
    assert rest[..|rest|] == rest;
    assert 0 <= b <= b + h <= |s| && AllBlank(s[..b]) && AllHashes(s[b..b + h]) && AllBlank(s[b + h..]);
  }

  lemma {:induction false} TitleCloses(s: string, n: nat)
    requires n <= |s| && TitleLength(s, n) < |s|
    ensures ClosesHeading(s[TitleLength(s, n)..])
    decreases |s| - n
  {
    if !ClosesHeading(s[n..]) { TitleCloses(s, n + 1); }
  }

  lemma {:induction false} NotClosedBefore(s: string, n: nat, m: nat)
    requires n <= m < |s| && m < TitleLength(s, n)
    ensures !ClosesHeading(s[m..])
    decreases m - n
  {
    if m > n { NotClosedBefore(s, n + 1, m); }
  }

  lemma TitleTaken(text: string, m: nat)
    requires text != ""
    ensures SplitsTitle(text, TitleLength(text, 1))
    ensures SplitsTitle(text, m) ==> TitleLength(text, 1) <= m
  {
    var n := TitleLength(text, 1);
    if n < |text| { TitleCloses(text, 1); } else { assert text[n..] == ""; }
    EmptyCloses();
    ClosingExactly(text[n..]);
    if SplitsTitle(text, m) && m < n {
      ClosingExactly(text[m..]);
      NotClosedBefore(text, 1, m);
    }
  }

  lemma EmptyCloses()
    ensures ClosesHeading("")
  {
  }

  /** How many blanks the expression can take: all of them, but one character is left. */
  function BlanksTaken(rest: string): (b: nat)
    requires rest != ""
    ensures b < |rest|
  {
    if LeadingBlanks(rest) == |rest| then |rest| - 1 else LeadingBlanks(rest)
  }

  lemma MostBlanks(rest: string, d: nat)
    requires d < |rest|
    ensures AllBlank(rest[..d]) <==> d <= BlanksTaken(rest)
  {
    assert forall i :: 0 <= i < d ==> rest[..d][i] == rest[i];
  }

  lemma RestTaken(rest: string, d: nat, m: nat)
    requires rest != ""
    ensures var b := BlanksTaken(rest); var n := TitleLength(rest[b..], 1);
      && (b >= 1 ==> SplitsRest(rest, b, n))
      && (SplitsRest(rest, d, m) ==> 1 <= d <= b && (d == b ==> n <= m))
  {
    var b := BlanksTaken(rest);
    MostBlanks(rest, b);
    TitleTaken(rest[b..], m);
    if SplitsRest(rest, d, m) { MostBlanks(rest, d); }
  }

  lemma HashesTaken(line: string, c: nat)
    requires c < |line| && AllHashes(line[..c]) && line[c] != '#'
    ensures c == LeadingHashes(line)
  {
    assert forall i :: 0 <= i < c ==> line[i] == line[..c][i];
  }

  lemma AllHashesTaken(line: string, d: nat, c: nat, m: nat)
    requires SplitsAt(line, c, d, m)
    ensures c == LeadingHashes(line) && c < |line|
  {
    assert line[c] == line[c..][0] == line[c..][..d][0];
    HashesTaken(line, c);
  }

  /** A heading is read exactly when the expression splits the line, and it is read as the
      preferred split says. */
  lemma HeadingExactly(line: string) returns (a: nat, b: nat, n: nat)
    ensures HeadingOf(line).None? <==> forall c: nat, d: nat, m: nat :: !SplitsAt(line, c, d, m)
    ensures HeadingOf(line).Some? ==>
      Preferred(line, a, b, n) && HeadingOf(line).value == Heading(a, TrimSpace(line[a..][b..][..n]))
  {
    a, b, n := LeadingHashes(line), 0, 0;
    var rest := line[a..];
    if rest != "" {
      b := BlanksTaken(rest);
      n := TitleLength(rest[b..], 1);
    }
    forall c: nat, d: nat, m: nat | SplitsAt(line, c, d, m)
      ensures c == a && 1 <= d <= b && (d == b ==> n <= m)
    {
      NoBetterSplit(line, c, d, m);
    }
    if HeadingOf(line).Some? { TakenSplits(line, a, b, n); }
  }

  lemma NoBetterSplit(line: string, c: nat, d: nat, m: nat)
    requires SplitsAt(line, c, d, m)
    ensures c == LeadingHashes(line) && c < |line| && var rest := line[c..]; var b := BlanksTaken(rest);
      1 <= d <= b && (d == b ==> TitleLength(rest[b..], 1) <= m)
  {
    AllHashesTaken(line, d, c, m);
    RestTaken(line[c..], d, m);
  }

  lemma TakenSplits(line: string, a: nat, b: nat, n: nat)
    requires a == LeadingHashes(line) && 1 <= a <= 6 && a < |line| && b == BlanksTaken(line[a..]) && b >= 1
    requires n == TitleLength(line[a..][b..], 1)
    ensures SplitsAt(line, a, b, n)
  {
    Leading(line);
    RestTaken(line[a..], 0, 0);
  }

  predicate IsFence(line: string) {
    var trimmed := TrimSpace(line);
    "```" <= trimmed || "~~~" <= trimmed
  }

  predicate FenceMark(s: string) {
    "```" <= s || "~~~" <= s
  }

  /** A fence is three backquotes or tildes behind nothing but white space. */
  lemma FenceExactly(line: string)
    ensures IsFence(line) <==> exists i :: 0 <= i <= |line| && AllSpaces(line[..i]) && FenceMark(line[i..])
  {
    var front, back := TrimmedAway(line);
    var trimmed := TrimSpace(line);
    var k := |front|;
    assert line[..k] == front && line[k..] == trimmed + back;
    if IsFence(line) { assert FenceMark(line[k..]); }
    if i :| 0 <= i <= |line| && AllSpaces(line[..i]) && FenceMark(line[i..]) {
      var mark := line[i..i + 3];
      assert mark == line[i..][..3];
      assert mark == "```" || mark == "~~~";
      assert line[i] == mark[0] && line[i + 1] == mark[1] && line[i + 2] == mark[2];
      FenceBehind(line, front, trimmed, back, i);
    }
  }

  lemma FenceBehind(line: string, front: string, trimmed: string, back: string, i: nat)
    requires line == front + (trimmed + back) && AllSpaces(front) && AllSpaces(back) && i + 3 <= |line|
    requires AllSpaces(line[..i]) && !IsSpace(line[i]) && !IsSpace(line[i + 1]) && !IsSpace(line[i + 2])
    requires trimmed != "" ==> !IsSpace(trimmed[0])
    ensures |trimmed| >= 3 && trimmed[..3] == line[i..i + 3]
  {
    assert forall j :: 0 <= j < |front| ==> line[j] == front[j];
    assert forall j :: 0 <= j < |trimmed| ==> line[|front| + j] == trimmed[j];
    assert forall j :: |front| + |trimmed| <= j < |line| ==> line[j] == back[j - |front| - |trimmed|];
    assert forall j :: 0 <= j < i ==> line[j] == line[..i][j];
    assert i >= |front|;
    assert i + 2 < |front| + |trimmed|;
    assert i == |front|;
  }

  // ---- Ids ----

  /** Lower case, as far as it can lead into a slug: besides A to Z only the dotted capital I
      and the Kelvin sign have a lower case among a to z. */
  function Lower(c: char): char {
    if 'A' <= c <= 'Z' then c - 'A' + 'a'
    else if c == '\U{130}' then 'i'
    else if c == '\U{212A}' then 'k'
    else c
  }

  predicate InSlug(c: char) {
    'a' <= c <= 'z' || IsDigit(c) || c == '-'
  }

  /** Runs of other characters become one dash; `dash` says whether one was just written. */
  function Dashed(s: string, dash: bool): (r: string)
    ensures forall c :: c in r ==> InSlug(c)
  {
    if s == "" then ""
    else
      var c := Lower(s[0]);
      if InSlug(c) then [c] + Dashed(s[1..], false)
      else if dash then Dashed(s[1..], true)
      else ['-'] + Dashed(s[1..], true)
  }

  function TrimDashes(s: string): (r: string)
    ensures forall c :: c in r ==> c in s
    ensures r != "" ==> r[0] != '-' && r[|r| - 1] != '-'
  {
    if s == "" then ""
    else if s[0] == '-' then TrimDashes(s[1..])
    else if s[|s| - 1] == '-' then TrimDashes(s[..|s| - 1])
    else s
  }

  function SlugOf(title: string): (r: string)
    ensures forall c :: c in r ==> InSlug(c)
    ensures r != "" ==> r[0] != '-' && r[|r| - 1] != '-'
  {
    TrimDashes(Dashed(TrimSpace(title), false))
  }

  // ---- What a slug keeps of a title ----

  predicate InWord(c: char) {
    'a' <= c <= 'z' || IsDigit(c)
  }

  function Lowered(s: string): string {
    seq(|s|, i requires 0 <= i < |s| => LowerCase(s[i]))
  }

  /** The lower case of a character, as far as it has one among the letters a to z. */
  function LowerCase(c: char): char {
    if 'A' <= c <= 'Z' then (c as int + 32) as char
    else match c
      case '\U{130}' => 'i'
      case '\U{212A}' => 'k'
      case _ => c
  }

  /** The runs of letters and digits, after a word that has begun. */
  function Words(s: string, begun: string): seq<string> {
    if s == "" then if begun == "" then [] else [begun]
    else if InWord(s[0]) then Words(s[1..], begun + [s[0]])
    else (if begun == "" then [] else [begun]) + Words(s[1..], "")
  }

  lemma {:induction false} WordsOfDashed(s: string, dash: bool, begun: string)
    requires dash ==> begun == ""
    ensures Words(Dashed(s, dash), begun) == Words(Lowered(s), begun)
    decreases |s|
  {
    if s != "" {
      var c := Lower(s[0]);
      assert Lowered(s)[0] == c && Lowered(s)[1..] == Lowered(s[1..]);
      if InSlug(c) {
        assert ([c] + Dashed(s[1..], false))[1..] == Dashed(s[1..], false);
        WordsOfDashed(s[1..], false, if InWord(c) then begun + [c] else "");
      } else if dash {
        WordsOfDashed(s[1..], true, "");
        assert [] + Words(Lowered(s[1..]), "") == Words(Lowered(s[1..]), "");
      } else {
        assert (['-'] + Dashed(s[1..], true))[1..] == Dashed(s[1..], true);
        WordsOfDashed(s[1..], true, "");
      }
    }
  }

  lemma {:induction false} WordsBeforeGap(s: string, c: char, begun: string)
    requires !InWord(c)
    ensures Words(s + [c], begun) == Words(s, begun)
    decreases |s|
  {
    if s == "" {
      assert s + [c] == [c] && [c][1..] == "" && Words("", "") == [];
    } else {
      assert (s + [c])[0] == s[0] && (s + [c])[1..] == s[1..] + [c];
      WordsBeforeGap(s[1..], c, if InWord(s[0]) then begun + [s[0]] else "");
    }
  }

  lemma WordsAfterGap(c: char, s: string)
    requires !InWord(c)
    ensures Words([c] + s, "") == Words(s, "")
  {
    assert ([c] + s)[1..] == s && [] + Words(s, "") == Words(s, "");
  }

  lemma {:induction false} WordsOfTrimmedDashes(s: string)
    ensures Words(TrimDashes(s), "") == Words(s, "")
    decreases |s|
  {
    if s != "" {
      if s[0] == '-' {
        WordsOfTrimmedDashes(s[1..]);
        WordsAfterGap('-', s[1..]);
        assert s == ['-'] + s[1..];
      } else if s[|s| - 1] == '-' {
        WordsOfTrimmedDashes(s[..|s| - 1]);
        WordsBeforeGap(s[..|s| - 1], '-', "");
        assert s == s[..|s| - 1] + ['-'];
      }
    }
  }

  lemma WordsAfterSpace(s: string)
    requires s != "" && IsSpace(s[0])
    ensures Words(Lowered(s), "") == Words(Lowered(s[1..]), "")
  {
    WordsAfterGap(Lower(s[0]), Lowered(s[1..]));
    assert Lowered(s) == [Lower(s[0])] + Lowered(s[1..]);
  }

  lemma WordsBeforeSpace(s: string, n: nat)
    requires |s| == n + 1 && IsSpace(s[n])
    ensures Words(Lowered(s), "") == Words(Lowered(s[..n]), "")
  {
    WordsBeforeGap(Lowered(s[..n]), Lower(s[n]), "");
    assert Lowered(s) == Lowered(s[..n]) + [Lower(s[n])];
  }

  lemma {:induction false} WordsOfTrimmed(s: string)
    ensures Words(Lowered(TrimSpace(s)), "") == Words(Lowered(s), "")
    decreases |s|
  {
    if s != "" {
      if IsSpace(s[0]) {
        WordsOfTrimmed(s[1..]);
        WordsAfterSpace(s);
      } else if IsSpace(s[|s| - 1]) {
        WordsOfTrimmed(s[..|s| - 1]);
        WordsBeforeSpace(s, |s| - 1);
      }
    }
  }

  /** A slug has the words of its title, in lower case and in order, and nothing but dashes
      between them. */
  lemma SlugKeepsWords(title: string)
    ensures Words(SlugOf(title), "") == Words(Lowered(title), "")
    ensures forall c :: c in SlugOf(title) ==> InWord(c) || c == '-'
  {
    WordsOfTrimmedDashes(Dashed(TrimSpace(title), false));
    WordsOfDashed(TrimSpace(title), false, "");
    WordsOfTrimmed(title);
  }

  method Slug(title: string) returns (r: string)
    ensures r == SlugOf(title)
  {
    var s := TrimSpace(title);
    var b := "";
    var dash := false;
    assert s[0..] == s && "" + Dashed(s, false) == Dashed(s, false);
    for i := 0 to |s|
      invariant b + Dashed(s[i..], dash) == Dashed(s, false)
    {
      assert s[i..][1..] == s[i + 1..];
      var c := Lower(s[i]);
      MoveOne(b, c, Dashed(s[i + 1..], false));
      MoveOne(b, '-', Dashed(s[i + 1..], true));
      if InSlug(c) {
        b := b + [c];
        dash := false;
      } else if !dash {
        b := b + ['-'];
        dash := true;
      }
    }
    assert s[|s|..] == "" && b + "" == b;
    r := TrimDashes(b);
  }

  /** Decimal digits, written backwards into a fixed buffer that holds every int of the program. */
  method FormatInt(n: nat) returns (s: string)
    requires n < 0x8000_0000_0000_0000
    ensures s == Itoa(n)
  {
    IntsFit();
    if n == 0 { return "0"; }
    var b := new char[20];
    var i, left := 20, n;
    ghost var digits := "";
    assert Followed(n, "") == Itoa(n);
    while left > 0
      invariant 0 <= i <= 20 && 0 <= left < Power(i) && b[i..] == digits
      invariant Itoa(n) == Followed(left, digits)
      decreases left
    {
      FollowedStep(left, digits);
      i := i - 1;
      PutDigit(b, i, left % 10, digits);
      digits := [Digit(left % 10)] + digits;
      left := left / 10;
    }
    s := b[i..];
  }

  method PutDigit(b: array<char>, i: nat, d: nat, ghost after: string)
    requires i < b.Length && d < 10 && b[i + 1..] == after
    modifies b
    ensures b[i..] == [Digit(d)] + after
  {
    b[i] := Digit(d);
    assert b[i..] == [b[i]] + b[i + 1..];
  }

  /** The digits of a positive number, or none, before a text. */
  function Followed(n: nat, digits: string): string {
    (if n == 0 then "" else Itoa(n)) + digits
  }

  lemma FollowedStep(n: nat, digits: string)
    requires n > 0
    ensures Followed(n, digits) == Followed(n / 10, [Digit(n % 10)] + digits)
  {
  }

  function Power(n: nat): nat {
    if n == 0 then 1 else 10 * Power(n - 1)
  }

  lemma IntsFit()
    ensures 0x8000_0000_0000_0000 < Power(20)
  {
    assert Power(5) == 100_000;
    assert Power(10) == 100_000 * Power(5);
    assert Power(20) == 10_000_000_000 * Power(10);
  }

  /** The first use of a slug is the slug, later ones are numbered. */
  function Id(base: string, earlier: nat): string {
    if earlier == 0 then base else base + "-" + Itoa(earlier)
  }

  // ---- The headings of a document ----

  /** A written heading is classified by its level, its slug and its title. */
  lemma HeadingLine(hashes: string, title: string, closing: string)
    requires 1 <= |hashes| <= 6 && forall i :: 0 <= i < |hashes| ==> hashes[i] == '#'
    requires title != "" && TrimSpace(title) == title && title[|title| - 1] != '#' && ClosesHeading(closing)
    ensures Classify(hashes + (" " + (title + closing))) == Title(|hashes|, SlugOf(title), title)
  {
    HeadingReadsBack(hashes, title, closing);
    NotAFence(hashes + (" " + (title + closing)));
  }

  lemma NotAFence(line: string)
    requires line != "" && line[0] == '#'
    ensures !IsFence(line)
  {
    TrimKeepsFirst(line);
    assert "```"[0] != '#' && "~~~"[0] != '#';
  }

  lemma {:induction false} TrimKeepsFirst(s: string)
    requires s != "" && !IsSpace(s[0])
    ensures TrimSpace(s) != "" && TrimSpace(s)[0] == s[0]
    decreases |s|
  {
    if IsSpace(s[|s| - 1]) { TrimKeepsFirst(s[..|s| - 1]); }
  }

  /** All a scanner needs to know of a line. */
  datatype Line = Fence | Plain | Title(level: nat, base: string, title: string)

  function Classify(line: string): Line {
    if IsFence(line) then Fence
    else match HeadingOf(line)
      case None => Plain
      case Some(h) => Title(h.level, SlugOf(h.title), h.title)
  }

  function Classified(lines: seq<string>): (kinds: seq<Line>)
    ensures |kinds| == |lines|
  {
    seq(|lines|, i requires 0 <= i < |lines| => Classify(lines[i]))
  }

  method ClassifyLine(line: string) returns (kind: Line)
    ensures kind == Classify(line)
  {
    if IsFence(line) { return Fence; }
    var h := HeadingOf(line);
    if h.None? { return Plain; }
    var base := Slug(h.value.title);
    return Title(h.value.level, base, h.value.title);
  }

  datatype Mark = Mark(line: nat, base: string, level: nat, id: string, title: string)

  /** The heading on line `i`, when `earlier` headings had its slug. */
  function MarkOf(kinds: seq<Line>, i: nat, earlier: nat): Mark
    requires i < |kinds| && kinds[i].Title?
  {
    Mark(i, kinds[i].base, kinds[i].level, Id(kinds[i].base, earlier), kinds[i].title)
  }

  function Count(seen: map<string, nat>, base: string): nat {
    if base in seen then seen[base] else 0
  }

  /** The headings from line `i` on. */
  function Scan(kinds: seq<Line>, i: nat, inFence: bool, seen: map<string, nat>): seq<Mark>
    requires i <= |kinds|
    decreases |kinds| - i
  {
    if i == |kinds| then []
    else if kinds[i].Fence? then Scan(kinds, i + 1, !inFence, seen)
    else if inFence || kinds[i].Plain? then Scan(kinds, i + 1, inFence, seen)
    else
      var base, earlier := kinds[i].base, Count(seen, kinds[i].base);
      [MarkOf(kinds, i, earlier)] + Scan(kinds, i + 1, inFence, seen[base := earlier + 1])
  }

  function Marks(kinds: seq<Line>): seq<Mark> {
    Scan(kinds, 0, false, map[])
  }

  /** An independent account of the headings: a title line outside fences, numbered by the
      earlier headings of the same slug. */
  function Fences(kinds: seq<Line>, i: nat): nat
    requires i <= |kinds|
  {
    if i == 0 then 0
    else if kinds[i - 1].Fence? then Fences(kinds, i - 1) + 1
    else Fences(kinds, i - 1)
  }

  predicate IsHeading(kinds: seq<Line>, i: nat) {
    i < |kinds| && kinds[i].Title? && Fences(kinds, i) % 2 == 0
  }

  function Uses(kinds: seq<Line>, i: nat, base: string): nat
    requires i <= |kinds|
  {
    if i == 0 then 0
    else if IsHeading(kinds, i - 1) && kinds[i - 1].base == base then Uses(kinds, i - 1, base) + 1
    else Uses(kinds, i - 1, base)
  }

  ghost predicate Describes(kinds: seq<Line>, m: Mark) {
    IsHeading(kinds, m.line) && m == MarkOf(kinds, m.line, Uses(kinds, m.line, kinds[m.line].base))
  }

  ghost predicate MarkedAt(marks: seq<Mark>, line: nat) {
    exists k :: 0 <= k < |marks| && marks[k].line == line
  }

  ghost predicate InOrder(marks: seq<Mark>) {
    forall j, k :: 0 <= j < k < |marks| ==> marks[j].line < marks[k].line
  }

  /** The marks are exactly the headings from line `i` on. */
  ghost predicate MarksFrom(kinds: seq<Line>, i: nat, marks: seq<Mark>) {
    && (forall m :: m in marks ==> m.line >= i && Describes(kinds, m))
    && (forall j: nat :: i <= j && IsHeading(kinds, j) ==> MarkedAt(marks, j))
    && InOrder(marks)
  }

  ghost predicate Counts(kinds: seq<Line>, i: nat, seen: map<string, nat>)
    requires i <= |kinds|
  {
    forall b :: Count(seen, b) == Uses(kinds, i, b)
  }

  lemma SkipLine(kinds: seq<Line>, i: nat, seen: map<string, nat>, marks: seq<Mark>)
    requires i < |kinds| && !IsHeading(kinds, i)
    ensures Counts(kinds, i, seen) ==> Counts(kinds, i + 1, seen)
    ensures MarksFrom(kinds, i + 1, marks) ==> MarksFrom(kinds, i, marks)
  {
    forall b ensures Uses(kinds, i + 1, b) == Uses(kinds, i, b) {}
  }

  lemma CountHeading(kinds: seq<Line>, i: nat, seen: map<string, nat>)
    requires i < |kinds| && IsHeading(kinds, i) && Counts(kinds, i, seen)
    ensures Counts(kinds, i + 1, seen[kinds[i].base := Count(seen, kinds[i].base) + 1])
  {
    var later := seen[kinds[i].base := Count(seen, kinds[i].base) + 1];
    forall b ensures Count(later, b) == Uses(kinds, i + 1, b) {
      assert Count(seen, b) == Uses(kinds, i, b);
    }
  }

  lemma MarkHeading(kinds: seq<Line>, i: nat, marks: seq<Mark>)
    requires i < |kinds| && IsHeading(kinds, i) && MarksFrom(kinds, i + 1, marks)
    ensures MarksFrom(kinds, i, [MarkOf(kinds, i, Uses(kinds, i, kinds[i].base))] + marks)
  {
    var m := MarkOf(kinds, i, Uses(kinds, i, kinds[i].base));
    MarkAhead(m, marks);
    assert Describes(kinds, m);
    forall x | x in [m] + marks ensures x.line >= i && Describes(kinds, x) {
      assert x == m || x in marks;
    }
    forall j: nat | i <= j && IsHeading(kinds, j) ensures MarkedAt([m] + marks, j) {
      if j > i { assert MarkedAt(marks, j); }
    }
  }

  lemma {:induction false} ScanExactly(kinds: seq<Line>, i: nat, inFence: bool, seen: map<string, nat>)
    requires i <= |kinds| && inFence == (Fences(kinds, i) % 2 == 1) && Counts(kinds, i, seen)
    ensures MarksFrom(kinds, i, Scan(kinds, i, inFence, seen))
    decreases |kinds| - i
  {
    if i < |kinds| {
      var now := if kinds[i].Fence? then !inFence else inFence;
      if IsHeading(kinds, i) {
        var later := seen[kinds[i].base := Count(seen, kinds[i].base) + 1];
        CountHeading(kinds, i, seen);
        ScanExactly(kinds, i + 1, now, later);
        MarkHeading(kinds, i, Scan(kinds, i + 1, now, later));
      } else {
        SkipLine(kinds, i, seen, Scan(kinds, i + 1, now, seen));
        ScanExactly(kinds, i + 1, now, seen);
      }
    }
  }

  lemma MarkAhead(m: Mark, rest: seq<Mark>)
    requires InOrder(rest) && forall r :: r in rest ==> r.line > m.line
    ensures InOrder([m] + rest) && MarkedAt([m] + rest, m.line)
    ensures forall line :: MarkedAt(rest, line) ==> MarkedAt([m] + rest, line)
  {
    assert ([m] + rest)[0] == m;
    forall line | MarkedAt(rest, line) ensures MarkedAt([m] + rest, line) {
      var k :| 0 <= k < |rest| && rest[k].line == line;
      assert ([m] + rest)[k + 1] == rest[k];
    }
  }

  /** The scan finds exactly the title lines outside fences, in order, with their ids. */
  lemma MarksExactly(kinds: seq<Line>)
    ensures MarksFrom(kinds, 0, Marks(kinds))
  {
    ScanExactly(kinds, 0, false, map[]);
  }

  // ---- Listing ----

  const TITLE_BYTES := 160

  function SectionOf(m: Mark): Section {
    Section(m.id, CompactText(m.title, TITLE_BYTES), m.level)
  }

  /** The bytes of a character in UTF-8. */
  function Width(c: char): nat {
    if c < '\U{80}' then 1 else if c < '\U{800}' then 2 else if c < '\U{10000}' then 3 else 4
  }

  /** UTF-8 (section 3 of RFC 3629): 7, 11, 16 and 21 bits in one to four bytes. */
  lemma WidthExactly(c: char)
    ensures Width(c) == if c as int < 128 then 1 else if c as int < 2048 then 2 else if c as int < 65536 then 3 else 4
  {
  }

  function ByteLength(s: string): nat {
    if s == "" then 0 else Width(s[0]) + ByteLength(s[1..])
  }

  /** As many whole characters from the front as fit. */
  function Fitting(s: string, room: int): (r: string)
    ensures r <= s && (room >= 0 ==> ByteLength(r) <= room)
    ensures |r| < |s| ==> ByteLength(r) + Width(s[|r|]) > room
  {
    if s == "" || Width(s[0]) > room then "" else [s[0]] + Fitting(s[1..], room - Width(s[0]))
  }

  /** A text that is too long is cut between two characters and marked. */
  function CompactText(s: string, limit: nat): string {
    if ByteLength(s) <= limit then s else Fitting(s, limit) + "\U{2026}"
  }

  lemma {:induction false} MoreIsLonger(s: string, m: nat, n: nat)
    requires m <= n <= |s|
    ensures ByteLength(s[..m]) <= ByteLength(s[..n])
    decreases m
  {
    if m > 0 {
      MoreIsLonger(s[1..], m - 1, n - 1);
      assert s[..m][1..] == s[1..][..m - 1] && s[..n][1..] == s[1..][..n - 1];
    }
  }

  lemma {:induction false} OneMoreCharacter(s: string, n: nat)
    requires n < |s|
    ensures ByteLength(s[..n + 1]) == ByteLength(s[..n]) + Width(s[n])
    decreases n
  {
    assert s[..n + 1][1..] == s[1..][..n];
    if n > 0 {
      OneMoreCharacter(s[1..], n - 1);
      assert s[..n][1..] == s[1..][..n - 1];
    }
  }

  /** A text within the limit stays; of any other the most whole characters that fit are kept, and
      an ellipsis follows them. */
  lemma CompactTextExactly(s: string, limit: nat) returns (kept: nat)
    ensures ByteLength(s) <= limit ==> CompactText(s, limit) == s
    ensures ByteLength(s) > limit ==>
      kept <= |s| && CompactText(s, limit) == s[..kept] + "\U{2026}" && ByteLength(s[..kept]) <= limit
      && forall n :: kept < n <= |s| ==> ByteLength(s[..n]) > limit
  {
    var fitting := Fitting(s, limit);
    kept := |fitting|;
    assert s[..kept] == fitting;
    if kept < |s| { OneMoreCharacter(s, kept); }
    forall n | kept < n <= |s| ensures ByteLength(s[..n]) > limit { MoreIsLonger(s, kept + 1, n); }
  }

  function Listed(marks: seq<Mark>, room: nat): seq<Section> {
    if marks == [] || room == 0 then []
    else [SectionOf(marks[0])] + Listed(marks[1..], room - 1)
  }

  lemma {:induction false} ListedAt(marks: seq<Mark>, room: nat, i: nat)
    ensures |Listed(marks, room)| == if |marks| < room then |marks| else room
    ensures i < |Listed(marks, room)| ==> Listed(marks, room)[i] == SectionOf(marks[i])
    decreases |marks|
  {
    if marks != [] && room > 0 { ListedAt(marks[1..], room - 1, if i == 0 then 0 else i - 1); }
  }

  /** At most eight headings are listed. */
  method ListSections(kinds: seq<Line>) returns (out: seq<Section>)
    ensures out == Listed(Marks(kinds), 8)
  {
    out := [];
    var inFence, seen := false, map[];
    for i := 0 to |kinds|
      invariant |out| < 8 && out + Listed(Scan(kinds, i, inFence, seen), 8 - |out|) == Listed(Marks(kinds), 8)
    {
      if kinds[i].Fence? {
        inFence := !inFence;
        continue;
      }
      if inFence || kinds[i].Plain? { continue; }
      var base, earlier := kinds[i].base, Count(seen, kinds[i].base);
      var section := Section(Id(base, earlier), CompactText(kinds[i].title, TITLE_BYTES), kinds[i].level);
      seen := seen[base := earlier + 1];
      MoveOne(out, section, Listed(Scan(kinds, i + 1, inFence, seen), 7 - |out|));
      out := out + [section];
      if |out| == 8 { return; }
    }
  }

  // ---- Selecting ----

  /** A heading whose section holds another heading with the id. */
  ghost predicate Superseded(marks: seq<Mark>, j: nat, id: string) {
    exists m :: j < m < |marks| && marks[m].id == id && Deeper(marks, j, m + 1)
  }

  /** All headings between are below heading `j`. */
  ghost predicate Deeper(marks: seq<Mark>, j: nat, end: nat) {
    j < |marks| && forall x :: j < x < end && x < |marks| ==> marks[x].level > marks[j].level
  }

  /** The first heading with the id whose section holds no other. */
  ghost predicate Chosen(marks: seq<Mark>, k: nat, id: string) {
    && k < |marks| && marks[k].id == id && !Superseded(marks, k, id)
    && forall j :: 0 <= j < k && marks[j].id == id ==> Superseded(marks, j, id)
  }

  /** `end` is the next heading at the same or a shallower level, or the end of the text. */
  ghost predicate SectionEnds(marks: seq<Mark>, k: nat, lines: nat, end: nat) {
    && k < |marks|
    && ((end == lines && Deeper(marks, k, |marks|))
        || exists m :: (k < m < |marks| && marks[m].line == end && marks[m].level <= marks[k].level
                        && Deeper(marks, k, m)))
  }

  /** What the scanner knows after the headings in `done`. */
  ghost predicate Tracks(done: seq<Mark>, start: int, level: nat, id: string) {
    if start < 0 then forall j :: 0 <= j < |done| ==> done[j].id != id
    else exists k :: 0 <= k < |done| && Tracked(done, k, id) && done[k].line == start && done[k].level == level
  }

  ghost predicate Tracked(done: seq<Mark>, k: nat, id: string) {
    && k < |done| && done[k].id == id && Deeper(done, k, |done|)
    && (forall j :: k < j < |done| ==> done[j].id != id)
    && (forall j :: 0 <= j < k && done[j].id == id ==> Superseded(done, j, id))
  }

  lemma SupersededStays(done: seq<Mark>, more: seq<Mark>, j: nat, id: string)
    requires Superseded(done, j, id)
    ensures Superseded(done + more, j, id)
  {
    var m :| j < m < |done| && done[m].id == id && Deeper(done, j, m + 1);
    assert (done + more)[m].id == id && Deeper(done + more, j, m + 1);
  }

  /** A deeper heading: it takes over when it carries the id. */
  lemma TrackDeeper(done: seq<Mark>, k: nat, id: string, next: Mark)
    requires Tracked(done, k, id) && next.level > done[k].level
    ensures Tracked(done + [next], if next.id == id then |done| else k, id)
  {
    var now := done + [next];
    forall j | 0 <= j < k && done[j].id == id ensures Superseded(now, j, id) {
      SupersededStays(done, [next], j, id);
    }
    if next.id == id {
      assert Deeper(now, k, |done| + 1) && now[|done|].id == id;
      assert Superseded(now, k, id);
    }
  }

  /** A heading that ends the section settles the choice. */
  lemma TrackEnds(done: seq<Mark>, k: nat, id: string, next: Mark, rest: seq<Mark>, lines: nat)
    requires Tracked(done, k, id) && next.level <= done[k].level
    ensures Chosen(done + ([next] + rest), k, id) && SectionEnds(done + ([next] + rest), k, lines, next.line)
  {
    var marks := done + ([next] + rest);
    assert marks[|done|] == next && Deeper(marks, k, |done|);
    forall j | 0 <= j < k && marks[j].id == id ensures Superseded(marks, j, id) {
      SupersededStays(done, [next] + rest, j, id);
    }
    forall m | k < m < |marks| && marks[m].id == id ensures !Deeper(marks, k, m + 1) {
      assert m >= |done|;
    }
  }

  lemma TrackedAtEnd(marks: seq<Mark>, k: nat, id: string, lines: nat)
    requires Tracked(marks, k, id)
    ensures Chosen(marks, k, id) && SectionEnds(marks, k, lines, lines)
  {
  }

  /** The lines from the chosen heading to the end of its section. */
  ghost predicate Selected(marks: seq<Mark>, lines: nat, id: string, start: nat, end: nat) {
    exists k: nat :: k < |marks| && Chosen(marks, k, id) && marks[k].line == start && SectionEnds(marks, k, lines, end)
  }

  ghost predicate HasId(marks: seq<Mark>, id: string) {
    exists k :: 0 <= k < |marks| && marks[k].id == id
  }

  /** The selection as a walk over the headings: `first` is the line of the heading taken so
      far, or negative. */
  function Find(marks: seq<Mark>, first: int, level: nat, id: string, lines: nat): (r: (bool, int, int)) {
    if marks == [] then (first >= 0, first, lines)
    else if first >= 0 && marks[0].level <= level then (true, first, marks[0].line)
    else if marks[0].id == id then Find(marks[1..], marks[0].line, marks[0].level, id, lines)
    else Find(marks[1..], first, level, id, lines)
  }

  /** Finds the first line of the section and the first line after it. */
  method FindSection(kinds: seq<Line>, sectionID: string) returns (found: bool, start: int, end: int)
    ensures (found, start, end) == Find(Marks(kinds), -1, 0, sectionID, |kinds|)
  {
    var inFence, seen := false, map[];
    var first, level := -1, 0;
    for i := 0 to |kinds|
      invariant Find(Scan(kinds, i, inFence, seen), first, level, sectionID, |kinds|)
             == Find(Marks(kinds), -1, 0, sectionID, |kinds|)
    {
      if kinds[i].Fence? {
        inFence := !inFence;
        continue;
      }
      if inFence || kinds[i].Plain? { continue; }
      var base, earlier := kinds[i].base, Count(seen, kinds[i].base);
      var id := Id(base, earlier);
      seen := seen[base := earlier + 1];
      var current := kinds[i].level;
      if first >= 0 && current <= level { return true, first, i; }
      if id == sectionID { first, level := i, current; }
    }
    if first >= 0 { return true, first, |kinds|; }
    return false, first, |kinds|;
  }

  /** The walk finds the chosen heading and the end of its section. */
  lemma {:induction false} FindExactly(done: seq<Mark>, rest: seq<Mark>, first: int, level: nat, id: string, lines: nat)
    requires Tracks(done, first, level, id) && InOrder(rest) && first < lines
    requires forall m :: m in rest ==> first < m.line < lines
    ensures var (found, start, end) := Find(rest, first, level, id, lines);
      && (found <==> HasId(done + rest, id))
      && (found ==> 0 <= start <= end <= lines && Selected(done + rest, lines, id, start, end))
    decreases |rest|
  {
    if rest == [] {
      assert done + rest == done;
      if first >= 0 { SettleAtEnd(done, first, level, id, lines); }
    } else {
      assert done + rest == done + ([rest[0]] + rest[1..]) == (done + [rest[0]]) + rest[1..];
      if first >= 0 && rest[0].level <= level {
        SettleAt(done, first, level, id, rest[0], rest[1..], lines);
      } else {
        TrackNext(done, first, level, id, rest[0]);
        if rest[0].id == id { FindExactly(done + [rest[0]], rest[1..], rest[0].line, rest[0].level, id, lines); }
        else { FindExactly(done + [rest[0]], rest[1..], first, level, id, lines); }
      }
    }
  }

  lemma FindInDocument(kinds: seq<Line>, id: string)
    ensures var (found, start, end) := Find(Marks(kinds), -1, 0, id, |kinds|);
      && (found <==> HasId(Marks(kinds), id))
      && (found ==> 0 <= start <= end <= |kinds| && Selected(Marks(kinds), |kinds|, id, start, end))
  {
    MarksExactly(kinds);
    FindExactly([], Marks(kinds), -1, 0, id, |kinds|);
    assert [] + Marks(kinds) == Marks(kinds);
  }

  /** Cuts the section out of the text. */
  method SelectSection(content: string, sectionID: string)
    returns (text: string, found: bool, ghost start: nat, ghost end: nat)
    ensures found <==> HasId(Marks(Classified(Split(content, '\n'))), sectionID)
    ensures var lines := Split(content, '\n');
      found ==> (Selected(Marks(Classified(lines)), |lines|, sectionID, start, end)
        && start <= end <= |lines| && text == Join(lines[start..end], "\n"))
  {
    var lines, kinds := ReadLines(content);
    var first, stop;
    found, first, stop := FindSection(kinds, sectionID);
    FindInDocument(kinds, sectionID);
    start, end, text := 0, 0, "";
    if found {
      start, end := first, stop;
      text := Join(lines[first..stop], "\n");
    }
  }

  lemma SettleAt(done: seq<Mark>, start: int, level: nat, id: string, next: Mark, rest: seq<Mark>, lines: nat)
    requires start >= 0 && Tracks(done, start, level, id) && next.level <= level
    ensures Selected(done + ([next] + rest), lines, id, start, next.line)
    ensures HasId(done + ([next] + rest), id)
  {
    var k :| 0 <= k < |done| && Tracked(done, k, id) && done[k].line == start && done[k].level == level;
    TrackEnds(done, k, id, next, rest, lines);
    assert (done + ([next] + rest))[k] == done[k];
  }

  lemma SettleAtEnd(marks: seq<Mark>, start: int, level: nat, id: string, lines: nat)
    requires start >= 0 && Tracks(marks, start, level, id)
    ensures Selected(marks, lines, id, start, lines)
    ensures HasId(marks, id)
  {
    var k :| 0 <= k < |marks| && Tracked(marks, k, id) && marks[k].line == start && marks[k].level == level;
    TrackedAtEnd(marks, k, id, lines);
  }

  lemma TrackNext(done: seq<Mark>, start: int, level: nat, id: string, next: Mark)
    requires Tracks(done, start, level, id) && (start >= 0 ==> next.level > level)
    ensures if next.id == id then Tracks(done + [next], next.line, next.level, id)
            else Tracks(done + [next], start, level, id)
  {
    var now := done + [next];
    if start >= 0 {
      var k :| 0 <= k < |done| && Tracked(done, k, id) && done[k].line == start && done[k].level == level;
      TrackDeeper(done, k, id, next);
      assert now[k] == done[k];
    } else if next.id == id {
      assert Tracked(now, |done|, id);
    }
    assert now[|done|] == next;
  }

  /** There is one choice at most ... */
  lemma ChosenIsUnique(marks: seq<Mark>, a: nat, b: nat, id: string)
    requires Chosen(marks, a, id) && Chosen(marks, b, id)
    ensures a == b
  {
  }

  /** ... and one for every id, in particular for every id that is listed. */
  lemma {:induction false} ChosenExists(marks: seq<Mark>, from: nat, k: nat, id: string) returns (chosen: nat)
    requires from <= k < |marks| && marks[k].id == id
    requires forall j :: 0 <= j < from && marks[j].id == id ==> Superseded(marks, j, id)
    ensures Chosen(marks, chosen, id)
    decreases |marks| - from
  {
    if marks[from].id == id && !Superseded(marks, from, id) {
      chosen := from;
    } else if from < k {
      chosen := ChosenExists(marks, from + 1, k, id);
    } else {
      var m :| k < m < |marks| && marks[m].id == id && Deeper(marks, k, m + 1);
      chosen := ChosenExists(marks, from + 1, m, id);
    }
  }

  lemma ListedIdsAreFound(kinds: seq<Line>, i: nat) returns (chosen: nat)
    requires i < |Listed(Marks(kinds), 8)|
    ensures Chosen(Marks(kinds), chosen, Listed(Marks(kinds), 8)[i].id)
  {
    ListedAt(Marks(kinds), 8, i);
    chosen := ChosenExists(Marks(kinds), 0, i, Listed(Marks(kinds), 8)[i].id);
  }

  /** Ids can collide: a second `a` and a heading `a 1` below it. The listed heading is then not
      the chosen one. */
  lemma CollidingIds(first: string, third: string, content: string)
    requires first == "# a" && third == "## a 1" && content == Join([first, first, third], "\n")
    ensures var marks := Marks(Classified(Split(content, '\n')));
      |marks| == 3 && marks[1].id == "a-1" && marks[1].level == 1 && Chosen(marks, 2, "a-1")
  {
    NoLineBreak(first, third);
    SampleLines("#", "a", first, "##", "a 1", third);
    CollidingLines(first, third, content);
  }

  lemma SampleLines(mark: string, a: string, first: string, marks: string, b: string, third: string)
    requires mark == "#" && a == "a" && marks == "##" && b == "a 1"
    requires first == mark + (" " + a) && third == marks + (" " + b)
    ensures Classify(first) == Title(1, a, a) && Classify(third) == Title(2, "a-1", b)
  {
    OneLine(mark, a, first);
    OneLine(marks, b, third);
    SlugsOfTitles(a, b);
  }

  lemma NoLineBreak(first: string, third: string)
    requires first == "# a" && third == "## a 1"
    ensures '\n' !in first && '\n' !in third
  {
  }

  lemma CollidingLines(first: string, third: string, content: string)
    requires '\n' !in first && '\n' !in third && content == Join([first, first, third], "\n")
    requires Classify(first) == Title(1, "a", "a") && Classify(third) == Title(2, "a-1", "a 1")
    ensures var marks := Marks(Classified(Split(content, '\n')));
      |marks| == 3 && marks[1].id == "a-1" && marks[1].level == 1 && Chosen(marks, 2, "a-1")
  {
    var kinds := ThreeLines(first, first, third, content);
    CollidingTitles(kinds);
  }

  lemma ThreeLines(a: string, b: string, c: string, content: string) returns (kinds: seq<Line>)
    requires '\n' !in a && '\n' !in b && '\n' !in c && content == Join([a, b, c], "\n")
    ensures kinds == [Classify(a), Classify(b), Classify(c)] && kinds == Classified(Split(content, '\n'))
  {
    SplitAfterJoin([a, b, c], '\n');
    kinds := Classified([a, b, c]);
  }

  lemma OneLine(hashes: string, title: string, line: string)
    requires 1 <= |hashes| <= 6 && forall i :: 0 <= i < |hashes| ==> hashes[i] == '#'
    requires title != "" && TrimSpace(title) == title && title[|title| - 1] != '#' && line == hashes + (" " + title)
    ensures Classify(line) == Title(|hashes|, SlugOf(title), title)
  {
    HeadingLine(hashes, title, "");
    assert title + "" == title;
  }

  lemma SlugsOfTitles(a: string, b: string)
    requires a == "a" && b == "a 1"
    ensures SlugOf(a) == "a" && SlugOf(b) == "a-1"
  {
    assert Dashed(a[1..], false) == "" && Dashed(a, false) == "a";
    assert b[1..][1..][1..] == "" && Dashed(b[1..][1..], true) == "1" && Dashed(b[1..], false) == "-1";
    assert Dashed(b, false) == "a-1";
  }

  lemma CollidingTitles(kinds: seq<Line>)
    requires kinds == [Title(1, "a", "a"), Title(1, "a", "a"), Title(2, "a-1", "a 1")]
    ensures var marks := Marks(kinds);
      |marks| == 3 && marks[1].id == "a-1" && marks[1].level == 1 && Chosen(marks, 2, "a-1")
  {
    var seen := map["a" := 1];
    var later := seen["a" := 2];
    assert Itoa(1) == "1" && Id("a", 1) == "a-1";
    assert Scan(kinds, 3, false, later["a-1" := 1]) == [];
    assert Scan(kinds, 2, false, later) == [MarkOf(kinds, 2, 0)];
    assert Scan(kinds, 1, false, seen) == [MarkOf(kinds, 1, 1)] + [MarkOf(kinds, 2, 0)];
    var marks := [MarkOf(kinds, 0, 0)] + ([MarkOf(kinds, 1, 1)] + [MarkOf(kinds, 2, 0)]);
    assert map["a" := 1] == map[]["a" := 1];
    assert Marks(kinds) == marks && |marks| == 3 && marks[0].id == "a" && marks[2].id == "a-1";
    assert Deeper(marks, 1, 3) && Superseded(marks, 1, "a-1");
  }

  /** Splitting a document into classified lines, as both scanners do. */
  method ReadLines(content: string) returns (lines: seq<string>, kinds: seq<Line>)
    ensures lines == Split(content, '\n') && kinds == Classified(lines)
  {
    lines, kinds := Split(content, '\n'), [];
    ghost var all := Classified(lines);
    for i := 0 to |lines|
      invariant kinds == all[..i]
    {
      var kind := ClassifyAt(lines, i);
      OneLonger(all, i);
      kinds := kinds + [kind];
    }
  }

  method ClassifyAt(lines: seq<string>, i: nat) returns (kind: Line)
    requires i < |lines|
    ensures kind == Classified(lines)[i]
  {
    kind := ClassifyLine(lines[i]);
  }

  lemma OneLonger<T>(s: seq<T>, i: nat)
    requires i < |s|
    ensures s[..i + 1] == s[..i] + [s[i]]
  {
  }
}
