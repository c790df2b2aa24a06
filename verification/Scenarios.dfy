/** Test files: the line-driven parser that turns a SKILL.test.md into scenarios, and the
    text columns a scenario is stored in and read back from. */
module Scenarios {
  import opened Strings
  import opened Registry

  datatype Scenario = Scenario(name: string, prompt: string, extraSkills: seq<string>, criteria: seq<string>)
  datatype Issue =
    | MissingPrompt(name: string)
    | MissingCriteria(name: string)
    | MissingHeader
    | WrongHeader(ref: string, expected: string)
    | NoScenarios

  // ---- Columns ----

  function Store(s: Scenario): TestColumns {
    TestColumns(s.name, s.prompt, Join(s.extraSkills, ","), Join(s.criteria, "\n"))
  }

  function Load(t: TestColumns): Scenario {
    Scenario(t.name, t.prompt, if t.extraSkills == "" then [] else Split(t.extraSkills, ','), Split(t.criteria, '\n'))
  }

  ghost predicate Storable(s: Scenario) {
    && (forall x :: x in s.extraSkills ==> ',' !in x) && s.extraSkills != [""]
    && s.criteria != [] && forall c :: c in s.criteria ==> '\n' !in c
  }

  /** A scenario comes back unchanged exactly when no skill name has a comma, the skill list
      is not one empty name, and the criteria are at least one line each on its own. */
  lemma LoadAfterStore(s: Scenario)
    ensures Load(Store(s)) == s <==> Storable(s)
  {
    SplitAfterJoin(s.criteria, '\n');
    SplitAfterJoin(s.extraSkills, ',');
    if |s.extraSkills| > 1 {
      assert Join(s.extraSkills, ",") == s.extraSkills[0] + "," + Join(s.extraSkills[1..], ",");
    }
  }

  // ---- Lines ----

  /** A section is open while its lines are read. */
  datatype Parser = Parser(ref: string, kept: seq<Scenario>, issues: seq<Issue>, open: Option<Scenario>)

  const HEADER := "# Tests: "
  const SECTION := "## Validation: "
  const PROMPT := "Prompt: "
  const SKILLS := "Skills: "
  const CAPTION := "Success criteria:"
  const CRITERION := "  - "

  predicate Complete(s: Scenario) {
    s.prompt != "" && s.criteria != []
  }

  /** Nonempty trimmed names, in order. */
  function SkillNames(parts: seq<string>): seq<string> {
    if parts == [] then []
    else if TrimSpace(parts[0]) == "" then SkillNames(parts[1..])
    else [TrimSpace(parts[0])] + SkillNames(parts[1..])
  }

  function Defects(s: Scenario): (issues: seq<Issue>)
    ensures issues == [] <==> Complete(s)
  {
    (if s.prompt == "" then [MissingPrompt(s.name)] else [])
    + (if s.criteria == [] then [MissingCriteria(s.name)] else [])
  }

  /** Closing keeps a complete section and reports an incomplete one. */
  function Close(p: Parser): Parser {
    match p.open
    case None => p
    case Some(s) =>
      p.(kept := if Complete(s) then p.kept + [s] else p.kept, issues := p.issues + Defects(s), open := None)
  }

  function InSection(s: Scenario, line: string): Scenario {
    if PROMPT <= line then s.(prompt := line[|PROMPT|..])
    else if SKILLS <= line then s.(extraSkills := s.extraSkills + SkillNames(Split(line[|SKILLS|..], ',')))
    else if CRITERION <= line then s.(criteria := s.criteria + [line[|CRITERION|..]])
    else s
  }

  function Feed(p: Parser, line: string): Parser {
    if HEADER <= line then p.(ref := line[|HEADER|..])
    else if SECTION <= line then Close(p).(open := Some(Scenario(line[|SECTION|..], "", [], [])))
    else match p.open
      case None => p
      case Some(s) => p.(open := Some(InSection(s, line)))
  }

  function FeedAll(p: Parser, lines: seq<string>): Parser
    decreases |lines|
  {
    if lines == [] then p else FeedAll(Feed(p, lines[0]), lines[1..])
  }

  const START := Parser("", [], [], None)

  function Parse(text: string): Parser {
    Close(FeedAll(START, Split(text, '\n')))
  }

  /** What is wrong with the file as a whole. */
  function FileIssues(p: Parser, expected: string): seq<Issue> {
    (if p.ref == "" then [MissingHeader] else if p.ref != expected then [WrongHeader(p.ref, expected)] else [])
    + (if p.kept == [] && p.ref != "" then [NoScenarios] else [])
  }

  lemma FeedFirst(p: Parser, lines: seq<string>, i: nat)
    requires i < |lines|
    ensures FeedAll(p, lines[i..]) == FeedAll(Feed(p, lines[i]), lines[i + 1..])
  {
    assert lines[i..][0] == lines[i] && lines[i..][1..] == lines[i + 1..];
  }

  method ParseTestContent(text: string, expected: string)
    returns (ref: string, scenarios: seq<Scenario>, issues: seq<Issue>)
    ensures ref == Parse(text).ref && scenarios == Parse(text).kept
    ensures issues == Parse(text).issues + FileIssues(Parse(text), expected)
  {
    var lines := Split(text, '\n');
    ref, scenarios, issues := "", [], [];
    var current: Option<Scenario> := None;
    for i := 0 to |lines|
      invariant FeedAll(Parser(ref, scenarios, issues, current), lines[i..]) == FeedAll(START, lines)
    {
      var line := lines[i];
      FeedFirst(Parser(ref, scenarios, issues, current), lines, i);
      if HEADER <= line {
        ref := line[|HEADER|..];
        continue;
      }
      if SECTION <= line {
        if current.Some? {
          var ok, found := ValidateScenario(current.value);
          issues := issues + found;
          if ok { scenarios := scenarios + [current.value]; }
        }
        current := Some(Scenario(line[|SECTION|..], "", [], []));
        continue;
      }
      if current.Some? { current := Some(InSection(current.value, line)); }
    }
    if current.Some? {
      var ok, found := ValidateScenario(current.value);
      issues := issues + found;
      if ok { scenarios := scenarios + [current.value]; }
    }
    if ref == "" {
      issues := issues + [MissingHeader];
    } else if ref != expected {
      issues := issues + [WrongHeader(ref, expected)];
    }
    if scenarios == [] && ref != "" { issues := issues + [NoScenarios]; }
  }

  method ValidateScenario(s: Scenario) returns (ok: bool, found: seq<Issue>)
    ensures ok == Complete(s) && found == Defects(s)
  {
    found := [];
    if s.prompt == "" { found := found + [MissingPrompt(s.name)]; }
    if s.criteria == [] { found := found + [MissingCriteria(s.name)]; }
    ok := found == [];
  }

  // ---- Everything kept can be stored ----

  ghost predicate Clean(s: Scenario) {
    && (forall x :: x in s.extraSkills ==> x != "" && ',' !in x)
    && forall c :: c in s.criteria ==> '\n' !in c
  }

  ghost predicate Sound(p: Parser) {
    && (forall s :: s in p.kept ==> Clean(s) && Complete(s))
    && (p.open.Some? ==> Clean(p.open.value))
  }

  lemma {:induction false} SkillNamesClean(parts: seq<string>)
    requires forall p :: p in parts ==> ',' !in p
    ensures forall x :: x in SkillNames(parts) ==> x != "" && ',' !in x
  {
    if parts != [] {
      assert parts[0] in parts;
      SkillNamesClean(parts[1..]);
    }
  }

  lemma FeedSound(p: Parser, line: string)
    requires Sound(p) && '\n' !in line
    ensures Sound(Feed(p, line)) && Sound(Close(p))
  {
    if SKILLS <= line { SkillNamesClean(Split(line[|SKILLS|..], ',')); }
  }

  lemma {:induction false} FeedAllSound(p: Parser, lines: seq<string>)
    requires Sound(p) && forall l :: l in lines ==> '\n' !in l
    ensures Sound(FeedAll(p, lines))
    decreases |lines|
  {
    if lines != [] {
      assert lines[0] in lines;
      FeedSound(p, lines[0]);
      FeedAllSound(Feed(p, lines[0]), lines[1..]);
    }
  }

  /** For every test file, what the parser keeps survives the database unchanged. */
  lemma KeptScenariosSurvive(text: string)
    ensures forall s :: s in Parse(text).kept ==> Load(Store(s)) == s && Complete(s)
  {
    FeedAllSound(START, Split(text, '\n'));
    FeedSound(FeedAll(START, Split(text, '\n')), "");
    forall s | s in Parse(text).kept ensures Load(Store(s)) == s {
      if s.extraSkills == [""] { assert s.extraSkills[0] in s.extraSkills; }
      LoadAfterStore(s);
    }
  }

  // ---- Every section is kept or reported ----

  /** Which issues there are: one for each field that an incomplete section lacks, under its name,
      and at most one each for the header and for a file without scenarios. */
  lemma IssuesExactly(s: Scenario, p: Parser, expected: string)
    ensures forall i :: i in Defects(s) <==>
      (i == MissingPrompt(s.name) && s.prompt == "") || (i == MissingCriteria(s.name) && s.criteria == [])
    ensures forall i :: i in FileIssues(p, expected) <==>
      || (i == MissingHeader && p.ref == "")
      || (i == WrongHeader(p.ref, expected) && p.ref != "" && p.ref != expected)
      || (i == NoScenarios && p.kept == [] && p.ref != "")
  {
  }

  function Headings(lines: seq<string>): nat {
    if lines == [] then 0
    else (if SECTION <= lines[0] && !(HEADER <= lines[0]) then 1 else 0) + Headings(lines[1..])
  }

  function Opened(p: Parser): nat {
    |p.kept| + if p.open.Some? then 1 else 0
  }

  lemma {:induction false} FeedAllCounts(p: Parser, lines: seq<string>)
    ensures var q := Close(FeedAll(p, lines));
      && |q.kept| <= Opened(p) + Headings(lines)
      && p.issues <= q.issues
      && (q.issues == p.issues <==> |q.kept| == Opened(p) + Headings(lines))
    decreases |lines|
  {
    if lines != [] {
      var next := Feed(p, lines[0]);
      FeedAllCounts(next, lines[1..]);
    }
  }

  /** No issue is raised exactly when every section heading yields a scenario, there is at
      least one, and the header names the tested file. */
  lemma NoIssuesExactly(text: string, expected: string)
    requires expected != ""
    ensures Parse(text).issues + FileIssues(Parse(text), expected) == [] <==>
      && Parse(text).ref == expected && Parse(text).kept != []
      && |Parse(text).kept| == Headings(Split(text, '\n'))
  {
    FeedAllCounts(START, Split(text, '\n'));
  }

  // ---- Writing a file and parsing it ----

  function CriterionLines(criteria: seq<string>): seq<string> {
    if criteria == [] then [] else [CRITERION + criteria[0]] + CriterionLines(criteria[1..])
  }

  /** The documented layout of one section. */
  function SectionLines(s: Scenario): seq<string> {
    [SECTION + s.name, PROMPT + s.prompt, SKILLS + Join(s.extraSkills, ", "), CAPTION]
    + CriterionLines(s.criteria)
  }

  function FileLines(scenarios: seq<Scenario>): seq<string> {
    if scenarios == [] then [] else SectionLines(scenarios[0]) + FileLines(scenarios[1..])
  }

  function Text(ref: string, scenarios: seq<Scenario>): string {
    Join([HEADER + ref] + FileLines(scenarios), "\n")
  }

  ghost predicate Writable(s: Scenario) {
    && Complete(s) && Clean(s) && '\n' !in s.name && '\n' !in s.prompt
    && forall x :: x in s.extraSkills ==> IsName(x) && '\n' !in x
  }

  lemma {:induction false} FeedAllConcat(p: Parser, a: seq<string>, b: seq<string>)
    ensures FeedAll(p, a + b) == FeedAll(FeedAll(p, a), b)
    decreases |a|
  {
    if a == [] {
      assert a + b == b;
    } else {
      assert (a + b)[1..] == a[1..] + b;
      FeedAllConcat(Feed(p, a[0]), a[1..], b);
    }
  }

  predicate IsName(x: string) {
    x != "" && TrimSpace(x) == x && ',' !in x
  }

  /** The names after the first one, each behind a blank. */
  function Behind(names: seq<string>): seq<string> {
    if names == [] then [] else [" " + names[0]] + Behind(names[1..])
  }

  lemma {:induction false} BehindTrimmed(names: seq<string>)
    requires forall x :: x in names ==> IsName(x)
    ensures SkillNames(Behind(names)) == names && forall x :: x in Behind(names) ==> ',' !in x
  {
    if names != [] {
      assert names[0] in names;
      assert (" " + names[0])[0] == ' ' && (" " + names[0])[1..] == names[0];
      BehindTrimmed(names[1..]);
    }
  }

  lemma JoinFirst(first: string, rest: seq<string>, sep: string)
    ensures Join([first] + rest, sep) == if rest == [] then first else first + (sep + Join(rest, sep))
  {
    assert ([first] + rest)[1..] == rest;
    if rest != [] { assert first + sep + Join(rest, sep) == first + (sep + Join(rest, sep)); }
  }

  lemma FrontOfJoin(front: string, first: string, rest: seq<string>, sep: string)
    ensures Join([front + first] + rest, sep) == front + Join([first] + rest, sep)
  {
    JoinFirst(front + first, rest, sep);
    JoinFirst(first, rest, sep);
    var tail := sep + Join(rest, sep);
    assert (front + first) + tail == front + (first + tail);
  }

  lemma {:induction false} JoinBehind(names: seq<string>)
    requires names != []
    ensures Join(names, ", ") == Join([names[0]] + Behind(names[1..]), ",")
  {
    var first, rest := names[0], names[1..];
    assert names == [first] + rest;
    JoinFirst(first, rest, ", ");
    JoinFirst(first, Behind(rest), ",");
    if rest != [] {
      JoinBehind(rest);
      FrontOfJoin(" ", rest[0], Behind(rest[1..]), ",");
      assert ", " + Join(rest, ", ") == "," + (" " + Join(rest, ", "));
    }
  }

  /** Names come back from the documented form, a comma and a blank between them. */
  lemma NamesComeBack(names: seq<string>)
    requires forall x :: x in names ==> IsName(x)
    ensures SkillNames(Split(Join(names, ", "), ',')) == names
  {
    if names != [] {
      var parts := [names[0]] + Behind(names[1..]);
      JoinBehind(names);
      BehindTrimmed(names[1..]);
      assert names[0] in names && parts[1..] == Behind(names[1..]);
      SplitAfterJoinClean(parts, ',');
    }
  }

  lemma {:induction false} FeedCriteria(p: Parser, criteria: seq<string>)
    requires p.open.Some?
    ensures FeedAll(p, CriterionLines(criteria))
         == p.(open := Some(p.open.value.(criteria := p.open.value.criteria + criteria)))
    decreases |criteria|
  {
    if criteria != [] {
      var line := CRITERION + criteria[0];
      assert line[0] == ' ' && line[|CRITERION|..] == criteria[0];
      var s := p.open.value;
      assert Feed(p, line) == p.(open := Some(s.(criteria := s.criteria + [criteria[0]])));
      FeedCriteria(Feed(p, line), criteria[1..]);
      assert s.criteria + criteria == s.criteria + [criteria[0]] + criteria[1..];
    } else {
      assert p.open.value.criteria + criteria == p.open.value.criteria;
    }
  }

  lemma FeedSection(p: Parser, s: Scenario)
    requires Writable(s)
    ensures FeedAll(p, SectionLines(s)) == Close(p).(open := Some(s))
  {
    var head := [SECTION + s.name, PROMPT + s.prompt, SKILLS + Join(s.extraSkills, ", "), CAPTION];
    FeedHead(p, s);
    FeedFour(p, head);
    FeedAllConcat(p, head, CriterionLines(s.criteria));
    FeedCriteria(Close(p).(open := Some(s.(criteria := []))), s.criteria);
    assert [] + s.criteria == s.criteria;
  }

  lemma FeedHead(p: Parser, s: Scenario)
    requires Writable(s)
    ensures Feed(Feed(Feed(Feed(p, SECTION + s.name), PROMPT + s.prompt), SKILLS + Join(s.extraSkills, ", ")),
                 CAPTION)
      == Close(p).(open := Some(s.(criteria := [])))
  {
    var begun := Close(p).(open := Some(Scenario(s.name, "", [], [])));
    FeedHeading(p, s.name);
    var prompted := begun.(open := Some(Scenario(s.name, s.prompt, [], [])));
    FeedPrompt(begun, s.prompt);
    FeedSkills(prompted, s.extraSkills);
    assert CAPTION[0] == 'S' && CAPTION[1] == 'u' && SKILLS[1] == 'k' && PROMPT[0] == 'P' && CRITERION[0] == ' ';
    assert HEADER[0] == '#' && SECTION[0] == '#';
  }

  lemma FeedHeading(p: Parser, name: string)
    ensures Feed(p, SECTION + name) == Close(p).(open := Some(Scenario(name, "", [], [])))
  {
    assert (SECTION + name)[1] == '#' && (SECTION + name)[|SECTION|..] == name;
  }

  lemma FeedPrompt(p: Parser, prompt: string)
    requires p.open.Some?
    ensures Feed(p, PROMPT + prompt) == p.(open := Some(p.open.value.(prompt := prompt)))
  {
    assert (PROMPT + prompt)[0] == 'P' && (PROMPT + prompt)[|PROMPT|..] == prompt;
  }

  lemma FeedSkills(p: Parser, names: seq<string>)
    requires p.open.Some? && p.open.value.extraSkills == [] && forall x :: x in names ==> IsName(x)
    ensures Feed(p, SKILLS + Join(names, ", ")) == p.(open := Some(p.open.value.(extraSkills := names)))
  {
    NamesComeBack(names);
    SkillsLine(p.open.value, Join(names, ", "));
    assert [] + names == names;
  }

  lemma SkillsLine(s: Scenario, text: string)
    ensures InSection(s, SKILLS + text) == s.(extraSkills := s.extraSkills + SkillNames(Split(text, ',')))
    ensures !(HEADER <= SKILLS + text) && !(SECTION <= SKILLS + text)
  {
    assert (SKILLS + text)[0] == 'S' && (SKILLS + text)[|SKILLS|..] == text;
  }

  lemma FeedFour(p: Parser, l: seq<string>)
    requires |l| == 4
    ensures FeedAll(p, l) == Feed(Feed(Feed(Feed(p, l[0]), l[1]), l[2]), l[3])
  {
    var one := Feed(p, l[0]);
    var two := Feed(one, l[1]);
    assert FeedAll(one, l[1..]) == FeedAll(two, l[1..][1..]);
    assert l[1..][1..] == l[2..] && l[2..][1..] == l[3..] && l[3..][1..] == [];
    var three := Feed(two, l[2]);
    assert FeedAll(two, l[2..]) == FeedAll(three, l[3..]);
    assert FeedAll(three, l[3..]) == FeedAll(Feed(three, l[3]), []);
  }

  lemma {:induction false} FeedFile(p: Parser, scenarios: seq<Scenario>)
    requires forall s :: s in scenarios ==> Writable(s)
    requires p.open.Some? ==> Complete(p.open.value)
    ensures Close(FeedAll(p, FileLines(scenarios))) == Close(p).(kept := Close(p).kept + scenarios)
    decreases |scenarios|
  {
    if scenarios == [] {
      assert Close(p).kept + scenarios == Close(p).kept;
    } else {
      assert scenarios[0] in scenarios;
      FeedAllConcat(p, SectionLines(scenarios[0]), FileLines(scenarios[1..]));
      FeedSection(p, scenarios[0]);
      FeedFile(Close(p).(open := Some(scenarios[0])), scenarios[1..]);
      assert Close(p).kept + scenarios == Close(p).kept + [scenarios[0]] + scenarios[1..];
    }
  }

  lemma {:induction false} JoinedNewlineFree(names: seq<string>)
    requires forall x :: x in names ==> '\n' !in x
    ensures '\n' !in Join(names, ", ")
  {
    if |names| > 1 { JoinedNewlineFree(names[1..]); }
  }

  lemma {:induction false} FileLinesClean(scenarios: seq<Scenario>)
    requires forall s :: s in scenarios ==> Writable(s)
    ensures forall l :: l in FileLines(scenarios) ==> '\n' !in l
  {
    if scenarios != [] {
      assert scenarios[0] in scenarios;
      SectionLinesClean(scenarios[0]);
      FileLinesClean(scenarios[1..]);
    }
  }

  lemma SectionLinesClean(s: Scenario)
    requires Writable(s)
    ensures forall l :: l in SectionLines(s) ==> '\n' !in l
  {
    LabelsClean();
    JoinedNewlineFree(s.extraSkills);
    CriterionLinesClean(s.criteria);
    NoNewlineAfter(SECTION, s.name);
    NoNewlineAfter(PROMPT, s.prompt);
    NoNewlineAfter(SKILLS, Join(s.extraSkills, ", "));
    FourClean(SECTION + s.name, PROMPT + s.prompt, SKILLS + Join(s.extraSkills, ", "), CAPTION);
  }

  lemma LabelsClean()
    ensures '\n' !in SECTION && '\n' !in PROMPT && '\n' !in SKILLS && '\n' !in CAPTION
  {
  }

  lemma FourClean(a: string, b: string, c: string, d: string)
    requires '\n' !in a && '\n' !in b && '\n' !in c && '\n' !in d
    ensures forall l :: l in [a, b, c, d] ==> '\n' !in l
  {
  }

  lemma NoNewlineAfter(front: string, text: string)
    requires '\n' !in front && '\n' !in text
    ensures '\n' !in front + text
  {
  }

  lemma {:induction false} CriterionLinesClean(criteria: seq<string>)
    requires forall c :: c in criteria ==> '\n' !in c
    ensures forall l :: l in CriterionLines(criteria) ==> '\n' !in l
  {
    if criteria != [] {
      assert criteria[0] in criteria;
      CriterionLinesClean(criteria[1..]);
    }
  }

  /** A file written in the documented layout parses back to exactly its scenarios, in
      order, with nothing to report about any section. */
  lemma ParseAfterWrite(ref: string, scenarios: seq<Scenario>)
    requires '\n' !in ref && forall s :: s in scenarios ==> Writable(s)
    ensures Parse(Text(ref, scenarios)) == Parser(ref, scenarios, [], None)
  {
    var lines := [HEADER + ref] + FileLines(scenarios);
    FileLinesClean(scenarios);
    SplitAfterJoinClean(lines, '\n');
    var headed := START.(ref := ref);
    assert (HEADER + ref)[|HEADER|..] == ref && Feed(START, lines[0]) == headed;
    assert lines[1..] == FileLines(scenarios);
    FeedFile(headed, scenarios);
    assert [] + scenarios == scenarios;
  }
}
