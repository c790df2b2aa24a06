/** Pack activation: conditions that may be nested under `all`, the file evidence they leave,
    and the scopes that evidence is mapped to. */
module Activation {
  import opened Strings
  import opened Order
  import opened Glob

  datatype Dependency = Dependency(source: string, name: string, version: string)

  /** `all` excludes the other fields; a condition that has both is rejected. */
  datatype When = When(patterns: seq<string>, dependencies: seq<Dependency>, detector: string, all: Gate)
  datatype Gate = Absent | AllOf(children: seq<When>)

  /** The facts conditions are evaluated against; `find` lists the files of a pattern. */
  datatype Facts = Facts(find: string -> Option<seq<string>>, known: string -> bool, active: string -> bool,
                         dependency: Dependency, boundary: string)

  datatype Error = BadPattern(pattern: string) | UnknownDetector(name: string) | InvalidCondition
  datatype Result<T> = Ok(value: T) | Fail(error: Error)

  datatype Evidence = Evidence(matched: bool, files: seq<string>)

  const MAX_DEPTH := 32

  predicate HasLeaf(w: When) {
    w.patterns != [] || w.dependencies != [] || TrimSpace(w.detector) != ""
  }

  predicate Valid(w: When, depth: nat)
    decreases w
  {
    && depth <= MAX_DEPTH
    && if w.all.Absent? then HasLeaf(w)
      else
        && w.all.children != [] && !HasLeaf(w)
        && forall i :: 0 <= i < |w.all.children| ==> Valid(w.all.children[i], depth + 1)
  }

  // ---- Evaluation ----

  /** An empty field of a condition matches anything. */
  predicate Meets(d: Dependency, condition: Dependency) {
    && (condition.source == "" || condition.source == d.source)
    && (condition.name == "" || condition.name == d.name)
    && (condition.version == "" || condition.version == d.version)
  }

  function Collect(facts: Facts, patterns: seq<string>, files: seq<string>): Result<seq<string>>
    decreases |patterns|
  {
    if patterns == [] then Ok(files)
    else match facts.find(patterns[0])
      case None => Fail(BadPattern(patterns[0]))
      case Some(found) => Collect(facts, patterns[1..], AppendNew(files, found))
  }

  function DetectorActive(facts: Facts, name: string): Result<bool> {
    if TrimSpace(name) == "" then Ok(false)
    else if !facts.known(name) then Fail(UnknownDetector(name))
    else Ok(facts.active(name))
  }

  function EvaluateLeaf(facts: Facts, w: When): Result<Evidence> {
    match Collect(facts, w.patterns, [])
    case Fail(e) => Fail(e)
    case Ok(files) =>
      match DetectorActive(facts, w.detector)
      case Fail(e) => Fail(e)
      case Ok(detected) =>
        var depends := exists c :: c in w.dependencies && Meets(facts.dependency, c);
        Ok(Evidence(files != [] || detected || depends, files))
  }

  function And(a: Evidence, b: Evidence): Evidence {
    Evidence(a.matched && b.matched, AppendNew(a.files, b.files))
  }

  function Width(w: When): nat {
    if w.all.Absent? then 0 else |w.all.children| + 1
  }

  const NOTHING := Evidence(true, [])

  function Evaluate(facts: Facts, w: When): Result<Evidence>
    decreases w, Width(w)
  {
    if w.all.Absent? then EvaluateLeaf(facts, w) else EvaluateFrom(facts, w, 0, NOTHING)
  }

  /** The children from number `i` on, with what was gathered before them. */
  function EvaluateFrom(facts: Facts, w: When, i: nat, sofar: Evidence): Result<Evidence>
    requires w.all.AllOf? && i <= |w.all.children|
    decreases w, |w.all.children| - i
  {
    if i == |w.all.children| then Ok(sofar)
    else match Evaluate(facts, w.all.children[i])
      case Fail(e) => Fail(e)
      case Ok(found) => EvaluateFrom(facts, w, i + 1, And(sofar, found))
  }

  // ---- What conditions mean ----

  /** The condition reached by a path of child numbers. */
  function At(w: When, path: seq<nat>): Option<When>
    decreases |path|
  {
    if path == [] then Some(w)
    else if w.all.Absent? || path[0] >= |w.all.children| then None
    else At(w.all.children[path[0]], path[1..])
  }

  ghost predicate Empty(w: When) {
    w.patterns == [] && w.dependencies == [] && forall c :: c in w.detector ==> IsSpace(c)
  }

  /** Either children and nothing else, or no children and something. */
  ghost predicate WellPut(w: When) {
    if w.all.Absent? then !Empty(w) else Empty(w) && w.all.children != []
  }

  ghost predicate FineAt(w: When, depth: nat, path: seq<nat>) {
    At(w, path).Some? ==> depth + |path| <= 32 && WellPut(At(w, path).value)
  }

  lemma {:induction false} FineEverywhere(w: When, depth: nat, path: seq<nat>)
    requires Valid(w, depth)
    ensures FineAt(w, depth, path)
    decreases |path|
  {
    OnlySpaces(w.detector);
    if path != [] && w.all.AllOf? && path[0] < |w.all.children| {
      FineEverywhere(w.all.children[path[0]], depth + 1, path[1..]);
    }
  }

  lemma {:induction false} NotFineSomewhere(w: When, depth: nat) returns (path: seq<nat>)
    requires !Valid(w, depth)
    ensures !FineAt(w, depth, path)
    decreases w
  {
    OnlySpaces(w.detector);
    path := [];
    if depth <= 32 && WellPut(w) {
      var i :| 0 <= i < |w.all.children| && !Valid(w.all.children[i], depth + 1);
      var rest := NotFineSomewhere(w.all.children[i], depth + 1);
      path := [i] + rest;
      assert path[1..] == rest;
    }
  }

  /** A condition is valid exactly when everything in it is well put and nothing is deeper than
      32 levels. */
  lemma ValidExactly(w: When)
    ensures Valid(w, 0) <==>
      forall path :: At(w, path).Some? ==> |path| <= 32 && WellPut(At(w, path).value)
  {
    if Valid(w, 0) {
      forall path | At(w, path).Some? ensures |path| <= 32 && WellPut(At(w, path).value) {
        FineEverywhere(w, 0, path);
      }
    } else {
      var path := NotFineSomewhere(w, 0);
    }
  }

  /** A file that a pattern of the condition finds. */
  ghost predicate Finds(facts: Facts, patterns: seq<string>, f: string) {
    f != "" && exists p :: p in patterns && facts.find(p).Some? && f in facts.find(p).value
  }

  ghost predicate Detects(facts: Facts, detector: string) {
    (exists c :: c in detector && !IsSpace(c)) && facts.active(detector)
  }

  /** An empty field of a declared dependency matches anything. */
  ghost predicate Declares(d: Dependency, conditions: seq<Dependency>) {
    exists c :: c in conditions && c.source in {"", d.source} && c.name in {"", d.name} && c.version in {"", d.version}
  }

  /** Every pattern can be compiled and the detector is known. */
  ghost predicate Readable(facts: Facts, w: When) {
    && (forall p :: p in w.patterns ==> facts.find(p).Some?)
    && ((exists c :: c in w.detector && !IsSpace(c)) ==> facts.known(w.detector))
  }

  ghost predicate Holds(facts: Facts, w: When) {
    || (exists f :: Finds(facts, w.patterns, f))
    || Detects(facts, w.detector)
    || Declares(facts.dependency, w.dependencies)
  }

  lemma {:induction false} CollectExactly(facts: Facts, patterns: seq<string>, files: seq<string>)
    ensures var r := Collect(facts, patterns, files);
      && (r.Ok? <==> forall p :: p in patterns ==> facts.find(p).Some?)
      && (r.Ok? ==> forall f :: f in r.value <==> f in files || Finds(facts, patterns, f))
      && (r.Fail? ==> exists p :: p in patterns && facts.find(p).None? && r.error == BadPattern(p))
    decreases |patterns|
  {
    if patterns != [] && facts.find(patterns[0]).Some? {
      var next := AppendNew(files, facts.find(patterns[0]).value);
      CollectExactly(facts, patterns[1..], next);
      assert forall f :: f in next <==> f in Elements(next);
      assert forall p :: p in patterns <==> p == patterns[0] || p in patterns[1..];
    }
  }

  lemma DeclaresExactly(d: Dependency, conditions: seq<Dependency>)
    ensures (exists c :: c in conditions && Meets(d, c)) <==> Declares(d, conditions)
  {
  }

  /** One condition without children: it can be evaluated exactly when it is readable, and then
      matches exactly when it has a file, an active detector or a declared dependency; its
      evidence is the files. */
  lemma LeafExactly(facts: Facts, w: When)
    ensures var r := EvaluateLeaf(facts, w);
      && (r.Ok? <==> Readable(facts, w))
      && (r.Ok? ==> (r.value.matched <==> Holds(facts, w)))
      && (r.Ok? ==> forall f :: f in r.value.files <==> Finds(facts, w.patterns, f))
      && (r.Fail? && r.error != UnknownDetector(w.detector) ==>
        exists p :: p in w.patterns && facts.find(p).None? && r.error == BadPattern(p))
  {
    CollectExactly(facts, w.patterns, []);
    OnlySpaces(w.detector);
    DeclaresExactly(facts.dependency, w.dependencies);
    var r := EvaluateLeaf(facts, w);
    if r.Ok? && r.value.files != [] { assert Finds(facts, w.patterns, r.value.files[0]); }
  }

  lemma {:induction false} LeavesExactly(facts: Facts, leaves: seq<When>, sofar: Evidence)
    ensures var r := EvaluateLeaves(facts, leaves, sofar);
      && (r.Ok? <==> forall l :: l in leaves ==> Readable(facts, l))
      && (r.Ok? ==> (r.value.matched <==> sofar.matched && forall l :: l in leaves ==> Holds(facts, l)))
      && (r.Ok? ==> forall f :: f in r.value.files <==>
           f in sofar.files || exists l :: l in leaves && Finds(facts, l.patterns, f))
    decreases |leaves|
  {
    if leaves != [] {
      LeafExactly(facts, leaves[0]);
      assert forall l :: l in leaves <==> l == leaves[0] || l in leaves[1..];
      if EvaluateLeaf(facts, leaves[0]).Ok? {
        var next := And(sofar, EvaluateLeaf(facts, leaves[0]).value);
        LeavesExactly(facts, leaves[1..], next);
        assert forall f :: f in next.files <==> f in Elements(next.files);
        assert "" !in EvaluateLeaf(facts, leaves[0]).value.files;
      }
    }
  }

  /** The whole of a nested condition: it can be evaluated exactly when all its leaves are
      readable, matches exactly when all of them hold, and gathers the files of all of them. */
  lemma EvaluateExactly(facts: Facts, w: When)
    ensures var r := Evaluate(facts, w);
      && (r.Ok? <==> forall l :: l in Leaves(w) ==> Readable(facts, l))
      && (r.Ok? ==> (r.value.matched <==> forall l :: l in Leaves(w) ==> Holds(facts, l)))
      && (r.Ok? ==> forall f :: f in r.value.files <==> exists l :: l in Leaves(w) && Finds(facts, l.patterns, f))
  {
    NestedIsLeaves(facts, w);
    LeavesExactly(facts, Leaves(w), NOTHING);
  }

  // ---- Flattening ----

  /** All leaf conditions, left to right. */
  function Leaves(w: When): seq<When>
    decreases w, Width(w)
  {
    if w.all.Absent? then [w] else LeavesFrom(w, 0)
  }

  function LeavesFrom(w: When, i: nat): seq<When>
    requires w.all.AllOf? && i <= |w.all.children|
    decreases w, |w.all.children| - i
  {
    if i == |w.all.children| then [] else Leaves(w.all.children[i]) + LeavesFrom(w, i + 1)
  }

  function Flat(w: When): When {
    When([], [], "", AllOf(Leaves(w)))
  }

  /** The leaves one after the other. */
  function EvaluateLeaves(facts: Facts, leaves: seq<When>, sofar: Evidence): Result<Evidence>
    decreases |leaves|
  {
    if leaves == [] then Ok(sofar)
    else match EvaluateLeaf(facts, leaves[0])
      case Fail(e) => Fail(e)
      case Ok(found) => EvaluateLeaves(facts, leaves[1..], And(sofar, found))
  }

  ghost predicate Clean(files: seq<string>) {
    Distinct(files) && "" !in files
  }

  lemma {:induction false} AppendToNothing(files: seq<string>, more: seq<string>)
    requires Clean(files + more)
    ensures AppendNew(files, more) == files + more
    decreases |more|
  {
    if more == [] {
      assert files + more == files;
    } else {
      assert files + more == files + [more[0]] + more[1..];
      assert (files + more)[|files|] == more[0];
      assert forall i :: 0 <= i < |files| ==> (files + more)[i] == files[i];
      AppendToNothing(files + [more[0]], more[1..]);
    }
  }

  lemma {:induction false} AppendSplit(files: seq<string>, a: seq<string>, b: seq<string>)
    ensures AppendNew(files, a + b) == AppendNew(AppendNew(files, a), b)
    decreases |a|
  {
    if a == [] {
      assert a + b == b;
    } else {
      assert (a + b)[1..] == a[1..] + b;
      if a[0] == "" || a[0] in files { AppendSplit(files, a[1..], b); } else { AppendSplit(files + [a[0]], a[1..], b); }
    }
  }

  /** Gathering in two stages is gathering in one. */
  lemma {:induction false} AppendInStages(files: seq<string>, a: seq<string>, b: seq<string>)
    ensures AppendNew(files, AppendNew(a, b)) == AppendNew(AppendNew(files, a), b)
    decreases |b|
  {
    if b != [] {
      if b[0] == "" || b[0] in a {
        assert b[0] in a && b[0] != "" ==> b[0] in Elements(AppendNew(files, a));
        AppendInStages(files, a, b[1..]);
      } else {
        AppendInStages(files, a + [b[0]], b[1..]);
        AppendSplit(files, a, [b[0]]);
        assert [b[0]][1..] == [];
      }
    }
  }

  lemma {:induction false} CollectClean(facts: Facts, patterns: seq<string>, files: seq<string>)
    requires Clean(files)
    ensures Collect(facts, patterns, files).Ok? ==> Clean(Collect(facts, patterns, files).value)
    decreases |patterns|
  {
    if patterns != [] && facts.find(patterns[0]).Some? {
      CollectClean(facts, patterns[1..], AppendNew(files, facts.find(patterns[0]).value));
    }
  }

  function Joined(sofar: Evidence, r: Result<Evidence>): Result<Evidence> {
    match r
    case Fail(e) => Fail(e)
    case Ok(found) => Ok(And(sofar, found))
  }

  lemma AndInStages(a: Evidence, b: Evidence, c: Evidence)
    ensures And(a, And(b, c)) == And(And(a, b), c)
  {
    AppendInStages(a.files, b.files, c.files);
  }

  lemma AndNothing(a: Evidence)
    requires Clean(a.files)
    ensures And(NOTHING, a) == a && And(a, NOTHING) == a
  {
    assert [] + a.files == a.files;
    AppendToNothing([], a.files);
  }

  lemma {:induction false} LeavesClean(facts: Facts, leaves: seq<When>, sofar: Evidence)
    requires Clean(sofar.files)
    ensures EvaluateLeaves(facts, leaves, sofar).Ok? ==> Clean(EvaluateLeaves(facts, leaves, sofar).value.files)
    decreases |leaves|
  {
    if leaves != [] {
      CollectClean(facts, leaves[0].patterns, []);
      if EvaluateLeaf(facts, leaves[0]).Ok? {
        LeavesClean(facts, leaves[1..], And(sofar, EvaluateLeaf(facts, leaves[0]).value));
      }
    }
  }

  /** What was gathered before can be added after the fact. */
  lemma {:induction false} LeavesAfter(facts: Facts, leaves: seq<When>, before: Evidence, sofar: Evidence)
    ensures EvaluateLeaves(facts, leaves, And(before, sofar)) == Joined(before, EvaluateLeaves(facts, leaves, sofar))
    decreases |leaves|
  {
    if leaves != [] && EvaluateLeaf(facts, leaves[0]).Ok? {
      var found := EvaluateLeaf(facts, leaves[0]).value;
      AndInStages(before, sofar, found);
      LeavesAfter(facts, leaves[1..], before, And(sofar, found));
    }
  }

  lemma {:induction false} LeavesInTwoParts(facts: Facts, a: seq<When>, b: seq<When>, sofar: Evidence)
    ensures EvaluateLeaves(facts, a + b, sofar) ==
      match EvaluateLeaves(facts, a, sofar)
      case Fail(e) => Fail(e)
      case Ok(found) => EvaluateLeaves(facts, b, found)
    decreases |a|
  {
    if a == [] {
      assert a + b == b;
    } else {
      assert (a + b)[1..] == a[1..] + b;
      if EvaluateLeaf(facts, a[0]).Ok? {
        LeavesInTwoParts(facts, a[1..], b, And(sofar, EvaluateLeaf(facts, a[0]).value));
      }
    }
  }

  /** A nested condition is its leaves in a row. */
  lemma {:induction false} NestedIsLeaves(facts: Facts, w: When)
    ensures Evaluate(facts, w) == EvaluateLeaves(facts, Leaves(w), NOTHING)
    decreases w, Width(w)
  {
    if w.all.AllOf? {
      NestedIsLeavesFrom(facts, w, 0, NOTHING);
    } else {
      CollectClean(facts, w.patterns, []);
      if EvaluateLeaf(facts, w).Ok? { AndNothing(EvaluateLeaf(facts, w).value); }
      assert [w][1..] == [];
    }
  }

  lemma {:induction false} NestedIsLeavesFrom(facts: Facts, w: When, i: nat, sofar: Evidence)
    requires w.all.AllOf? && i <= |w.all.children| && Clean(sofar.files)
    ensures EvaluateFrom(facts, w, i, sofar) == EvaluateLeaves(facts, LeavesFrom(w, i), sofar)
    decreases w, |w.all.children| - i
  {
    if i < |w.all.children| {
      var child := w.all.children[i];
      NestedIsLeaves(facts, child);
      AndNothing(sofar);
      LeavesAfter(facts, Leaves(child), sofar, NOTHING);
      LeavesClean(facts, Leaves(child), sofar);
      LeavesInTwoParts(facts, Leaves(child), LeavesFrom(w, i + 1), sofar);
      if Evaluate(facts, child).Ok? {
        NestedIsLeavesFrom(facts, w, i + 1, And(sofar, Evaluate(facts, child).value));
      }
    }
  }

  lemma {:induction false} LeavesAreLeaves(w: When)
    ensures forall l :: l in Leaves(w) ==> l.all.Absent?
    decreases w, Width(w)
  {
    if w.all.AllOf? { LeavesFromAreLeaves(w, 0); }
  }

  lemma {:induction false} LeavesFromAreLeaves(w: When, i: nat)
    requires w.all.AllOf? && i <= |w.all.children|
    ensures forall l :: l in LeavesFrom(w, i) ==> l.all.Absent?
    decreases w, |w.all.children| - i
  {
    if i < |w.all.children| {
      LeavesAreLeaves(w.all.children[i]);
      LeavesFromAreLeaves(w, i + 1);
    }
  }

  lemma {:induction false} LeavesOfFlat(w: When, i: nat)
    requires w.all.AllOf? && i <= |w.all.children| && forall l :: l in w.all.children ==> l.all.Absent?
    ensures LeavesFrom(w, i) == w.all.children[i..]
    decreases |w.all.children| - i
  {
    if i < |w.all.children| {
      LeavesOfFlat(w, i + 1);
      assert w.all.children[i] in w.all.children && Leaves(w.all.children[i]) == [w.all.children[i]];
    }
  }

  /** Nesting makes no difference: the flat form has the same verdict, the same error and
      the same files in the same order. */
  lemma FlatteningPreserves(facts: Facts, w: When)
    ensures Evaluate(facts, Flat(w)) == Evaluate(facts, w)
  {
    LeavesAreLeaves(w);
    LeavesOfFlat(Flat(w), 0);
    NestedIsLeaves(facts, w);
    NestedIsLeaves(facts, Flat(w));
  }

  lemma {:induction false} ValidLeaves(w: When, depth: nat)
    requires Valid(w, depth)
    ensures Leaves(w) != [] && forall l :: l in Leaves(w) ==> HasLeaf(l) && l.all.Absent?
    decreases w, Width(w)
  {
    if w.all.AllOf? {
      assert Valid(w.all.children[0], depth + 1);
      ValidLeavesFrom(w, depth, 0);
    }
  }

  lemma {:induction false} ValidLeavesFrom(w: When, depth: nat, i: nat)
    requires w.all.AllOf? && Valid(w, depth) && i <= |w.all.children|
    ensures i < |w.all.children| ==> LeavesFrom(w, i) != []
    ensures forall l :: l in LeavesFrom(w, i) ==> HasLeaf(l) && l.all.Absent?
    decreases w, |w.all.children| - i
  {
    if i < |w.all.children| {
      ValidLeaves(w.all.children[i], depth + 1);
      ValidLeavesFrom(w, depth, i + 1);
    }
  }

  /** A valid condition has a valid flat form, however deep it was. */
  lemma FlatFormIsValid(w: When)
    requires Valid(w, 0)
    ensures Valid(Flat(w), 0)
  {
    ValidLeaves(w, 0);
    var children := Leaves(w);
    assert TrimSpace("") == "" && !HasLeaf(Flat(w));
    forall i | 0 <= i < |children| ensures Valid(children[i], 1) {
      assert children[i] in children;
    }
  }

  // ---- Scopes ----

  /** The directory of a clean relative path. */
  function Dir(path: string): string {
    var parts := Split(path, '/');
    if |parts| == 1 then "." else Join(parts[..|parts| - 1], "/")
  }

  function ScopeForMatch(path: string, scope: string): seq<string> {
    var dir := Dir(path);
    match scope
    case "repo" => ["**"]
    case "directory" => [if dir == "." then "*" else dir + "/*"]
    case "matching-files" => [path]
    case "nearest-ancestor" => [if dir == "." then "**" else dir + "/**"]
    case "" => [if dir == "." then "**" else dir + "/**"]
    case "subtree" => [if dir == "." then "**" else dir + "/**"]
    case _ => []
  }

  /** Text matches itself, wildcards in it included, and what follows a slash is free. */
  lemma {:induction false} MatchesItself(pre: string, rest: string, s: string)
    requires pre == "" || pre[|pre| - 1] == '/' || (rest == "" && s == "")
    requires Match(rest, s)
    ensures Match(pre + rest, pre + s)
    decreases |pre|
  {
    if pre == "" {
      assert pre + rest == rest && pre + s == s;
    } else {
      assert (pre + rest)[1..] == pre[1..] + rest && (pre + s)[1..] == pre[1..] + s;
      if StartsSuper(pre + rest) {
        assert |pre| > 1 && (pre + rest)[2..] == pre[2..] + rest && (pre + s)[1..][1..] == pre[2..] + s;
        MatchesItself(pre[2..], rest, s);
      } else {
        MatchesItself(pre[1..], rest, s);
      }
    }
  }

  lemma {:induction false} JoinSnoc(parts: seq<string>)
    requires |parts| > 1
    ensures Join(parts, "/") == Join(parts[..|parts| - 1], "/") + "/" + parts[|parts| - 1]
  {
    if |parts| > 2 {
      JoinSnoc(parts[1..]);
      assert parts[1..][..|parts| - 2] == parts[..|parts| - 1][1..];
    }
  }

  /** The scope mapped from a file, whatever characters its name has, matches the file. */
  lemma ScopeMatchesFile(path: string, scope: string)
    requires "." !in Split(path, '/')
    ensures forall s :: s in ScopeForMatch(path, scope) ==> Match(s, path)
    ensures scope in ["repo", "directory", "matching-files", "nearest-ancestor", "", "subtree"]
      ==> |ScopeForMatch(path, scope)| == 1
  {
    SuperMatchesAll(path);
    MatchesItself(path, "", "");
    assert path + "" == path;
    if |Split(path, '/')| == 1 {
      JoinAfterSplit(path, '/');
      StarReaches(path);
    } else {
      FileBelow(path);
      DirIsNotDot(path);
    }
  }

  lemma FileBelow(path: string)
    requires |Split(path, '/')| > 1
    ensures Match(Dir(path) + "/*", path) && Match(Dir(path) + "/**", path)
  {
    var parts := Split(path, '/');
    var top, base := Dir(path) + "/", parts[|parts| - 1];
    JoinAfterSplit(path, '/');
    JoinSnoc(parts);
    StarReaches(base);
    SuperMatchesAll(base);
    MatchesItself(top, "*", base);
    MatchesItself(top, "**", base);
    assert top + "*" == Dir(path) + "/*" && top + "**" == Dir(path) + "/**" && path == top + base;
  }

  lemma DirIsNotDot(path: string)
    requires "." !in Split(path, '/') && |Split(path, '/')| > 1
    ensures Dir(path) != "."
  {
    var init := Split(path, '/')[..|Split(path, '/')| - 1];
    assert init[0] in Split(path, '/');
    if |init| > 1 {
      JoinSnoc(init);
      assert Dir(path)[|Join(init[..|init| - 1], "/")|] == '/';
    }
  }

  function ScopeForContext(boundary: string, scope: string): seq<string> {
    var top := boundary == "" || boundary == ".";
    match scope
    case "repo" => ["**"]
    case "boundary" => [if top then "**" else boundary + "/**"]
    case "" => [if top then "**" else boundary + "/**"]
    case "subtree" => [if top then "**" else boundary + "/**"]
    case "nearest-ancestor" => [if top then "**" else boundary + "/**"]
    case "directory" => [if top then "*" else boundary + "/*"]
    case _ => []
  }

  function ScopesFor(files: seq<string>, scope: string, sofar: seq<string>): seq<string>
    decreases |files|
  {
    if files == [] then sofar else ScopesFor(files[1..], scope, AppendNew(sofar, ScopeForMatch(files[0], scope)))
  }

  /** The files that scopes are mapped from: the evidence, or for matching-files the skill's
      own patterns. */
  function MappedFiles(facts: Facts, scope: string, patterns: seq<string>, evidence: seq<string>): Result<seq<string>> {
    if scope == "matching-files" && patterns != [] then Collect(facts, patterns, []) else Ok(evidence)
  }

  function Activate(facts: Facts, w: When, scope: string, patterns: seq<string>): Result<seq<string>> {
    if !Valid(w, 0) then Fail(InvalidCondition)
    else match Evaluate(facts, w)
      case Fail(e) => Fail(e)
      case Ok(evidence) =>
        if !evidence.matched then Ok([])
        else match MappedFiles(facts, scope, patterns, evidence.files)
          case Fail(e) => Fail(e)
          case Ok(files) =>
            if scope == "boundary" || files == [] then Ok(ScopeForContext(facts.boundary, scope))
            else Ok(ScopesFor(files, scope, []))
  }

  /** A valid condition activates exactly like its flat form. */
  lemma FlatFormActivatesAlike(facts: Facts, w: When, scope: string, patterns: seq<string>)
    requires Valid(w, 0)
    ensures Activate(facts, Flat(w), scope, patterns) == Activate(facts, w, scope, patterns)
  {
    FlatFormIsValid(w);
    FlatteningPreserves(facts, w);
  }

  lemma {:induction false} ScopesGrow(files: seq<string>, scope: string, sofar: seq<string>, s: string)
    requires s in sofar
    ensures s in ScopesFor(files, scope, sofar)
    decreases |files|
  {
    if files != [] {
      assert s in Elements(AppendNew(sofar, ScopeForMatch(files[0], scope)));
      ScopesGrow(files[1..], scope, AppendNew(sofar, ScopeForMatch(files[0], scope)), s);
    }
  }

  /** Every file of the evidence is covered by one of the scopes it led to. */
  lemma {:induction false} ScopesCoverFiles(files: seq<string>, scope: string, sofar: seq<string>, f: string)
    requires f in files && f != "" && "." !in Split(f, '/')
    requires scope in ["repo", "directory", "matching-files", "nearest-ancestor", "", "subtree"]
    ensures exists s :: s in ScopesFor(files, scope, sofar) && Match(s, f)
    decreases |files|
  {
    var next := AppendNew(sofar, ScopeForMatch(files[0], scope));
    if f == files[0] {
      ScopeMatchesFile(f, scope);
      var s := ScopeForMatch(f, scope)[0];
      assert s in ScopeForMatch(f, scope) && s != "";
      assert s in Elements(next);
      ScopesGrow(files[1..], scope, next, s);
    } else {
      ScopesCoverFiles(files[1..], scope, next, f);
    }
  }

  // ---- What the scopes reach ----

  /** A literal directory in front of a star or two. */
  lemma TopReaches(top: string, q: string)
    requires Literal(top)
    ensures Match(top + "*", q) <==> top <= q && '/' !in q[|top|..]
    ensures Match(top + "**", q) <==> top <= q
  {
    LiteralHead(top, "*", q);
    LiteralHead(top, "**", q);
    if top <= q {
      SuperMatchesAll(q[|top|..]);
      StarReaches(q[|top|..]);
    }
  }

  lemma {:induction false} StarReaches(s: string)
    ensures Match("*", s) <==> '/' !in s
  {
    assert "*"[1..] == "";
    if s != "" {
      StarReaches(s[1..]);
      assert s == [s[0]] + s[1..];
    }
  }

  /** The directory of a file with its slash, nothing for a file at the root. */
  function Top(path: string): string {
    var parts := Split(path, '/');
    if |parts| == 1 then "" else Join(parts[..|parts| - 1], "/") + "/"
  }

  /** For a file without wildcards in its name, exactly which paths its scope reaches. */
  lemma FileScopeReaches(path: string, scope: string, q: string)
    requires Literal(path) && "." !in Split(path, '/')
    ensures var reached := Reached(ScopeForMatch(path, scope), q);
      && (scope == "repo" ==> reached)
      && (scope == "directory" ==> (reached <==> Top(path) <= q && '/' !in q[|Top(path)|..]))
      && (scope == "matching-files" ==> (reached <==> q == path))
      && (scope in {"", "subtree", "nearest-ancestor"} ==> (reached <==> Top(path) <= q))
      && (scope !in {"", "subtree", "nearest-ancestor", "directory", "matching-files", "repo"} ==> !reached)
  {
    TopOfFile(path);
    TopReaches(Top(path), q);
    LiteralMatchesItself(path, q);
    ScopeOfFile(path, scope);
    ReachedByOne(Top(path), path, q);
  }

  lemma TopOfFile(path: string)
    requires Literal(path)
    ensures Literal(Top(path)) && Top(path) <= path && '/' !in path[|Top(path)|..]
  {
    var parts := Split(path, '/');
    JoinAfterSplit(path, '/');
    if |parts| > 1 {
      JoinSnoc(parts);
      assert path == Top(path) + parts[|parts| - 1];
      assert forall i :: 0 <= i < |Top(path)| ==> Top(path)[i] == path[i] && path[i] in path;
    }
  }

  lemma ScopeOfFile(path: string, scope: string)
    requires "." !in Split(path, '/')
    ensures ScopeForMatch(path, scope) ==
      if scope == "repo" then ["**"] else if scope == "directory" then [Top(path) + "*"]
      else if scope == "matching-files" then [path]
      else if scope in {"", "subtree", "nearest-ancestor"} then [Top(path) + "**"] else []
  {
    if |Split(path, '/')| > 1 {
      DirIsNotDot(path);
      assert Top(path) + "*" == Dir(path) + "/*" && Top(path) + "**" == Dir(path) + "/**";
    } else {
      assert "" + "*" == "*" && "" + "**" == "**";
    }
  }

  /** The same for a scope without a file: it reaches from the boundary of the package, or from
      the root when there is none. */
  lemma ContextScopeReaches(boundary: string, scope: string, q: string)
    requires Literal(boundary)
    ensures var top := if boundary in {"", "."} then "" else boundary + "/";
      var reached := Reached(ScopeForContext(boundary, scope), q);
      && (scope == "repo" ==> reached)
      && (scope == "directory" ==> (reached <==> top <= q && '/' !in q[|top|..]))
      && (scope in {"", "subtree", "nearest-ancestor", "boundary"} ==> (reached <==> top <= q))
      && (scope !in {"", "subtree", "nearest-ancestor", "boundary", "directory", "repo"} ==> !reached)
  {
    var top := if boundary in {"", "."} then "" else boundary + "/";
    TopReaches(top, q);
    ScopeOfContext(boundary, scope, top);
    ReachedByOne(top, "", q);
  }

  lemma ScopeOfContext(boundary: string, scope: string, top: string)
    requires top == if boundary in {"", "."} then "" else boundary + "/"
    ensures ScopeForContext(boundary, scope) ==
      if scope == "repo" then ["**"] else if scope == "directory" then [top + "*"]
      else if scope in {"", "subtree", "nearest-ancestor", "boundary"} then [top + "**"] else []
  {
    assert "" + "*" == "*" && "" + "**" == "**";
    assert boundary + "/*" == (boundary + "/") + "*" && boundary + "/**" == (boundary + "/") + "**";
  }

  ghost predicate Reached(scopes: seq<string>, q: string) {
    exists s :: s in scopes && Match(s, q)
  }

  lemma ReachedByOne(top: string, path: string, q: string)
    ensures Reached(["**"], q) && !Reached([], q)
    ensures Reached([top + "*"], q) <==> Match(top + "*", q)
    ensures Reached([top + "**"], q) <==> Match(top + "**", q)
    ensures Reached([path], q) <==> Match(path, q)
  {
    SuperMatchesAll(q);
    assert "**" in ["**"] && top + "*" in [top + "*"] && top + "**" in [top + "**"] && path in [path];
  }

  lemma {:induction false} ScopesForExactly(files: seq<string>, scope: string, sofar: seq<string>)
    ensures forall s :: s in ScopesFor(files, scope, sofar) <==>
      s in sofar || (s != "" && exists f :: f in files && s in ScopeForMatch(f, scope))
    decreases |files|
  {
    if files != [] {
      var next := AppendNew(sofar, ScopeForMatch(files[0], scope));
      ScopesForExactly(files[1..], scope, next);
      assert forall s :: s in next <==> s in Elements(next);
      assert forall f :: f in files <==> f == files[0] || f in files[1..];
    }
  }

  /** Files that scopes are mapped from, once all conditions hold. */
  ghost predicate MappedFrom(facts: Facts, w: When, scope: string, patterns: seq<string>, f: string) {
    if scope == "matching-files" && patterns != [] then Finds(facts, patterns, f)
    else exists l :: l in Leaves(w) && Finds(facts, l.patterns, f)
  }

  /** What activation comes to: invalid conditions are refused; conditions that do not all hold
      give no scope; otherwise the scopes are those of the mapped files, or of the boundary when
      the scope asks for it or no file is mapped. */
  lemma ActivateExactly(facts: Facts, w: When, scope: string, patterns: seq<string>)
    ensures var r := Activate(facts, w, scope, patterns);
      && (!Valid(w, 0) ==> r == Fail(InvalidCondition))
      && (Valid(w, 0) && r.Ok? ==>
        && (forall l :: l in Leaves(w) ==> Readable(facts, l))
        && (if !(forall l :: l in Leaves(w) ==> Holds(facts, l)) then r.value == []
            else if scope == "boundary" || !(exists f :: MappedFrom(facts, w, scope, patterns, f))
            then r.value == ScopeForContext(facts.boundary, scope)
            else forall s :: s in r.value <==>
              s != "" && exists f :: MappedFrom(facts, w, scope, patterns, f) && s in ScopeForMatch(f, scope)))
  {
    EvaluateExactly(facts, w);
    if Valid(w, 0) && Activate(facts, w, scope, patterns).Ok? && Evaluate(facts, w).value.matched {
      var evidence := Evaluate(facts, w).value.files;
      var files := MappedFiles(facts, scope, patterns, evidence).value;
      CollectExactly(facts, patterns, []);
      assert forall f :: f in files <==> MappedFrom(facts, w, scope, patterns, f);
      if files != [] { assert MappedFrom(facts, w, scope, patterns, files[0]); }
      ScopesForExactly(files, scope, []);
    }
  }

  // ---- The loops ----

  /** Remembers what is there in a set while appending. */
  method AppendUnique(slice: seq<string>, items: seq<string>) returns (r: seq<string>)
    ensures r == AppendNew(slice, items)
  {
    r := slice;
    var seen := set s | s in slice;
    for i := 0 to |items|
      invariant seen == Elements(r) && AppendNew(r, items[i..]) == AppendNew(slice, items)
    {
      if items[i] == "" || items[i] in seen { continue; }
      seen := seen + {items[i]};
      r := r + [items[i]];
    }
  }

  method CollectScopes(files: seq<string>, scope: string) returns (scopes: seq<string>)
    ensures scopes == ScopesFor(files, scope, [])
  {
    scopes := [];
    for i := 0 to |files|
      invariant ScopesFor(files[i..], scope, scopes) == ScopesFor(files, scope, [])
    {
      scopes := AppendUnique(scopes, ScopeForMatch(files[i], scope));
    }
  }
}
