/** Keeping the agent rows of the registry current: per-file jobs after a change on disk,
    against a full rescan of the tree. */
module WatchSync {
  import opened Strings
  import opened Order
  import opened Registry
  import opened PathIndex
  import opened AgentScopes
  import opened Scenarios

  /** A skill file together with its sibling test file. */
  datatype Doc = Doc(content: string, name: string, description: string, topics: seq<string>, tags: seq<string>,
                     globs: seq<string>, scenarios: seq<Scenario>)

  /** BrokenTest: the skill can be read, its test file cannot. */
  datatype File = Readable(doc: Doc) | BrokenTest(doc: Doc) | Broken
  type Tree = map<string, File>
  type Rows = map<string, Entry>

  predicate Skipped(part: string) {
    part == ".git" || part == ".skillex" || part == "node_modules"
  }

  /** What the directory walk finds: a SKILL.md below a skills directory of an agent tool,
      with no skipped directory on the way. */
  predicate Visible(rel: string) {
    VisibleParts(Split(rel, '/')) && Anchor(rel).Some?
  }

  predicate VisibleParts(parts: seq<string>)
    requires parts != []
  {
    parts[|parts| - 1] == "SKILL.md" && forall part :: part in parts ==> !Skipped(part)
  }

  /** The name of the directory that holds the file, if it names the skill. */
  function DirectoryName(rel: string): string {
    var parts := Split(rel, '/');
    if |parts| < 2 || parts[|parts| - 2] == "skills" then "" else parts[|parts| - 2]
  }

  function Stored(scenarios: seq<Scenario>): seq<TestColumns> {
    seq(|scenarios|, i requires 0 <= i < |scenarios| => Store(scenarios[i]))
  }

  function SkillFor(rel: string, doc: Doc): Skill {
    var name := if TrimSpace(doc.name) == "" then DirectoryName(rel) else doc.name;
    Skill(rel, Columns(doc.content, name, doc.description, "", "", "repo", "agent"),
          doc.topics, doc.tags, ScopesFor(rel, doc.globs))
  }

  function EntryFor(rel: string, doc: Doc): Entry {
    var s := SkillFor(rel, doc);
    Entry(s.cols, s.topics, s.tags, IndexScopes(s.scopes), Stored(doc.scenarios))
  }

  predicate IsAgent(e: Entry) {
    e.cols.sourceType == "agent"
  }

  /** What a scan makes of one file; a broken test file costs the scenarios only. */
  function Scanned(f: File): Option<Doc> {
    match f
    case Readable(doc) => Some(doc)
    case BrokenTest(doc) => Some(doc.(scenarios := []))
    case Broken => None
  }

  function Discovered(tree: Tree): map<string, Doc> {
    map p | p in tree && Visible(p) && Scanned(tree[p]).Some? :: Scanned(tree[p]).value
  }

  predicate NoErrors(tree: Tree) {
    forall p :: p in tree && Visible(p) ==> tree[p].Readable?
  }

  // ---- What each operation does to the rows ----

  /** One file: gone means delete, whatever row is there; unreadable or outside every skills
      directory means leave alone. */
  function Synced(rows: Rows, tree: Tree, rel: string): Rows {
    if rel !in tree then rows - {rel}
    else if Anchor(rel).None? || !tree[rel].Readable? then rows
    else rows[rel := EntryFor(rel, tree[rel].doc)]
  }

  predicate Under(dir: string, p: string) {
    p == dir || dir + "/" <= p
  }

  /** The rows without the agent rows at the given paths. */
  function DropAgents(rows: Rows, drop: string -> bool): Rows {
    map p | p in rows && !(IsAgent(rows[p]) && drop(p)) :: rows[p]
  }

  function Forgotten(rows: Rows, tree: Tree, dir: string): Rows {
    DropAgents(rows, p => Under(dir, p) && p !in tree)
  }

  function Entries(docs: map<string, Doc>): Rows {
    map p | p in docs :: EntryFor(p, docs[p])
  }

  function Rescanned(rows: Rows, tree: Tree): Rows {
    var docs := Discovered(tree);
    DropAgents(rows + Entries(docs), p => NoErrors(tree) && p !in docs)
  }

  // ---- The operations ----

  /** Upsert, then drop the test rows the upsert kept. */
  method InsertWithoutTests(reg: Registry, rel: string, doc: Doc) returns (id: int)
    requires reg.Valid()
    modifies reg
    ensures reg.Valid() && rel in reg.db.skills && reg.db.skills[rel].id == id
    ensures View(reg.db) == View(old(reg.db))[rel := EntryFor(rel, doc).(tests := [])]
  {
    id := reg.InsertSkill(SkillFor(rel, doc));
    ghost var middle := View(reg.db);
    assert EntryOf(reg.db, rel) == middle[rel] == EntryFor(rel, doc).(tests := middle[rel].tests);
    TestsCleared(View(old(reg.db)), rel, EntryFor(rel, doc), middle[rel].tests);
    reg.DeleteTestsForSkill(rel, id);
  }

  lemma TestsCleared(rows: Rows, rel: string, entry: Entry, tests: seq<TestColumns>)
    ensures rows[rel := entry.(tests := tests)][rel := entry.(tests := [])] == rows[rel := entry.(tests := [])]
  {
  }

  method InsertScenario(reg: Registry, rel: string, id: int, s: Scenario, ghost others: Rows, ghost entry: Entry)
    requires reg.Valid() && rel in reg.db.skills && reg.db.skills[rel].id == id
    requires View(reg.db) == others[rel := entry]
    modifies reg
    ensures reg.Valid() && rel in reg.db.skills && reg.db.skills[rel].id == id
    ensures View(reg.db) == others[rel := entry.(tests := entry.tests + [Store(s)])]
  {
    assert EntryOf(reg.db, rel) == View(reg.db)[rel] == entry;
    reg.InsertTestRow(rel, id, Store(s));
  }

  /** One test row per scenario. */
  method InsertScenarios(reg: Registry, rel: string, id: int, scenarios: seq<Scenario>, ghost others: Rows,
                         ghost entry: Entry)
    requires reg.Valid() && rel in reg.db.skills && reg.db.skills[rel].id == id
    requires View(reg.db) == others[rel := entry.(tests := [])]
    modifies reg
    ensures reg.Valid() && View(reg.db) == others[rel := entry.(tests := Stored(scenarios))]
  {
    ghost var tests: seq<TestColumns> := [];
    for i := 0 to |scenarios|
      invariant reg.Valid() && rel in reg.db.skills && reg.db.skills[rel].id == id
      invariant tests == Stored(scenarios[..i]) && View(reg.db) == others[rel := entry.(tests := tests)]
    {
      InsertScenario(reg, rel, id, scenarios[i], others, entry.(tests := tests));
      StoredOneMore(scenarios, i);
      tests := tests + [Store(scenarios[i])];
    }
    assert scenarios[..|scenarios|] == scenarios;
  }

  lemma StoredOneMore(scenarios: seq<Scenario>, i: nat)
    requires i < |scenarios|
    ensures Stored(scenarios[..i + 1]) == Stored(scenarios[..i]) + [Store(scenarios[i])]
  {
  }

  /** Upsert, then replace the test rows one by one. */
  method ApplySkillFiles(reg: Registry, rel: string, doc: Doc)
    requires reg.Valid()
    modifies reg
    ensures reg.Valid() && View(reg.db) == View(old(reg.db))[rel := EntryFor(rel, doc)]
  {
    ghost var was := View(reg.db);
    var id := InsertWithoutTests(reg, rel, doc);
    InsertScenarios(reg, rel, id, doc.scenarios, was, EntryFor(rel, doc));
  }

  method SyncOne(reg: Registry, tree: Tree, rel: string)
    requires reg.Valid()
    modifies reg
    ensures reg.Valid() && View(reg.db) == Synced(View(old(reg.db)), tree, rel)
  {
    if rel !in tree {
      reg.DeleteSkillByPath(rel);
    } else if Anchor(rel).Some? && tree[rel].Readable? {
      ApplySkillFiles(reg, rel, tree[rel].doc);
    }
  }

  /** Lists the agent rows and deletes, one by one, those that qualify. */
  method DeleteAgents(reg: Registry, drop: string -> bool)
    requires reg.Valid()
    modifies reg
    ensures reg.Valid() && View(reg.db) == DropAgents(View(old(reg.db)), drop)
  {
    ghost var was := View(reg.db);
    var paths := reg.PathsBySource("agent");
    assert forall p :: p in paths <==> p in Elements(paths);
    DeleteAll(reg, paths, drop);
    assert View(reg.db) == DropAgents(was, drop);
  }

  method DeleteAll(reg: Registry, paths: seq<string>, drop: string -> bool)
    requires reg.Valid()
    modifies reg
    ensures reg.Valid() && View(reg.db) == Minus(View(old(reg.db)), paths, drop)
  {
    ghost var was := View(reg.db);
    for i := 0 to |paths|
      invariant reg.Valid() && View(reg.db) == Minus(was, paths[..i], drop)
    {
      MinusOneMore(was, paths, drop, i);
      if drop(paths[i]) { reg.DeleteSkillByPath(paths[i]); }
    }
    assert paths[..|paths|] == paths;
  }

  ghost function Minus(rows: Rows, paths: seq<string>, drop: string -> bool): Rows {
    map p | p in rows && !(p in paths && drop(p)) :: rows[p]
  }

  lemma MinusOneMore(rows: Rows, paths: seq<string>, drop: string -> bool, i: nat)
    requires i < |paths|
    ensures Minus(rows, paths[..i + 1], drop) ==
      if drop(paths[i]) then Minus(rows, paths[..i], drop) - {paths[i]} else Minus(rows, paths[..i], drop)
  {
    assert paths[..i + 1] == paths[..i] + [paths[i]];
  }

  method ForgetMissing(reg: Registry, tree: Tree, dir: string)
    requires reg.Valid()
    modifies reg
    ensures reg.Valid() && View(reg.db) == Forgotten(View(old(reg.db)), tree, dir)
  {
    DeleteAgents(reg, p => Under(dir, p) && p !in tree);
  }

  /** One upsert per discovered skill, in any order. */
  method ApplyAll(reg: Registry, docs: map<string, Doc>)
    requires reg.Valid()
    modifies reg
    ensures reg.Valid() && View(reg.db) == View(old(reg.db)) + Entries(docs)
  {
    ghost var was, entries := View(reg.db), Entries(docs);
    var todo := docs.Keys;
    NothingDone(was, entries);
    while todo != {}
      invariant reg.Valid() && todo <= docs.Keys && View(reg.db) == was + (entries - todo)
      decreases todo
    {
      var rel :| rel in todo;
      ApplyOne(reg, rel, docs, was, entries - todo);
      OneMoreDone(entries, todo, rel);
      todo := todo - {rel};
    }
    assert entries - {} == entries;
  }

  lemma NothingDone<K, V>(was: map<K, V>, entries: map<K, V>)
    ensures was + (entries - entries.Keys) == was
  {
  }

  lemma OneMoreDone<K, V>(entries: map<K, V>, todo: set<K>, k: K)
    requires k in todo && k in entries
    ensures (entries - todo)[k := entries[k]] == entries - (todo - {k})
  {
  }

  method ApplyOne(reg: Registry, rel: string, docs: map<string, Doc>, ghost was: Rows, ghost done: Rows)
    requires reg.Valid() && rel in docs && View(reg.db) == was + done
    modifies reg
    ensures reg.Valid() && View(reg.db) == was + done[rel := Entries(docs)[rel]]
  {
    Overlaid(was, done, rel, Entries(docs)[rel]);
    ApplySkillFiles(reg, rel, docs[rel]);
  }

  lemma Overlaid<K, V>(below: map<K, V>, above: map<K, V>, k: K, v: V)
    ensures (below + above)[k := v] == below + above[k := v]
  {
  }

  method SyncDiscovered(reg: Registry, tree: Tree)
    requires reg.Valid()
    modifies reg
    ensures reg.Valid() && View(reg.db) == Rescanned(View(old(reg.db)), tree)
  {
    var docs := Discovered(tree);
    RescannedCases(View(reg.db), tree);
    ApplyAll(reg, docs);
    if NoErrors(tree) { DeleteAgents(reg, p => p !in docs); }
  }

  lemma RescannedCases(rows: Rows, tree: Tree)
    ensures var docs := Discovered(tree);
      Rescanned(rows, tree) ==
        if NoErrors(tree) then DropAgents(rows + Entries(docs), p => p !in docs) else rows + Entries(docs)
  {
  }

  /** The scenarios of a parsed test file can be read back from the rows of its skill. */
  lemma ScenariosReadBack(rel: string, doc: Doc, text: string, i: nat)
    requires doc.scenarios == Parse(text).kept && i < |doc.scenarios|
    ensures |EntryFor(rel, doc).tests| == |doc.scenarios| && Load(EntryFor(rel, doc).tests[i]) == doc.scenarios[i]
  {
    KeptScenariosSurvive(text);
  }

  // ---- Jobs against a rescan ----

  datatype Job = Sync(rel: string) | Forget(dir: string)

  function RunJob(rows: Rows, tree: Tree, job: Job): Rows {
    match job
    case Sync(rel) => Synced(rows, tree, rel)
    case Forget(dir) => Forgotten(rows, tree, dir)
  }

  function RunJobs(rows: Rows, tree: Tree, jobs: seq<Job>): Rows
    decreases |jobs|
  {
    if jobs == [] then rows else RunJobs(RunJob(rows, tree, jobs[0]), tree, jobs[1..])
  }

  function Row(rows: Rows, p: string): Option<Entry> {
    if p in rows then Some(rows[p]) else None
  }

  function SyncedRow(row: Option<Entry>, tree: Tree, p: string): Option<Entry> {
    if p !in tree then None
    else if Anchor(p).None? || !tree[p].Readable? then row
    else Some(EntryFor(p, tree[p].doc))
  }

  function ForgottenRow(row: Option<Entry>, tree: Tree, p: string): Option<Entry> {
    if row.Some? && IsAgent(row.value) && p !in tree then None else row
  }

  predicate ForgetCovers(jobs: seq<Job>, p: string) {
    exists i :: 0 <= i < |jobs| && jobs[i].Forget? && Under(jobs[i].dir, p)
  }

  /** Order and repetition do not matter: a row ends up as its own jobs say. */
  lemma {:induction false} RunJobsAt(rows: Rows, tree: Tree, jobs: seq<Job>, p: string)
    ensures Row(RunJobs(rows, tree, jobs), p) ==
      if Sync(p) in jobs then SyncedRow(Row(rows, p), tree, p)
      else if ForgetCovers(jobs, p) then ForgottenRow(Row(rows, p), tree, p)
      else Row(rows, p)
    decreases |jobs|
  {
    if jobs != [] {
      RunJobsAt(RunJob(rows, tree, jobs[0]), tree, jobs[1..], p);
      assert jobs == [jobs[0]] + jobs[1..];
      FirstCovers(jobs, p);
    }
  }

  lemma FirstCovers(jobs: seq<Job>, p: string)
    requires jobs != []
    ensures ForgetCovers(jobs, p) <==> (jobs[0].Forget? && Under(jobs[0].dir, p)) || ForgetCovers(jobs[1..], p)
  {
    if i :| 0 <= i < |jobs[1..]| && jobs[1..][i].Forget? && Under(jobs[1..][i].dir, p) {
      assert jobs[i + 1] == jobs[1..][i];
    }
    if i :| 0 <= i < |jobs| && jobs[i].Forget? && Under(jobs[i].dir, p) {
      if i > 0 { assert jobs[1..][i - 1] == jobs[i]; }
    }
  }

  /** The rows are what a clean scan of the tree leaves. */
  ghost predicate InSync(rows: Rows, tree: Tree) {
    && (forall p :: p in Discovered(tree) ==> p in rows && rows[p] == EntryFor(p, Discovered(tree)[p]))
    && (forall p :: p in rows && IsAgent(rows[p]) ==> p in tree && Visible(p))
  }

  /** A scan without errors brings any rows in line, and leaves every row of another source
      alone unless a skill file lies at its path. */
  lemma RescanBringsInSync(rows: Rows, tree: Tree)
    requires NoErrors(tree)
    ensures InSync(Rescanned(rows, tree), tree)
    ensures forall p :: p in rows && !IsAgent(rows[p]) && p !in Discovered(tree) ==>
      p in Rescanned(rows, tree) && Rescanned(rows, tree)[p] == rows[p]
  {
  }

  ghost predicate Changed(was: Tree, now: Tree, p: string) {
    (p in was) != (p in now) || (p in was && was[p] != now[p])
  }

  /** A removed file whose row a job deletes and a scan keeps: a row of another source, or
      any row while some other file cannot be read. */
  ghost predicate Lost(rows: Rows, tree: Tree, jobs: seq<Job>, p: string) {
    && p !in tree && p in rows
    && (if IsAgent(rows[p]) then !NoErrors(tree) && (Sync(p) in jobs || ForgetCovers(jobs, p)) else Sync(p) in jobs)
  }

  /** A file that a job indexes although the scan skips its directory. */
  ghost predicate Extra(tree: Tree, jobs: seq<Job>, p: string) {
    Sync(p) in jobs && p in tree && tree[p].Readable? && Anchor(p).Some? && !Visible(p)
  }

  /** A skill whose test file broke: the scan updates it, a job does not. */
  ghost predicate Stale(rows: Rows, tree: Tree, p: string) {
    && p in tree && Visible(p) && tree[p].BrokenTest?
    && Row(rows, p) != Some(EntryFor(p, tree[p].doc.(scenarios := [])))
  }

  ghost predicate Covered(was: Tree, now: Tree, jobs: seq<Job>) {
    forall p :: Changed(was, now, p) ==> Sync(p) in jobs || (p !in now && ForgetCovers(jobs, p))
  }

  lemma RowAgreesExactly(rows: Rows, was: Tree, now: Tree, jobs: seq<Job>, p: string)
    requires InSync(rows, was) && Covered(was, now, jobs)
    ensures Row(RunJobs(rows, now, jobs), p) == Row(Rescanned(rows, now), p) <==>
      !Lost(rows, now, jobs, p) && !Extra(now, jobs, p) && !Stale(rows, now, p)
  {
    RunJobsAt(rows, now, jobs, p);
    if p in now && Sync(p) in jobs {
      SyncedAgreesExactly(rows, was, now, jobs, p);
    } else if Sync(p) !in jobs {
      UnsyncedAgreesExactly(rows, was, now, jobs, p);
    }
  }

  lemma SyncedAgreesExactly(rows: Rows, was: Tree, now: Tree, jobs: seq<Job>, p: string)
    requires InSync(rows, was) && p in now && Sync(p) in jobs
    ensures SyncedRow(Row(rows, p), now, p) == Row(Rescanned(rows, now), p) <==>
      !Extra(now, jobs, p) && !Stale(rows, now, p)
  {
  }

  lemma UnsyncedAgreesExactly(rows: Rows, was: Tree, now: Tree, jobs: seq<Job>, p: string)
    requires InSync(rows, was) && Covered(was, now, jobs) && Sync(p) !in jobs
    ensures (if ForgetCovers(jobs, p) then ForgottenRow(Row(rows, p), now, p) else Row(rows, p))
         == Row(Rescanned(rows, now), p)
      <==> !Lost(rows, now, jobs, p) && !Stale(rows, now, p)
  {
    assert !Changed(was, now, p) || (p !in now && ForgetCovers(jobs, p));
  }

  /** Running a job for every change, in any order and with repeats, leaves exactly what a
      full rescan leaves, unless a job meets one of the three situations above; and then
      the two do differ. */
  lemma JobsEqualRescan(rows: Rows, was: Tree, now: Tree, jobs: seq<Job>)
    requires InSync(rows, was) && Covered(was, now, jobs)
    ensures RunJobs(rows, now, jobs) == Rescanned(rows, now) <==>
      forall p :: !Lost(rows, now, jobs, p) && !Extra(now, jobs, p) && !Stale(rows, now, p)
  {
    var a, b := RunJobs(rows, now, jobs), Rescanned(rows, now);
    forall p ensures Row(a, p) == Row(b, p) <==>
      !Lost(rows, now, jobs, p) && !Extra(now, jobs, p) && !Stale(rows, now, p)
    {
      RowAgreesExactly(rows, was, now, jobs, p);
    }
    if forall p :: !Lost(rows, now, jobs, p) && !Extra(now, jobs, p) && !Stale(rows, now, p) {
      forall p ensures (p in a <==> p in b) && (p in a ==> a[p] == b[p]) {
        assert Row(a, p) == Row(b, p);
      }
      assert a == b;
    }
  }

  /** Rows of other sources at paths no job names are untouched by any jobs. */
  lemma ForeignRowsUntouched(rows: Rows, tree: Tree, jobs: seq<Job>, p: string)
    requires p in rows && !IsAgent(rows[p]) && Sync(p) !in jobs
    ensures Row(RunJobs(rows, tree, jobs), p) == Some(rows[p])
  {
    RunJobsAt(rows, tree, jobs, p);
  }

  // ---- Paths and rows in terms of directories and files ----

  predicate ToolDirectory(part: string) {
    || part == ".agents" || part == ".claude" || part == ".codex"
    || part == ".cursor" || part == ".gemini" || part == ".github"
  }

  lemma SplitJoined(parts: seq<string>)
    requires parts != [] && forall p :: p in parts ==> Component(p)
    ensures HostToSlash(Join(parts, "/")) == Join(parts, "/") && Split(Join(parts, "/"), '/') == parts
  {
    JoinedHasNoBackslash(parts);
    assert forall p :: p in parts ==> Component(p) && '/' !in p;
    SplitAfterJoinClean(parts, '/');
  }

  /** A scan finds exactly the files named SKILL.md below the skills directory of some tool, unless
      a directory on the way is skipped. */
  lemma VisibleExactly(parts: seq<string>)
    requires parts != [] && forall p :: p in parts ==> Component(p)
    ensures Visible(Join(parts, "/")) <==>
      && parts[|parts| - 1] == "SKILL.md"
      && ".git" !in parts && ".skillex" !in parts && "node_modules" !in parts
      && exists i :: 0 <= i < |parts| - 1 && ToolDirectory(parts[i]) && parts[i + 1] == "skills"
  {
    SplitJoined(parts);
    VisibleOf(Join(parts, "/"), parts);
    ToolsExactly();
    if i :| 0 <= i < |parts| - 1 && ToolDirectory(parts[i]) && parts[i + 1] == "skills" {
      assert OwnsSkills(parts, i);
    }
  }

  /** The owner of a skill is what precedes the first skills directory of a tool. */
  lemma AnchorExactly(parts: seq<string>, i: nat)
    requires i < |parts| - 1 && (forall p :: p in parts ==> Component(p))
    requires ToolDirectory(parts[i]) && parts[i + 1] == "skills"
    requires forall j :: 0 <= j < i ==> !(ToolDirectory(parts[j]) && parts[j + 1] == "skills")
    ensures Anchor(Join(parts, "/")) == Some(Join(parts[..i], "/"))
  {
    SplitJoined(parts);
    ToolsExactly();
    FirstOwner(Join(parts, "/"), parts, i);
  }

  lemma FirstOwner(rel: string, parts: seq<string>, i: nat)
    requires Split(HostToSlash(rel), '/') == parts && OwnsSkills(parts, i)
    requires forall j: nat :: j < i ==> !OwnsSkills(parts, j)
    ensures Anchor(rel) == Some(Join(parts[..i], "/"))
  {
  }

  lemma ToolsExactly()
    ensures forall part :: part in PARENTS <==> ToolDirectory(part)
  {
  }

  lemma VisibleOf(rel: string, parts: seq<string>)
    requires Split(rel, '/') == parts && Split(HostToSlash(rel), '/') == parts
    ensures Visible(rel) <==>
      && parts[|parts| - 1] == "SKILL.md"
      && ".git" !in parts && ".skillex" !in parts && "node_modules" !in parts
      && exists i: nat :: OwnsSkills(parts, i)
  {
  }

  /** A directory is forgotten together with everything below it, and nothing beside it. */
  lemma UnderExactly(dir: seq<string>, parts: seq<string>)
    requires dir != [] && parts != []
    requires (forall p :: p in dir ==> Component(p)) && forall p :: p in parts ==> Component(p)
    ensures Under(Join(dir, "/"), Join(parts, "/")) <==> dir <= parts
  {
    SplitJoined(dir);
    SplitJoined(parts);
    var d, p := Join(dir, "/"), Join(parts, "/");
    if d + "/" <= p {
      assert forall q :: q in parts ==> Component(q) && '/' !in q;
      var i := CutAtSlash(parts, d + "/");
      var head := parts[..i];
      assert (d + "/")[..|d|] == d && (Join(head, "/") + "/")[..|d|] == Join(head, "/");
      SplitJoined(head);
    }
    if dir <= parts && dir != parts {
      assert parts[..|dir|] == dir;
      JoinOfPrefix(parts, |dir|);
    }
  }

  /** What a synced row holds, from the file and its place: the file's own text, description,
      topics and tags, the name it states or else its directory, its scopes as placed, and one
      test row per scenario. */
  lemma SyncedRowHolds(parts: seq<string>, doc: Doc)
    requires |parts| >= 2 && forall p :: p in parts ==> Component(p)
    ensures var rel, dir := Join(parts, "/"), parts[|parts| - 2]; var e := EntryFor(rel, doc);
      && e.cols == Columns(doc.content, e.cols.name, doc.description, "", "", "repo", "agent")
      && (e.cols.name == if exists c :: c in doc.name && !IsSpace(c) then doc.name
                         else if dir == "skills" then "" else dir)
      && e.topics == doc.topics && e.tags == doc.tags
      && |e.tests| == |doc.scenarios| && (forall i :: 0 <= i < |e.tests| ==> e.tests[i] == Store(doc.scenarios[i]))
      && |e.scopes| == |ScopesFor(rel, doc.globs)|
      && forall i :: 0 <= i < |e.scopes| ==> e.scopes[i] == IndexScope(ScopesFor(rel, doc.globs)[i])
  {
    SplitJoined(parts);
    HoldsAt(Join(parts, "/"), parts, doc);
  }

  lemma HoldsAt(rel: string, parts: seq<string>, doc: Doc)
    requires |parts| >= 2 && Split(rel, '/') == parts
    ensures var dir, e := parts[|parts| - 2], EntryFor(rel, doc);
      && e.cols == Columns(doc.content, e.cols.name, doc.description, "", "", "repo", "agent")
      && (e.cols.name == if exists c :: c in doc.name && !IsSpace(c) then doc.name
                         else if dir == "skills" then "" else dir)
  {
    OnlySpaces(doc.name);
  }

  // ---- The three situations occur ----

  predicate Component(part: string) {
    part != "" && '/' !in part && '\\' !in part
  }

  lemma {:induction false} JoinedHasNoBackslash(parts: seq<string>)
    requires forall p :: p in parts ==> Component(p)
    ensures '\\' !in Join(parts, "/")
  {
    if parts != [] {
      assert parts[0] in parts;
      if |parts| > 1 { JoinedHasNoBackslash(parts[1..]); }
    }
  }

  lemma ShownOrHidden(rel: string, parts: seq<string>)
    requires rel == Join(parts, "/") && |parts| > 1 && (forall p :: p in parts ==> Component(p)) && OwnsSkills(parts, 0)
    ensures Anchor(rel).Some?
    ensures Visible(rel) <==> VisibleParts(parts)
  {
    SplitJoined(parts);
    FirstOwner(rel, parts, 0);
  }

  lemma KnownComponents()
    ensures Component(".cursor") && Component("skills") && Component("node_modules") && Component("SKILL.md")
    ensures ".cursor" in PARENTS && !Skipped(".cursor") && !Skipped("skills") && !Skipped("SKILL.md")
  {
  }

  /** A skill of a tool, in the directory of the given name. */
  function SkillPath(name: string): string {
    Join([".cursor", "skills", name, "SKILL.md"], "/")
  }

  /** The same inside a directory that scans skip. It lies below a watched root, and the walk
      over a directory that was just created does not skip that directory itself. */
  function SkippedPath(name: string): string {
    Join([".cursor", "skills", "node_modules", name, "SKILL.md"], "/")
  }

  lemma SkillPathIsVisible(name: string)
    requires Component(name) && !Skipped(name)
    ensures Visible(SkillPath(name))
  {
    var parts := [".cursor", "skills", name, "SKILL.md"];
    KnownComponents();
    assert OwnsSkills(parts, 0);
    ShownOrHidden(SkillPath(name), parts);
  }

  lemma SkippedPathIsHidden(name: string)
    requires Component(name)
    ensures Anchor(SkippedPath(name)).Some? && !Visible(SkippedPath(name))
  {
    var parts := [".cursor", "skills", "node_modules", name, "SKILL.md"];
    KnownComponents();
    assert OwnsSkills(parts, 0) && parts[2] in parts;
    ShownOrHidden(SkippedPath(name), parts);
  }

  /** A row of another source at the path of a skill that appeared and went again: a job
      deletes it, a scan keeps it. */
  lemma LostHappens(name: string, foreign: Entry)
    requires Component(name) && !Skipped(name) && !IsAgent(foreign)
    ensures var p := SkillPath(name); var rows: Rows := map[p := foreign]; var jobs := [Sync(p)];
      && Visible(p) && InSync(rows, map[]) && Covered(map[], map[], jobs) && Lost(rows, map[], jobs, p)
      && RunJobs(rows, map[], jobs) != Rescanned(rows, map[])
  {
    SkillPathIsVisible(name);
    var p := SkillPath(name);
    JobsEqualRescan(map[p := foreign], map[], map[], [Sync(p)]);
  }

  /** A skill file in a skipped directory that is created below a root: a job indexes it. */
  lemma ExtraHappens(name: string, doc: Doc)
    requires Component(name)
    ensures var p := SkippedPath(name); var now: Tree := map[p := Readable(doc)]; var jobs := [Sync(p)];
      && InSync(map[], map[]) && Covered(map[], now, jobs) && Extra(now, jobs, p)
      && RunJobs(map[], now, jobs) != Rescanned(map[], now)
  {
    SkippedPathIsHidden(name);
    var p := SkippedPath(name);
    JobsEqualRescan(map[], map[], map[p := Readable(doc)], [Sync(p)]);
  }

  lemma OneSkillInSync(p: string, doc: Doc)
    requires Visible(p)
    ensures InSync(map[p := EntryFor(p, doc)], map[p := Readable(doc)])
  {
    var was: Tree := map[p := Readable(doc)];
    assert Discovered(was) == map[p := doc];
  }

  lemma StaleAt(p: string, doc: Doc, changed: Doc)
    requires Visible(p) && doc.content != changed.content
    ensures var was: Tree, now: Tree := map[p := Readable(doc)], map[p := BrokenTest(changed)];
      var rows: Rows := map[p := EntryFor(p, doc)]; var jobs := [Sync(p)];
      && InSync(rows, was) && Covered(was, now, jobs) && Stale(rows, now, p)
      && RunJobs(rows, now, jobs) != Rescanned(rows, now)
  {
    var was: Tree, now: Tree := map[p := Readable(doc)], map[p := BrokenTest(changed)];
    OneSkillInSync(p, doc);
    assert EntryFor(p, doc).cols.content == doc.content;
    assert EntryFor(p, changed.(scenarios := [])).cols.content == changed.content;
    JobsEqualRescan(map[p := EntryFor(p, doc)], was, now, [Sync(p)]);
  }

  /** A skill that changes while its test file breaks: a job leaves the old row. */
  lemma StaleHappens(name: string, doc: Doc, changed: Doc)
    requires Component(name) && !Skipped(name) && doc.content != changed.content
    ensures var p := SkillPath(name);
      var was: Tree, now: Tree := map[p := Readable(doc)], map[p := BrokenTest(changed)];
      var rows: Rows := map[p := EntryFor(p, doc)]; var jobs := [Sync(p)];
      && InSync(rows, was) && Covered(was, now, jobs) && Stale(rows, now, p)
      && RunJobs(rows, now, jobs) != Rescanned(rows, now)
  {
    SkillPathIsVisible(name);
    StaleAt(SkillPath(name), doc, changed);
  }
}
