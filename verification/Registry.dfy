/** The skill tables and the operations that keep them: upsert by path, cascading delete,
    test rows, and the lookup of skills by path through the scope index. */
module Registry {
  import opened Strings
  import opened Order
  import opened PathIndex
  import opened Glob

  datatype Columns = Columns(content: string, name: string, description: string, packageName: string,
                             packageVersion: string, visibility: string, sourceType: string)
  datatype IndexedScope = IndexedScope(scope: string, key: IndexKey)
  datatype TestColumns = TestColumns(name: string, prompt: string, extraSkills: string, criteria: string)

  /** A row of a child table, owned by the skill with id `skillId`. */
  datatype Owned<V> = Owned(skillId: int, value: V)

  /** A row of the skill table, which is keyed by its unique path. */
  datatype SkillRow = SkillRow(id: int, cols: Columns)

  datatype Tables = Tables(skills: map<string, SkillRow>, topics: seq<Owned<string>>, tags: seq<Owned<string>>,
                           scopes: seq<Owned<IndexedScope>>, tests: seq<Owned<TestColumns>>, nextId: int)

  /** What a caller inserts. */
  datatype Skill = Skill(path: string, cols: Columns, topics: seq<string>, tags: seq<string>, scopes: seq<string>)

  /** Everything stored under one path. */
  datatype Entry = Entry(cols: Columns, topics: seq<string>, tags: seq<string>,
                         scopes: seq<IndexedScope>, tests: seq<TestColumns>)
  datatype Found = Found(path: string, id: int, entry: Entry)

  function Of<V>(rows: seq<Owned<V>>, id: int): seq<V> {
    if rows == [] then []
    else if rows[0].skillId == id then [rows[0].value] + Of(rows[1..], id)
    else Of(rows[1..], id)
  }

  function Without<V>(rows: seq<Owned<V>>, id: int): seq<Owned<V>> {
    if rows == [] then []
    else if rows[0].skillId == id then Without(rows[1..], id)
    else [rows[0]] + Without(rows[1..], id)
  }

  function Own<V>(id: int, values: seq<V>): seq<Owned<V>> {
    seq(|values|, i requires 0 <= i < |values| => Owned(id, values[i]))
  }

  function IndexScope(scope: string): IndexedScope {
    var (kind, prefix) := ClassifyScope(scope);
    IndexedScope(scope, IndexKey(kind, prefix))
  }

  function IndexScopes(scopes: seq<string>): seq<IndexedScope> {
    seq(|scopes|, i requires 0 <= i < |scopes| => IndexScope(scopes[i]))
  }

  lemma {:induction false} OfMember<V>(rows: seq<Owned<V>>, id: int, v: V)
    ensures v in Of(rows, id) <==> Owned(id, v) in rows
  {
    if rows != [] {
      OfMember(rows[1..], id, v);
      assert rows == [rows[0]] + rows[1..];
    }
  }

  lemma {:induction false} OfConcat<V>(a: seq<Owned<V>>, b: seq<Owned<V>>, id: int)
    ensures Of(a + b, id) == Of(a, id) + Of(b, id)
  {
    if a == [] {
      assert a + b == b;
    } else {
      OfConcat(a[1..], b, id);
      assert (a + b)[1..] == a[1..] + b;
    }
  }

  lemma {:induction false} OfWithout<V>(rows: seq<Owned<V>>, gone: int, id: int)
    ensures Of(Without(rows, gone), id) == (if id == gone then [] else Of(rows, id))
    ensures forall r :: r in Without(rows, gone) ==> r in rows && r.skillId != gone
    ensures forall r :: r in rows && r.skillId != gone ==> r in Without(rows, gone)
  {
    if rows != [] {
      OfWithout(rows[1..], gone, id);
      assert rows == [rows[0]] + rows[1..];
    }
  }

  lemma {:induction false} OfOwn<V>(owner: int, values: seq<V>, id: int)
    ensures Of(Own(owner, values), id) == (if id == owner then values else [])
  {
    if values != [] {
      OfOwn(owner, values[1..], id);
      assert Own(owner, values)[1..] == Own(owner, values[1..]);
      assert values == [values[0]] + values[1..];
    }
  }

  lemma {:induction false} OfNobody<V>(rows: seq<Owned<V>>, id: int)
    requires forall r :: r in rows ==> r.skillId != id
    ensures Of(rows, id) == []
  {
    if rows != [] { OfNobody(rows[1..], id); }
  }

  /** Replacing the rows of one owner: that owner gets the new values, nobody else changes. */
  lemma OfReplaced<V>(rows: seq<Owned<V>>, owner: int, values: seq<V>, id: int)
    ensures Of(Without(rows, owner) + Own(owner, values), id) == (if id == owner then values else Of(rows, id))
  {
    OfConcat(Without(rows, owner), Own(owner, values), id);
    OfWithout(rows, owner, id);
    OfOwn(owner, values, id);
  }

  ghost predicate HasId(skills: map<string, SkillRow>, id: int) {
    exists p :: p in skills && skills[p].id == id
  }

  ghost predicate OwnersExist<V>(rows: seq<Owned<V>>, skills: map<string, SkillRow>) {
    forall r :: r in rows ==> HasId(skills, r.skillId)
  }

  /** Unique and fresh ids, foreign keys, and scope rows that carry an index key or the
      defaults of a migrated table. */
  ghost predicate WellFormed(db: Tables) {
    && (forall p, q :: p in db.skills && q in db.skills && db.skills[p].id == db.skills[q].id ==> p == q)
    && (forall p :: p in db.skills ==> db.skills[p].id < db.nextId)
    && OwnersExist(db.topics, db.skills) && OwnersExist(db.tags, db.skills)
    && OwnersExist(db.scopes, db.skills) && OwnersExist(db.tests, db.skills)
    && (forall r :: r in db.scopes ==> Indexed(r.value.key, r.value.scope))
  }

  function EntryOf(db: Tables, p: string): Entry
    requires p in db.skills
  {
    var id := db.skills[p].id;
    Entry(db.skills[p].cols, Of(db.topics, id), Of(db.tags, id), Of(db.scopes, id), Of(db.tests, id))
  }

  /** The tables seen as one map from path to everything stored there; ids are hidden. */
  function View(db: Tables): map<string, Entry> {
    map p | p in db.skills :: EntryOf(db, p)
  }

  function RowOf(db: Tables, p: string): Found
    requires p in db.skills
  {
    Found(p, db.skills[p].id, EntryOf(db, p))
  }

  ghost function Paths(rows: seq<Found>): seq<string> {
    seq(|rows|, i requires 0 <= i < |rows| => rows[i].path)
  }

  /** The skills a plain scan of all scopes would select. */
  predicate ScanHit(e: Entry, path: string) {
    exists sc :: sc in e.scopes && Match(ToSlash(sc.scope), path)
  }

  predicate IndexHit(e: Entry, path: string) {
    exists sc :: sc in e.scopes && RowHit(sc.key, sc.scope, path)
  }

  /** A literal scope with a trailing slash, above the path. */
  predicate DirectoryHit(e: Entry, path: string) {
    exists sc :: sc in e.scopes && NamesDirectory(sc.key, sc.scope) && ToSlash(sc.scope) <= path
  }

  /** Index against glob, per skill: the index selects what the scan selects, plus the
      skills that name a directory above the path. */
  lemma IndexHitExactly(db: Tables, p: string, path: string)
    requires WellFormed(db) && p in db.skills && path != ""
    ensures IndexHit(EntryOf(db, p), path) <==> ScanHit(EntryOf(db, p), path) || DirectoryHit(EntryOf(db, p), path)
  {
    var e := EntryOf(db, p);
    forall sc | sc in e.scopes
      ensures RowHit(sc.key, sc.scope, path) <==>
        Match(ToSlash(sc.scope), path) || (NamesDirectory(sc.key, sc.scope) && ToSlash(sc.scope) <= path)
    {
      OfMember(db.scopes, db.skills[p].id, sc);
      RowHitExactly(sc.key, sc.scope, path);
    }
  }

  /** For one query path, index and scan select the same skills exactly when every skill
      that names a directory above the path also matches it in some other way. */
  lemma IndexEqualsScan(db: Tables, path: string)
    requires WellFormed(db) && path != ""
    ensures (set p | p in db.skills && IndexHit(EntryOf(db, p), path))
         == (set p | p in db.skills && ScanHit(EntryOf(db, p), path))
      <==> forall p :: p in db.skills && DirectoryHit(EntryOf(db, p), path) ==> ScanHit(EntryOf(db, p), path)
  {
    forall p | p in db.skills
      ensures IndexHit(EntryOf(db, p), path) <==> ScanHit(EntryOf(db, p), path) || DirectoryHit(EntryOf(db, p), path)
    {
      IndexHitExactly(db, p, path);
    }
    var index := set p | p in db.skills && IndexHit(EntryOf(db, p), path);
    var scan := set p | p in db.skills && ScanHit(EntryOf(db, p), path);
    if index == scan {
      forall p | p in db.skills && DirectoryHit(EntryOf(db, p), path) ensures ScanHit(EntryOf(db, p), path) {
        assert p in index;
      }
    }
  }

  /** One INSERT per value. */
  method InsertOwned<V>(rows: seq<Owned<V>>, id: int, values: seq<V>) returns (result: seq<Owned<V>>)
    ensures result == rows + Own(id, values)
  {
    result := rows;
    for i := 0 to |values|
      invariant result == rows + Own(id, values[..i])
    {
      result := result + [Owned(id, values[i])];
      assert Own(id, values[..i + 1]) == Own(id, values[..i]) + [Owned(id, values[i])];
    }
    assert values[..|values|] == values;
  }

  /** WHERE label IN (labels) GROUP BY skill_id HAVING COUNT(DISTINCT label) = |labels| */
  function OwnersOfAll(rows: seq<Owned<string>>, labels: seq<string>): set<int> {
    set r | r in rows && r.value in labels && |Held(rows, r.skillId, labels)| == |labels| :: r.skillId
  }

  function Held(rows: seq<Owned<string>>, id: int, labels: seq<string>): set<string> {
    set r | r in rows && r.skillId == id && r.value in labels :: r.value
  }

  lemma HeldCount(rows: seq<Owned<string>>, id: int, labels: seq<string>)
    ensures |Held(rows, id, labels)| == |labels| <==>
      Distinct(labels) && forall l :: l in labels ==> Owned(id, l) in rows
  {
    var held, wanted := Held(rows, id, labels), Elements(labels);
    DistinctCount(labels);
    assert forall l :: l in held <==> l in wanted && Owned(id, l) in rows;
    if |held| == |labels| { SubsetOfSameSize(held, wanted); }
    if forall l :: l in labels ==> Owned(id, l) in rows { assert held == wanted; }
  }

  /** Counting distinct labels finds the owners of all of them, provided the caller did not
      repeat a label; with a repeated label the count is never reached. */
  lemma OwnersOfAllExactly(rows: seq<Owned<string>>, labels: seq<string>, id: int)
    requires labels != []
    ensures id in OwnersOfAll(rows, labels) <==> Distinct(labels) && forall l :: l in labels ==> l in Of(rows, id)
  {
    HeldCount(rows, id, labels);
    forall l ensures l in Of(rows, id) <==> Owned(id, l) in rows { OfMember(rows, id, l); }
    if |Held(rows, id, labels)| == |labels| {
      assert labels[0] in labels && Owned(id, labels[0]) in rows;
    }
  }

  /** A filter that is absent does not restrict. */
  ghost predicate HasAll(labels: seq<string>, held: seq<string>) {
    labels != [] ==> Distinct(labels) && forall l :: l in labels ==> l in held
  }

  ghost predicate ClassicHit(e: Entry, pkg: string, topics: seq<string>, tags: seq<string>) {
    && HasAll(topics, e.topics) && HasAll(tags, e.tags)
    && (pkg != "" ==> e.cols.packageName == pkg)
  }

  function OwnersOfPackage(db: Tables, pkg: string): set<int> {
    set p | p in db.skills && db.skills[p].cols.packageName == pkg :: db.skills[p].id
  }

  /** The id sets of the three filters, read as conditions on a skill's entry. */
  lemma FilterMeaning(db: Tables, pkg: string, topics: seq<string>, tags: seq<string>, p: string)
    requires WellFormed(db) && p in db.skills
    ensures topics != [] ==>
      (db.skills[p].id in OwnersOfAll(db.topics, topics) <==> HasAll(topics, EntryOf(db, p).topics))
    ensures tags != [] ==> (db.skills[p].id in OwnersOfAll(db.tags, tags) <==> HasAll(tags, EntryOf(db, p).tags))
    ensures db.skills[p].id in OwnersOfPackage(db, pkg) <==> EntryOf(db, p).cols.packageName == pkg
  {
    if topics != [] { OwnersOfAllExactly(db.topics, topics, db.skills[p].id); }
    if tags != [] { OwnersOfAllExactly(db.tags, tags, db.skills[p].id); }
  }

  class Registry {
    var db: Tables

    ghost predicate Valid() reads this {
      WellFormed(db)
    }

    constructor ()
      ensures Valid() && View(db) == map[]
    {
      db := Tables(map[], [], [], [], [], 1);
    }

    /** Opens tables written by any earlier version; WellFormed admits migrated scope rows. */
    constructor Open(stored: Tables)
      requires WellFormed(stored)
      ensures Valid() && db == stored
    {
      db := stored;
    }

    /** Upsert by path. The children are replaced, the test rows are kept. */
    method InsertSkill(s: Skill) returns (id: int)
      requires Valid()
      modifies this
      ensures Valid() && s.path in db.skills && db.skills[s.path].id == id
      ensures View(db) == View(old(db))[s.path := Entry(s.cols, s.topics, s.tags, IndexScopes(s.scopes),
        if s.path in old(db).skills then EntryOf(old(db), s.path).tests else [])]
    {
      if s.path in db.skills {
        id := db.skills[s.path].id;
      } else {
        id := db.nextId;
      }
      var next := if s.path in db.skills then db.nextId else db.nextId + 1;
      var topics := InsertOwned(Without(db.topics, id), id, s.topics);
      var tags := InsertOwned(Without(db.tags, id), id, s.tags);
      var scopes := InsertOwned(Without(db.scopes, id), id, IndexScopes(s.scopes));
      db := Tables(db.skills[s.path := SkillRow(id, s.cols)], topics, tags, scopes, db.tests, next);
      UpsertWellFormed(old(db), db, id, s);
      UpsertView(old(db), db, id, s);
    }

    /** Removes one skill with its children. A missing path is not an error. */
    method DeleteSkillByPath(path: string)
      requires Valid()
      modifies this
      ensures Valid() && View(db) == View(old(db)) - {path}
    {
      if path !in db.skills { return; }
      var id := db.skills[path].id;
      db := Tables(db.skills - {path}, Without(db.topics, id), Without(db.tags, id),
                   Without(db.scopes, id), Without(db.tests, id), db.nextId);
      DeletedWellFormed(old(db), db, path);
      DeletedView(old(db), db, path);
    }

    method DeleteTestsForSkill(path: string, id: int)
      requires Valid() && path in db.skills && db.skills[path].id == id
      modifies this
      ensures Valid() && db.skills == old(db).skills
      ensures View(db) == View(old(db))[path := EntryOf(old(db), path).(tests := [])]
    {
      db := db.(tests := Without(db.tests, id));
      OfWithout(old(db).tests, id, id);
      forall p | p in db.skills
        ensures Of(db.tests, db.skills[p].id) == if p == path then [] else Of(old(db).tests, db.skills[p].id)
      {
        OfWithout(old(db).tests, id, db.skills[p].id);
      }
      TestsRewritten(old(db), db, path, []);
    }

    method InsertTestRow(path: string, id: int, test: TestColumns)
      requires Valid() && path in db.skills && db.skills[path].id == id
      modifies this
      ensures Valid() && db.skills == old(db).skills
      ensures View(db) == View(old(db))[path :=
        EntryOf(old(db), path).(tests := EntryOf(old(db), path).tests + [test])]
    {
      db := db.(tests := db.tests + [Owned(id, test)]);
      ghost var tests := EntryOf(old(db), path).tests + [test];
      forall p | p in db.skills
        ensures Of(db.tests, db.skills[p].id) == if p == path then tests else Of(old(db).tests, db.skills[p].id)
      {
        OfConcat(old(db).tests, [Owned(id, test)], db.skills[p].id);
      }
      TestsRewritten(old(db), db, path, tests);
    }

    /** The paths of one source, in order. */
    method PathsBySource(source: string) returns (paths: seq<string>)
      requires Valid()
      ensures Ascending(paths)
      ensures Elements(paths) == set p | p in db.skills && EntryOf(db, p).cols.sourceType == source
    {
      var rows := SelectOrdered(set p | p in db.skills && EntryOf(db, p).cols.sourceType == source);
      paths := seq(|rows|, i requires 0 <= i < |rows| => rows[i].path);
      assert paths == Paths(rows);
    }

    /** SELECT ... WHERE path IN (paths) ORDER BY path, with every skill's children loaded. */
    method SelectOrdered(paths: set<string>) returns (rows: seq<Found>)
      requires Valid() && paths <= db.skills.Keys
      ensures Ascending(Paths(rows)) && Elements(Paths(rows)) == paths
      ensures forall r :: r in rows ==> r.path in db.skills && r == RowOf(db, r.path)
    {
      rows := [];
      var todo := paths;
      while todo != {}
        invariant todo <= paths && Ascending(Paths(rows)) && Elements(Paths(rows)) == paths - todo
        invariant forall r :: r in rows ==> r.path in db.skills && r == RowOf(db, r.path)
        decreases todo
      {
        var p :| p in todo;
        todo := todo - {p};
        rows := InsertInOrder(rows, RowOf(db, p));
      }
    }

    /** Intersects one id set per filter that is set; no filter at all selects nothing. */
    method Query(pkg: string, topics: seq<string>, tags: seq<string>) returns (rows: seq<Found>)
      requires Valid()
      ensures Distinct(Paths(rows)) && forall r :: r in rows ==> r.path in db.skills && r == RowOf(db, r.path)
      ensures pkg == "" && topics == [] && tags == [] ==> rows == []
      ensures pkg != "" || topics != [] || tags != [] ==>
        Elements(Paths(rows)) == set p | p in db.skills && ClassicHit(EntryOf(db, p), pkg, topics, tags)
    {
      var merged: Option<set<int>> := None;
      if topics != [] { merged := Narrow(merged, OwnersOfAll(db.topics, topics)); }
      if tags != [] { merged := Narrow(merged, OwnersOfAll(db.tags, tags)); }
      if pkg != "" { merged := Narrow(merged, OwnersOfPackage(db, pkg)); }
      if merged.None? { return []; }
      forall p | p in db.skills
        ensures db.skills[p].id in merged.value <==> ClassicHit(EntryOf(db, p), pkg, topics, tags)
      {
        FilterMeaning(db, pkg, topics, tags, p);
      }
      rows := SelectOrdered(set p | p in db.skills && db.skills[p].id in merged.value);
    }

    /** Three lookups into one growing id set, then the rows in path order. */
    method QueryByPath(path: string) returns (rows: seq<Found>)
      requires Valid()
      ensures path == "" ==> rows == []
      ensures Ascending(Paths(rows)) && forall r :: r in rows ==> r.path in db.skills && r == RowOf(db, r.path)
      ensures path != "" ==>
        Elements(Paths(rows)) == set p | p in db.skills && IndexHit(EntryOf(db, p), ToSlash(path))
    {
      if path == "" { return []; }
      var normal := ToSlash(path);
      var prefixes := PathPrefixes(normal);
      var matched: set<int> := {};
      matched := CollectIds(db.scopes, matched, (sc: IndexedScope) => sc.key.kind.Universal?);
      matched := CollectIds(db.scopes, matched,
        (sc: IndexedScope) => (sc.key.kind.Prefix? || sc.key.kind.Exact?) && sc.key.prefix in prefixes);
      matched := CollectIds(db.scopes, matched,
        (sc: IndexedScope) => sc.key.kind.GlobPattern? && ScopeMatches(sc.scope, normal));
      assert forall id :: id in matched <==>
        exists r :: r in db.scopes && r.skillId == id && RowHit(r.value.key, r.value.scope, normal);
      MatchedSkills(db, matched, normal);
      rows := SelectOrdered(set p | p in db.skills && db.skills[p].id in matched);
    }
  }

  /** The first filter provides the candidates; each further one deletes, one by one, the
      candidates it does not have. */
  method Narrow<T(==)>(candidates: Option<set<T>>, ids: set<T>) returns (merged: Option<set<T>>)
    ensures merged == Some(if candidates.None? then ids else candidates.value * ids)
  {
    if candidates.None? { return Some(ids); }
    var kept, todo := candidates.value, candidates.value;
    while todo != {}
      invariant todo <= kept <= candidates.value
      invariant forall id :: id in candidates.value && id !in todo ==> (id in kept <==> id in ids)
      decreases todo
    {
      var id :| id in todo;
      todo := todo - {id};
      if id !in ids { kept := kept - {id}; }
    }
    assert kept == candidates.value * ids;
    return Some(kept);
  }

  /** One pass over the scope table, adding the owners of the rows that hit. */
  method CollectIds(rows: seq<Owned<IndexedScope>>, known: set<int>, hit: IndexedScope -> bool)
    returns (ids: set<int>)
    ensures forall id :: id in ids <==> id in known || exists r :: r in rows && r.skillId == id && hit(r.value)
  {
    ids := known;
    for i := 0 to |rows|
      invariant forall id :: id in ids <==> id in known || exists r :: r in rows[..i] && r.skillId == id && hit(r.value)
    {
      assert forall r :: r in rows[..i + 1] <==> r in rows[..i] || r == rows[i];
      if rows[i].skillId !in ids && hit(rows[i].value) {
        ids := ids + {rows[i].skillId};
      }
    }
    assert rows[..|rows|] == rows;
  }

  method InsertInOrder(rows: seq<Found>, row: Found) returns (result: seq<Found>)
    requires Ascending(Paths(rows)) && row.path !in Elements(Paths(rows))
    ensures Ascending(Paths(result)) && Elements(Paths(result)) == Elements(Paths(rows)) + {row.path}
    ensures forall r :: r in result <==> r in rows || r == row
  {
    TextTotal();
    var at := 0;
    while at < |rows| && TextLe(rows[at].path, row.path)
      invariant at <= |rows|
      invariant forall i :: 0 <= i < at ==> TextLe(Paths(rows)[i], row.path)
    {
      at := at + 1;
    }
    result := rows[..at] + [row] + rows[at..];
    assert Paths(result) == Paths(rows)[..at] + [row.path] + Paths(rows)[at..];
    AscendingAfterInsert(Paths(rows), at, row.path);
    assert rows == rows[..at] + rows[at..];
  }

  lemma AscendingAfterInsert(keys: seq<string>, at: nat, key: string)
    requires at <= |keys| && Ascending(keys) && key !in Elements(keys)
    requires forall i :: 0 <= i < at ==> TextLe(keys[i], key)
    requires at < |keys| ==> !TextLe(keys[at], key)
    ensures Ascending(keys[..at] + [key] + keys[at..])
    ensures Elements(keys[..at] + [key] + keys[at..]) == Elements(keys) + {key}
  {
    TextTotal();
    var result := keys[..at] + [key] + keys[at..];
    forall i | 0 <= i < |keys| ensures keys[i] != key && (i >= at ==> TextLe(key, keys[i])) {
      assert keys[i] in Elements(keys);
      if i >= at { assert TextLe(key, keys[at]) && (i == at || TextLe(keys[at], keys[i])); }
    }
    assert keys == keys[..at] + keys[at..];
  }

  lemma MatchedSkills(db: Tables, matched: set<int>, path: string)
    requires WellFormed(db)
    requires forall id :: id in matched <==>
      exists r :: r in db.scopes && r.skillId == id && RowHit(r.value.key, r.value.scope, path)
    ensures forall p :: p in db.skills ==> (db.skills[p].id in matched <==> IndexHit(EntryOf(db, p), path))
  {
    forall p | p in db.skills ensures db.skills[p].id in matched <==> IndexHit(EntryOf(db, p), path) {
      var id := db.skills[p].id;
      forall sc { OfMember(db.scopes, id, sc); }
      if r :| r in db.scopes && r.skillId == id && RowHit(r.value.key, r.value.scope, path) {
        assert r == Owned(id, r.value);
      }
    }
  }

  ghost predicate Upserted(was: Tables, db: Tables, id: int, s: Skill) {
    && WellFormed(was)
    && (if s.path in was.skills then id == was.skills[s.path].id && db.nextId == was.nextId
        else id == was.nextId && db.nextId == id + 1)
    && db.skills == was.skills[s.path := SkillRow(id, s.cols)] && db.tests == was.tests
    && db.topics == Without(was.topics, id) + Own(id, s.topics)
    && db.tags == Without(was.tags, id) + Own(id, s.tags)
    && db.scopes == Without(was.scopes, id) + Own(id, IndexScopes(s.scopes))
  }

  lemma KeepOwners<V>(rows: seq<Owned<V>>, was: map<string, SkillRow>, now: map<string, SkillRow>)
    requires OwnersExist(rows, was)
    requires forall p :: p in was ==> HasId(now, was[p].id)
    ensures OwnersExist(rows, now)
  {
    forall r | r in rows ensures HasId(now, r.skillId) {
      var p :| p in was && was[p].id == r.skillId;
    }
  }

  lemma OwnersAfterReplace<V>(rows: seq<Owned<V>>, id: int, values: seq<V>, skills: map<string, SkillRow>)
    requires OwnersExist(rows, skills) && HasId(skills, id)
    ensures OwnersExist(Without(rows, id) + Own(id, values), skills)
  {
    OfWithout(rows, id, id);
  }

  lemma UpsertWellFormed(was: Tables, db: Tables, id: int, s: Skill)
    requires Upserted(was, db, id, s)
    ensures WellFormed(db)
  {
    assert db.skills[s.path].id == id;
    forall p | p in was.skills ensures HasId(db.skills, was.skills[p].id) {
      assert p in db.skills && db.skills[p].id == was.skills[p].id;
    }
    KeepOwners(was.topics, was.skills, db.skills);
    KeepOwners(was.tags, was.skills, db.skills);
    KeepOwners(was.scopes, was.skills, db.skills);
    KeepOwners(was.tests, was.skills, db.skills);
    OwnersAfterReplace(was.topics, id, s.topics, db.skills);
    OwnersAfterReplace(was.tags, id, s.tags, db.skills);
    OwnersAfterReplace(was.scopes, id, IndexScopes(s.scopes), db.skills);
    OfWithout(was.scopes, id, id);
  }

  lemma UpsertView(was: Tables, db: Tables, id: int, s: Skill)
    requires Upserted(was, db, id, s)
    ensures View(db) == View(was)[s.path := Entry(s.cols, s.topics, s.tags, IndexScopes(s.scopes),
      if s.path in was.skills then EntryOf(was, s.path).tests else [])]
  {
    if s.path !in was.skills { OfNobody(was.tests, id); }
    forall p | p in db.skills
      ensures EntryOf(db, p) == if p == s.path
        then Entry(s.cols, s.topics, s.tags, IndexScopes(s.scopes),
                   if s.path in was.skills then EntryOf(was, s.path).tests else [])
        else EntryOf(was, p)
    {
      var other := db.skills[p].id;
      OfReplaced(was.topics, id, s.topics, other);
      OfReplaced(was.tags, id, s.tags, other);
      OfReplaced(was.scopes, id, IndexScopes(s.scopes), other);
    }
  }

  /** Rewriting one skill's test rows changes that entry and nothing else. */
  lemma TestsRewritten(was: Tables, db: Tables, path: string, tests: seq<TestColumns>)
    requires path in was.skills && db == was.(tests := db.tests)
    requires forall p, q :: p in was.skills && q in was.skills && was.skills[p].id == was.skills[q].id ==> p == q
    requires forall p :: p in was.skills ==>
      Of(db.tests, was.skills[p].id) == if p == path then tests else Of(was.tests, was.skills[p].id)
    ensures View(db) == View(was)[path := EntryOf(was, path).(tests := tests)]
  {
  }

  ghost predicate Deleted(was: Tables, db: Tables, path: string) {
    && WellFormed(was) && path in was.skills
    && var id := was.skills[path].id;
      db == Tables(was.skills - {path}, Without(was.topics, id), Without(was.tags, id),
                   Without(was.scopes, id), Without(was.tests, id), was.nextId)
  }

  lemma OwnersAfterDelete<V>(rows: seq<Owned<V>>, was: map<string, SkillRow>, path: string)
    requires path in was && OwnersExist(rows, was)
    ensures OwnersExist(Without(rows, was[path].id), was - {path})
  {
    var id := was[path].id;
    var kept := Without(rows, id);
    OfWithout(rows, id, id);
    forall r | r in kept ensures HasId(was - {path}, r.skillId) {
      var p :| p in was && was[p].id == r.skillId;
      assert p in was - {path};
    }
  }

  lemma DeletedWellFormed(was: Tables, db: Tables, path: string)
    requires Deleted(was, db, path)
    ensures WellFormed(db)
  {
    OwnersAfterDelete(was.topics, was.skills, path);
    OwnersAfterDelete(was.tags, was.skills, path);
    OwnersAfterDelete(was.scopes, was.skills, path);
    OwnersAfterDelete(was.tests, was.skills, path);
    OfWithout(was.scopes, was.skills[path].id, 0);
  }

  lemma DeletedView(was: Tables, db: Tables, path: string)
    requires Deleted(was, db, path)
    ensures View(db) == View(was) - {path}
  {
    var id := was.skills[path].id;
    forall p | p in db.skills ensures EntryOf(db, p) == EntryOf(was, p) {
      var other := db.skills[p].id;
      OfWithout(was.topics, id, other); OfWithout(was.tags, id, other);
      OfWithout(was.scopes, id, other); OfWithout(was.tests, id, other);
    }
  }
}
