/** The registry fingerprint: every hashed column is written as length, colon, text,
    semicolon, under one tag per section. SHA-256 is an ideal hash, so what matters is the
    buffer: two registries must write the same bytes exactly when they hold the same rows.
    A char stands for one byte. */
module Fingerprint {
  import opened Strings
  import opened Order
  import opened Registry

  type Row = seq<string>

  /** A section: its tag, its number of columns, and the columns its ORDER BY names. */
  datatype Section = Section(tag: string, arity: nat, order: seq<nat>)

  const SECTIONS: seq<Section> := [
    Section("skills;", 6, [0]),
    Section("topics;", 2, [0, 1]),
    Section("tags;", 2, [0, 1]),
    Section("scopes;", 2, [0, 1]),
    Section("tests;", 5, [0, 1, 2, 3, 4]),
    Section("mcp-capabilities;", 18, [0, 2, 4, 5, 14]),
    Section("mcp-bindings;", 7, [0, 1, 2, 3, 4, 5, 6])
  ]

  function Field(s: string): string {
    Itoa(|s|) + ":" + s + ";"
  }

  function Fields(columns: seq<string>): string {
    if columns == [] then "" else Field(columns[0]) + Fields(columns[1..])
  }

  function Flatten(rows: seq<Row>): seq<string> {
    if rows == [] then [] else rows[0] + Flatten(rows[1..])
  }

  /** Sections and their rows, one after the other. */
  function Buffer(sections: seq<Section>, tables: seq<seq<Row>>): string
    requires |tables| == |sections|
  {
    if sections == [] then ""
    else sections[0].tag + (Fields(Flatten(tables[0])) + Buffer(sections[1..], tables[1..]))
  }

  // ---- The writers ----

  class ByteBuffer {
    var data: string

    constructor ()
      ensures data == ""
    {
      data := "";
    }

    method WriteString(s: string)
      modifies this
      ensures data == old(data) + s
    {
      data := data + s;
    }

    method WriteField(s: string)
      modifies this
      ensures data == old(data) + Field(s)
    {
      WriteString(Itoa(|s|));
      WriteString(":");
      WriteString(s);
      WriteString(";");
    }

    method WriteRow(row: Row)
      modifies this
      ensures data == old(data) + Fields(row)
    {
      for j := 0 to |row|
        invariant data == old(data) + Fields(row[..j])
      {
        FieldsSnoc(row[..j], row[j]);
        assert row[..j + 1] == row[..j] + [row[j]];
        WriteField(row[j]);
      }
      assert row[..|row|] == row;
    }

    /** One section: the tag, then every column of every row. */
    method WriteSection(tag: string, rows: seq<Row>)
      modifies this
      ensures data == old(data) + (tag + Fields(Flatten(rows)))
    {
      WriteString(tag);
      ghost var text := "";
      for i := 0 to |rows|
        invariant text == Fields(Flatten(rows[..i])) && data == old(data) + (tag + text)
      {
        RowWritten(rows, i);
        WriteRow(rows[i]);
        Regroup(old(data), tag, text, Fields(rows[i]));
        text := text + Fields(rows[i]);
      }
      assert rows[..|rows|] == rows;
    }

    /** All sections in their fixed order. */
    method WriteTables(sections: seq<Section>, tables: seq<seq<Row>>)
      requires |tables| == |sections|
      modifies this
      ensures data == old(data) + Buffer(sections, tables)
    {
      for i := 0 to |sections|
        invariant data + Buffer(sections[i..], tables[i..]) == old(data) + Buffer(sections, tables)
      {
        BufferFrom(sections, tables, i);
        WriteSection(sections[i].tag, tables[i]);
      }
    }
  }

  lemma BufferFrom(sections: seq<Section>, tables: seq<seq<Row>>, i: nat)
    requires |tables| == |sections| && i < |sections|
    ensures Buffer(sections[i..], tables[i..])
         == (sections[i].tag + Fields(Flatten(tables[i]))) + Buffer(sections[i + 1..], tables[i + 1..])
  {
    assert sections[i..][1..] == sections[i + 1..] && tables[i..][1..] == tables[i + 1..];
  }

  lemma {:induction false} FieldsConcat(a: seq<string>, b: seq<string>)
    ensures Fields(a + b) == Fields(a) + Fields(b)
  {
    if a == [] {
      assert a + b == b;
    } else {
      assert (a + b)[1..] == a[1..] + b;
      FieldsConcat(a[1..], b);
    }
  }

  lemma FieldsSnoc(columns: seq<string>, last: string)
    ensures Fields(columns + [last]) == Fields(columns) + Field(last)
  {
    FieldsConcat(columns, [last]);
    assert [last][1..] == [];
  }

  lemma {:induction false} FlattenSnoc(rows: seq<Row>, last: Row)
    ensures Flatten(rows + [last]) == Flatten(rows) + last
  {
    if rows == [] {
      assert [last][1..] == [];
    } else {
      assert (rows + [last])[1..] == rows[1..] + [last];
      FlattenSnoc(rows[1..], last);
    }
  }

  lemma Regroup(a: string, b: string, c: string, d: string)
    ensures a + (b + c) + d == a + (b + (c + d))
  {
  }

  lemma RowWritten(rows: seq<Row>, i: nat)
    requires i < |rows|
    ensures Fields(Flatten(rows[..i + 1])) == Fields(Flatten(rows[..i])) + Fields(rows[i])
  {
    FlattenSnoc(rows[..i], rows[i]);
    assert rows[..i + 1] == rows[..i] + [rows[i]];
    FieldsConcat(Flatten(rows[..i]), rows[i]);
  }

  // ---- Unique decoding ----

  /** A field can be read off the front of any text. */
  lemma FieldIsPrefixCode(a: string, afterA: string, b: string, afterB: string)
    requires Field(a) + afterA == Field(b) + afterB
    ensures a == b && afterA == afterB
  {
    var m, n := Itoa(|a|), Itoa(|b|);
    var tailA, tailB := a + (";" + afterA), b + (";" + afterB);
    assert Field(a) + afterA == m + (":" + tailA);
    assert Field(b) + afterB == n + (":" + tailB);
    DigitsUpTo(m, tailA, n, tailB, ':');
    ValueOfItoa(|a|);
    ValueOfItoa(|b|);
    assert a == tailA[..|a|] == b;
    assert afterA == tailA[|a| + 1..] == afterB;
  }

  predicate NoDigitFirst(s: string) {
    s != "" ==> !IsDigit(s[0])
  }

  lemma FieldStartsWithDigit(columns: seq<string>, rest: string)
    ensures columns != [] ==> Fields(columns) + rest != "" && IsDigit((Fields(columns) + rest)[0])
  {
    if columns != [] {
      var head := Itoa(|columns[0]|);
      assert (Fields(columns) + rest)[0] == head[0];
    }
  }

  lemma FieldsHead(columns: seq<string>, rest: string)
    requires columns != []
    ensures Fields(columns) + rest == Field(columns[0]) + (Fields(columns[1..]) + rest)
  {
  }

  /** A run of fields ends where no digit follows, so a whole section can be read off. */
  lemma {:induction false} FieldsArePrefixCode(a: seq<string>, afterA: string, b: seq<string>, afterB: string)
    requires Fields(a) + afterA == Fields(b) + afterB
    requires NoDigitFirst(afterA) && NoDigitFirst(afterB)
    ensures a == b && afterA == afterB
    decreases |a|
  {
    FieldStartsWithDigit(a, afterA);
    FieldStartsWithDigit(b, afterB);
    assert Fields([]) + afterA == afterA && Fields([]) + afterB == afterB;
    if a != [] && b != [] {
      FieldsHead(a, afterA);
      FieldsHead(b, afterB);
      FieldIsPrefixCode(a[0], Fields(a[1..]) + afterA, b[0], Fields(b[1..]) + afterB);
      FieldsArePrefixCode(a[1..], afterA, b[1..], afterB);
      assert a == [a[0]] + a[1..] && b == [b[0]] + b[1..];
    }
  }

  ghost predicate HasArity(rows: seq<Row>, arity: nat) {
    forall r :: r in rows ==> |r| == arity
  }

  lemma {:induction false} FlattenInjective(a: seq<Row>, b: seq<Row>, arity: nat)
    requires arity > 0 && HasArity(a, arity) && HasArity(b, arity) && Flatten(a) == Flatten(b)
    ensures a == b
    decreases |a|
  {
    if a != [] { assert a[0] in a && Flatten(a) != []; }
    if b != [] { assert b[0] in b && Flatten(b) != []; }
    if a != [] && b != [] {
      assert a[0] == Flatten(a)[..arity] == b[0];
      assert Flatten(a[1..]) == Flatten(a)[arity..] == Flatten(b[1..]);
      FlattenInjective(a[1..], b[1..], arity);
      assert a == [a[0]] + a[1..] && b == [b[0]] + b[1..];
    }
  }

  /** Rows with the right number of columns, under tags that no field can be mistaken for. */
  ghost predicate Shaped(sections: seq<Section>, tables: seq<seq<Row>>) {
    && |tables| == |sections|
    && forall i :: 0 <= i < |sections| ==>
      && sections[i].arity > 0 && sections[i].tag != "" && !IsDigit(sections[i].tag[0])
      && HasArity(tables[i], sections[i].arity)
  }

  lemma FirstSectionReadOff(sections: seq<Section>, a: seq<seq<Row>>, b: seq<seq<Row>>)
    requires Shaped(sections, a) && Shaped(sections, b) && Buffer(sections, a) == Buffer(sections, b)
    requires sections != []
    ensures a[0] == b[0] && Buffer(sections[1..], a[1..]) == Buffer(sections[1..], b[1..])
  {
    var laterA, laterB := Buffer(sections[1..], a[1..]), Buffer(sections[1..], b[1..]);
    BufferStartsWithTag(sections[1..], a[1..]);
    BufferStartsWithTag(sections[1..], b[1..]);
    CancelTag(sections[0].tag, Fields(Flatten(a[0])) + laterA, Fields(Flatten(b[0])) + laterB);
    FieldsArePrefixCode(Flatten(a[0]), laterA, Flatten(b[0]), laterB);
    FlattenInjective(a[0], b[0], sections[0].arity);
  }

  lemma LaterShaped(sections: seq<Section>, tables: seq<seq<Row>>)
    requires Shaped(sections, tables) && sections != []
    ensures Shaped(sections[1..], tables[1..])
  {
  }

  /** The bytes determine every row of every section, whatever the columns contain. */
  lemma {:induction false} BufferInjective(sections: seq<Section>, a: seq<seq<Row>>, b: seq<seq<Row>>)
    requires Shaped(sections, a) && Shaped(sections, b) && Buffer(sections, a) == Buffer(sections, b)
    ensures a == b
  {
    if sections != [] {
      FirstSectionReadOff(sections, a, b);
      LaterShaped(sections, a);
      LaterShaped(sections, b);
      BufferInjective(sections[1..], a[1..], b[1..]);
      assert a == [a[0]] + a[1..] && b == [b[0]] + b[1..];
    }
  }

  lemma CancelTag(tag: string, a: string, b: string)
    requires tag + a == tag + b
    ensures a == b
  {
    assert a == (tag + a)[|tag|..] == (tag + b)[|tag|..] == b;
  }

  lemma BufferStartsWithTag(sections: seq<Section>, tables: seq<seq<Row>>)
    requires Shaped(sections, tables)
    ensures NoDigitFirst(Buffer(sections, tables))
  {
    if sections != [] {
      var tag := sections[0].tag;
      assert Buffer(sections, tables)[0] == tag[0];
    }
  }

  // ---- Order ----

  /** The columns that ORDER BY compares. */
  function Key(row: Row, order: seq<nat>): Row {
    if order == [] then []
    else [if order[0] < |row| then row[order[0]] else ""] + Key(row, order[1..])
  }

  ghost predicate OrderedBy(rows: seq<Row>, order: seq<nat>) {
    forall i, j :: 0 <= i < j < |rows| ==> RowLe(Key(rows[i], order), Key(rows[j], order))
  }

  /** The unique constraints: rows that agree on the ordering columns are the same row. */
  ghost predicate KeyDeterminesRow(rows: seq<Row>, order: seq<nat>) {
    forall r, s :: r in rows && s in rows && Key(r, order) == Key(s, order) ==> r == s
  }

  lemma FirstRowIsDetermined(a: seq<Row>, b: seq<Row>, order: seq<nat>)
    requires OrderedBy(a, order) && OrderedBy(b, order) && KeyDeterminesRow(a, order)
    requires a != [] && b != [] && a[0] in b && b[0] in a
    ensures a[0] == b[0]
  {
    RowTotal();
    var i :| 0 <= i < |b| && b[i] == a[0];
    var j :| 0 <= j < |a| && a[j] == b[0];
    assert RowLe(Key(a[0], order), Key(a[j], order)) && RowLe(Key(b[0], order), Key(b[i], order));
  }

  lemma SameMembers<T>(a: seq<T>, b: seq<T>)
    requires multiset(a) == multiset(b)
    ensures |a| == |b| && forall x :: x in a ==> x in b
  {
    assert |a| == |multiset(a)| == |multiset(b)| == |b|;
    forall x | x in a ensures x in b { assert x in multiset(a); }
  }

  /** Under the unique constraints an ORDER BY has one possible result, whatever order the
      rows were inserted in. */
  lemma {:induction false} OrderIsDetermined(a: seq<Row>, b: seq<Row>, order: seq<nat>)
    requires OrderedBy(a, order) && OrderedBy(b, order) && multiset(a) == multiset(b)
    requires KeyDeterminesRow(a, order)
    ensures a == b
    decreases |a|
  {
    SameMembers(a, b);
    SameMembers(b, a);
    if a != [] {
      FirstRowIsDetermined(a, b, order);
      SameMembersAfterFirst(a, b);
      OrderIsDetermined(a[1..], b[1..], order);
    }
  }

  lemma SameMembersAfterFirst<T>(a: seq<T>, b: seq<T>)
    requires a != [] && b != [] && a[0] == b[0]
    ensures multiset(a) == multiset(b) ==> multiset(a[1..]) == multiset(b[1..])
    ensures a[1..] == b[1..] ==> a == b
  {
    assert a == [a[0]] + a[1..] && b == [b[0]] + b[1..];
    assert multiset(a[1..]) == multiset(a) - multiset{a[0]};
    assert multiset(b[1..]) == multiset(b) - multiset{b[0]};
  }

  /** What the database returns for one query per section over the stored rows. */
  ghost predicate Selects(sections: seq<Section>, result: seq<seq<Row>>, stored: seq<multiset<Row>>) {
    && Shaped(sections, result) && |stored| == |sections|
    && forall i :: 0 <= i < |sections| ==>
      && multiset(result[i]) == stored[i]
      && OrderedBy(result[i], sections[i].order) && KeyDeterminesRow(result[i], sections[i].order)
  }

  /** Two registries write the same buffer exactly when their hashed columns agree as
      multisets of rows in every section. */
  lemma SameBufferExactlyWhenSameRows(sections: seq<Section>, a: seq<seq<Row>>, storedA: seq<multiset<Row>>,
                                      b: seq<seq<Row>>, storedB: seq<multiset<Row>>)
    requires Selects(sections, a, storedA) && Selects(sections, b, storedB)
    ensures Buffer(sections, a) == Buffer(sections, b) <==> storedA == storedB
  {
    if Buffer(sections, a) == Buffer(sections, b) {
      BufferInjective(sections, a, b);
      assert forall i :: 0 <= i < |sections| ==> storedA[i] == storedB[i];
    }
    if storedA == storedB {
      forall i | 0 <= i < |sections| ensures a[i] == b[i] {
        OrderIsDetermined(a[i], b[i], sections[i].order);
      }
      assert a == b;
    }
  }

  // ---- Sections that order by all their columns ----

  function Upto(from: nat, n: nat): seq<nat>
    requires from <= n
    decreases n - from
  {
    if from == n then [] else [from] + Upto(from + 1, n)
  }

  lemma {:induction false} KeyOfAll(row: Row, from: nat)
    requires from <= |row|
    ensures Key(row, Upto(from, |row|)) == row[from..]
    decreases |row| - from
  {
    if from < |row| { KeyOfAll(row, from + 1); }
  }

  /** The columns that a section orders by decide the row. */
  ghost predicate WellKeyed(section: Section, rows: multiset<Row>) {
    && (forall r :: r in rows ==> |r| == section.arity)
    && forall r, s :: r in rows && s in rows && Key(r, section.order) == Key(s, section.order) ==> r == s
  }

  lemma AllColumnsDecide(section: Section, rows: multiset<Row>)
    requires section.order == Upto(0, section.arity) && forall r :: r in rows ==> |r| == section.arity
    ensures WellKeyed(section, rows)
  {
    forall r, s | r in rows && s in rows && Key(r, section.order) == Key(s, section.order) ensures r == s {
      KeyOfAll(r, 0);
      KeyOfAll(s, 0);
      assert r[0..] == r && s[0..] == s;
    }
  }

  ghost predicate Tagged(section: Section) {
    section.arity > 0 && section.tag != "" && !IsDigit(section.tag[0])
  }

  /** Seven sections; all order by all their columns except the skills, whose paths are unique,
      and the capabilities. */
  ghost predicate RegistrySections(sections: seq<Section>) {
    && |sections| == 7 && (forall i :: 0 <= i < 7 ==> Tagged(sections[i]))
    && sections[0].arity == 6 && sections[0].order == [0]
    && sections[1].arity == sections[2].arity == sections[3].arity == 2 && sections[4].arity == 5
    && forall i :: 0 < i < 7 && i != 5 ==> sections[i].order == Upto(0, sections[i].arity)
  }

  lemma SectionsOfRegistry()
    ensures RegistrySections(SECTIONS)
  {
    UptoFive();
    UptoSeven();
    assert Upto(0, 2) == [0, 1];
  }

  lemma UptoFive()
    ensures Upto(0, 5) == [0, 1, 2, 3, 4]
  {
    assert Upto(4, 5) == [4] && Upto(3, 5) == [3, 4] && Upto(2, 5) == [2, 3, 4];
  }

  lemma UptoSeven()
    ensures Upto(0, 7) == [0, 1, 2, 3, 4, 5, 6]
  {
    assert Upto(6, 7) == [6] && Upto(5, 7) == [5, 6] && Upto(4, 7) == [4, 5, 6] && Upto(3, 7) == [3, 4, 5, 6];
    assert Upto(2, 7) == [2, 3, 4, 5, 6];
  }

  // ---- The rows of a registry ----

  function HashedColumns(path: string, cols: Columns): Row {
    [path, cols.content, cols.packageName, cols.packageVersion, cols.visibility, cols.sourceType]
  }

  ghost function SkillRows(db: Tables): multiset<Row> {
    multiset(HashedSet(db.skills))
  }

  ghost function HashedSet(skills: map<string, SkillRow>): set<Row> {
    set p | p in skills :: HashedColumns(p, skills[p].cols)
  }

  ghost predicate Owns(db: Tables, id: int, p: string) {
    p in db.skills && db.skills[p].id == id
  }

  /** JOIN skills: the path of the owner in front of the columns of a child row. */
  ghost function Joined<V>(db: Tables, rows: seq<Owned<V>>, columns: V -> seq<string>): seq<Row> {
    if rows == [] then []
    else if p :| Owns(db, rows[0].skillId, p) then [[p] + columns(rows[0].value)] + Joined(db, rows[1..], columns)
    else Joined(db, rows[1..], columns)
  }

  function Label(l: string): seq<string> {
    [l]
  }

  function ScopeColumn(s: IndexedScope): seq<string> {
    [s.scope]
  }

  function TestRow(t: TestColumns): seq<string> {
    [t.name, t.prompt, t.extraSkills, t.criteria]
  }

  /** The rows of the seven sections. The capability tables are given by their rows. */
  ghost function StoredRows(db: Tables, capabilities: multiset<Row>, bindings: multiset<Row>): seq<multiset<Row>> {
    [SkillRows(db), multiset(ChildRows(db, 1)), multiset(ChildRows(db, 2)), multiset(ChildRows(db, 3)),
     multiset(ChildRows(db, 4)), capabilities, bindings]
  }

  lemma {:induction false} JoinedArity<V>(db: Tables, rows: seq<Owned<V>>, columns: V -> seq<string>, n: nat)
    requires forall v :: |columns(v)| == n
    ensures forall r :: r in Joined(db, rows, columns) ==> |r| == n + 1
  {
    if rows != [] { JoinedArity(db, rows[1..], columns, n); }
  }

  /** The unique constraint on capabilities, and the column count of their bindings. */
  ghost predicate CapabilityRowsOk(sections: seq<Section>, capabilities: multiset<Row>, bindings: multiset<Row>)
    requires |sections| == 7
  {
    WellKeyed(sections[5], capabilities) && forall r :: r in bindings ==> |r| == sections[6].arity
  }

  lemma SkillsWellKeyed(section: Section, db: Tables)
    requires section.arity == 6 && section.order == [0]
    ensures WellKeyed(section, SkillRows(db))
  {
    forall r, s | r in SkillRows(db) && s in SkillRows(db) && Key(r, [0]) == Key(s, [0]) ensures r == s {
      assert [0][1..] == [] && Key(r, [0]) == [r[0]] && Key(s, [0]) == [s[0]];
      assert Key(r, [0])[0] == Key(s, [0])[0];
    }
  }

  lemma ChildrenWellKeyed<V>(section: Section, db: Tables, rows: seq<Owned<V>>, columns: V -> seq<string>)
    requires section.arity > 0 && section.order == Upto(0, section.arity)
    requires forall v :: |columns(v)| == section.arity - 1
    ensures WellKeyed(section, multiset(Joined(db, rows, columns)))
  {
    JoinedArity(db, rows, columns, section.arity - 1);
    forall r | r in multiset(Joined(db, rows, columns)) ensures |r| == section.arity {
      assert r in Joined(db, rows, columns);
    }
    AllColumnsDecide(section, multiset(Joined(db, rows, columns)));
  }

  /** In every section the columns of ORDER BY decide the row; only for the capabilities that
      has to be assumed. */
  lemma StoredWellKeyed(sections: seq<Section>, db: Tables, capabilities: multiset<Row>, bindings: multiset<Row>,
                        i: nat)
    requires RegistrySections(sections) && CapabilityRowsOk(sections, capabilities, bindings) && i < 7
    ensures WellKeyed(sections[i], StoredRows(db, capabilities, bindings)[i])
  {
    if i == 0 {
      SkillsWellKeyed(sections[0], db);
    } else if i == 6 {
      AllColumnsDecide(sections[6], bindings);
    } else if i < 5 {
      ChildWellKeyed(sections[i], db, i);
    }
  }

  ghost function ChildRows(db: Tables, i: nat): seq<Row>
    requires 0 < i < 5
  {
    if i == 1 then Joined(db, db.topics, Label)
    else if i == 2 then Joined(db, db.tags, Label)
    else if i == 3 then Joined(db, db.scopes, ScopeColumn)
    else Joined(db, db.tests, TestRow)
  }

  lemma ChildWellKeyed(section: Section, db: Tables, i: nat)
    requires 0 < i < 5 && section.order == Upto(0, section.arity) && section.arity == if i == 4 then 5 else 2
    ensures WellKeyed(section, multiset(ChildRows(db, i)))
  {
    if i == 1 { ChildrenWellKeyed(section, db, db.topics, Label); }
    else if i == 2 { ChildrenWellKeyed(section, db, db.tags, Label); }
    else if i == 3 { ChildrenWellKeyed(section, db, db.scopes, ScopeColumn); }
    else { ChildrenWellKeyed(section, db, db.tests, TestRow); }
  }

  /** What the queries return: the stored rows of each section, in its order. */
  ghost predicate Returns(sections: seq<Section>, result: seq<seq<Row>>, stored: seq<multiset<Row>>) {
    && |result| == |stored| == |sections|
    && forall i :: 0 <= i < |sections| ==>
      multiset(result[i]) == stored[i] && OrderedBy(result[i], sections[i].order)
  }

  lemma ReturnedIsSelected(sections: seq<Section>, result: seq<seq<Row>>, stored: seq<multiset<Row>>)
    requires Returns(sections, result, stored)
    requires forall i :: 0 <= i < |sections| ==> Tagged(sections[i]) && WellKeyed(sections[i], stored[i])
    ensures Selects(sections, result, stored)
  {
    forall i | 0 <= i < |sections|
      ensures HasArity(result[i], sections[i].arity) && KeyDeterminesRow(result[i], sections[i].order)
    {
      assert forall r :: r in result[i] ==> r in multiset(result[i]);
      assert WellKeyed(sections[i], stored[i]);
    }
  }

  /** Two registries write the same buffer exactly when the hashed columns of their skills,
      topics, tags, scopes, tests and capabilities agree as multisets of rows; for well-formed
      tables, exactly when all that the fingerprint is meant to see of each skill agrees. */
  lemma FingerprintExactly(a: Tables, capabilitiesA: multiset<Row>, bindingsA: multiset<Row>, resultA: seq<seq<Row>>,
                           b: Tables, capabilitiesB: multiset<Row>, bindingsB: multiset<Row>, resultB: seq<seq<Row>>)
    requires CapabilityRowsOk(SECTIONS, capabilitiesA, bindingsA)
    requires CapabilityRowsOk(SECTIONS, capabilitiesB, bindingsB)
    requires Returns(SECTIONS, resultA, StoredRows(a, capabilitiesA, bindingsA))
    requires Returns(SECTIONS, resultB, StoredRows(b, capabilitiesB, bindingsB))
    ensures Buffer(SECTIONS, resultA) == Buffer(SECTIONS, resultB) <==>
      StoredRows(a, capabilitiesA, bindingsA) == StoredRows(b, capabilitiesB, bindingsB)
    ensures WellFormed(a) && WellFormed(b) ==> (Buffer(SECTIONS, resultA) == Buffer(SECTIONS, resultB) <==>
      SeenAlike(a, b) && capabilitiesA == capabilitiesB && bindingsA == bindingsB)
  {
    SectionsOfRegistry();
    var storedA, storedB := StoredRows(a, capabilitiesA, bindingsA), StoredRows(b, capabilitiesB, bindingsB);
    forall i | 0 <= i < 7
      ensures WellKeyed(SECTIONS[i], storedA[i]) && WellKeyed(SECTIONS[i], storedB[i])
    {
      StoredWellKeyed(SECTIONS, a, capabilitiesA, bindingsA, i);
      StoredWellKeyed(SECTIONS, b, capabilitiesB, bindingsB, i);
    }
    ReturnedIsSelected(SECTIONS, resultA, storedA);
    ReturnedIsSelected(SECTIONS, resultB, storedB);
    SameBufferExactlyWhenSameRows(SECTIONS, resultA, storedA, resultB, storedB);
    if WellFormed(a) && WellFormed(b) {
      SameRowsExactly(a, capabilitiesA, bindingsA, b, capabilitiesB, bindingsB);
    }
  }

  // ---- Ids and insertion order do not show ----

  function Mapped<V>(values: seq<V>, columns: V -> seq<string>): seq<seq<string>> {
    seq(|values|, i requires 0 <= i < |values| => columns(values[i]))
  }

  lemma MappedFirst<V>(v: V, values: seq<V>, columns: V -> seq<string>)
    ensures Mapped([v] + values, columns) == [columns(v)] + Mapped(values, columns)
  {
  }

  lemma CountFirst<T>(x: T, s: seq<T>, y: T)
    ensures multiset([x] + s)[y] == multiset(s)[y] + if x == y then 1 else 0
  {
    assert multiset([x] + s) == multiset{x} + multiset(s);
  }

  /** How often a row is stored is decided by what its path's skill holds. */
  lemma {:induction false} JoinedCount<V>(db: Tables, rows: seq<Owned<V>>, columns: V -> seq<string>, p: string,
                                          c: seq<string>)
    requires WellFormed(db)
    ensures multiset(Joined(db, rows, columns))[[p] + c] ==
      if p in db.skills then multiset(Mapped(Of(rows, db.skills[p].id), columns))[c] else 0
  {
    if rows != [] {
      var first, rest := rows[0], rows[1..];
      JoinedCount(db, rest, columns, p, c);
      if p in db.skills {
        MappedFirst(first.value, Of(rest, db.skills[p].id), columns);
        CountFirst(columns(first.value), Mapped(Of(rest, db.skills[p].id), columns), c);
      }
      if owner :| Owns(db, first.skillId, owner) {
        JoinedFirst(db, rows, columns, owner);
        var row := [owner] + columns(first.value);
        CountFirst(row, Joined(db, rest, columns), [p] + c);
        SameRow(owner, columns(first.value), p, c);
      } else {
        assert p in db.skills ==> !Owns(db, first.skillId, p);
      }
    }
  }

  lemma SameRow(p: string, c: seq<string>, q: string, d: seq<string>)
    ensures [p] + c == [q] + d <==> p == q && c == d
  {
    assert ([p] + c)[0] == p && ([p] + c)[1..] == c && ([q] + d)[0] == q && ([q] + d)[1..] == d;
  }

  lemma JoinedFirst<V>(db: Tables, rows: seq<Owned<V>>, columns: V -> seq<string>, owner: string)
    requires WellFormed(db) && rows != [] && Owns(db, rows[0].skillId, owner)
    ensures Joined(db, rows, columns) == [[owner] + columns(rows[0].value)] + Joined(db, rows[1..], columns)
  {
  }

  function ScopeTexts(scopes: seq<IndexedScope>): seq<string> {
    seq(|scopes|, i requires 0 <= i < |scopes| => scopes[i].scope)
  }

  /** Two skills that differ at most in name, description, index keys and the order in which
      their topics, tags, scopes and tests were inserted. */
  ghost predicate EntrySeenAlike(e: Entry, f: Entry) {
    && HashedAlike(e.cols, f.cols)
    && multiset(e.topics) == multiset(f.topics) && multiset(e.tags) == multiset(f.tags)
    && multiset(ScopeTexts(e.scopes)) == multiset(ScopeTexts(f.scopes))
    && multiset(e.tests) == multiset(f.tests)
  }

  ghost predicate SeenAlike(a: Tables, b: Tables) {
    a.skills.Keys == b.skills.Keys && forall p :: p in a.skills ==> EntrySeenAlike(EntryOf(a, p), EntryOf(b, p))
  }

  /** Well-formed tables store the same rows exactly when they hold the same paths and, for each
      path, skills that look alike. */
  lemma SameRowsExactly(a: Tables, capabilitiesA: multiset<Row>, bindingsA: multiset<Row>,
                        b: Tables, capabilitiesB: multiset<Row>, bindingsB: multiset<Row>)
    requires WellFormed(a) && WellFormed(b)
    ensures StoredRows(a, capabilitiesA, bindingsA) == StoredRows(b, capabilitiesB, bindingsB) <==>
      SeenAlike(a, b) && capabilitiesA == capabilitiesB && bindingsA == bindingsB
  {
    var storedA, storedB := StoredRows(a, capabilitiesA, bindingsA), StoredRows(b, capabilitiesB, bindingsB);
    SameSkillRowsExactly(a, b);
    if a.skills.Keys == b.skills.Keys {
      SameTopicRowsExactly(a, b);
      SameTagRowsExactly(a, b);
      SameTestRowsExactly(a, b);
      SameScopeRowsExactly(a, b);
    }
    assert storedA == storedB <==> forall i :: 0 <= i < 7 ==> storedA[i] == storedB[i];
  }

  lemma SameSkillRowsExactly(a: Tables, b: Tables)
    ensures SkillRows(a) == SkillRows(b) <==> (a.skills.Keys == b.skills.Keys
      && forall p :: p in a.skills ==> HashedAlike(a.skills[p].cols, b.skills[p].cols))
  {
    var rowsA, rowsB := HashedSet(a.skills), HashedSet(b.skills);
    assert forall r :: r in rowsA <==> r in SkillRows(a);
    assert forall r :: r in rowsB <==> r in SkillRows(b);
    if rowsA == rowsB {
      HashedWithin(a.skills, b.skills);
      HashedWithin(b.skills, a.skills);
    }
    forall p | p in a.skills && p in b.skills
      ensures HashedColumns(p, a.skills[p].cols) == HashedColumns(p, b.skills[p].cols) <==>
        HashedAlike(a.skills[p].cols, b.skills[p].cols)
    {
      SkillSectionSees(p, a.skills[p].cols, b.skills[p].cols);
    }
  }

  predicate HashedAlike(c: Columns, d: Columns) {
    c.(name := d.name, description := d.description) == d
  }

  lemma HashedWithin(a: map<string, SkillRow>, b: map<string, SkillRow>)
    requires HashedSet(a) <= HashedSet(b)
    ensures forall p :: p in a ==> p in b && HashedColumns(p, a[p].cols) == HashedColumns(p, b[p].cols)
  {
    forall p | p in a ensures p in b && HashedColumns(p, a[p].cols) == HashedColumns(p, b[p].cols) {
      assert HashedColumns(p, a[p].cols) in HashedSet(a);
      var q :| q in b && HashedColumns(p, a[p].cols) == HashedColumns(q, b[q].cols);
      assert HashedColumns(p, a[p].cols)[0] == p && HashedColumns(q, b[q].cols)[0] == q;
    }
  }

  lemma SameTopicRowsExactly(a: Tables, b: Tables)
    requires WellFormed(a) && WellFormed(b) && a.skills.Keys == b.skills.Keys
    ensures multiset(ChildRows(a, 1)) == multiset(ChildRows(b, 1)) <==>
      forall p :: p in a.skills ==> multiset(EntryOf(a, p).topics) == multiset(EntryOf(b, p).topics)
  {
    LabelInjective();
    SameChildrenExactly(a, a.topics, b, b.topics, Label);
  }

  lemma SameTagRowsExactly(a: Tables, b: Tables)
    requires WellFormed(a) && WellFormed(b) && a.skills.Keys == b.skills.Keys
    ensures multiset(ChildRows(a, 2)) == multiset(ChildRows(b, 2)) <==>
      forall p :: p in a.skills ==> multiset(EntryOf(a, p).tags) == multiset(EntryOf(b, p).tags)
  {
    LabelInjective();
    SameChildrenExactly(a, a.tags, b, b.tags, Label);
  }

  lemma SameTestRowsExactly(a: Tables, b: Tables)
    requires WellFormed(a) && WellFormed(b) && a.skills.Keys == b.skills.Keys
    ensures multiset(ChildRows(a, 4)) == multiset(ChildRows(b, 4)) <==>
      forall p :: p in a.skills ==> multiset(EntryOf(a, p).tests) == multiset(EntryOf(b, p).tests)
  {
    TestRowInjective();
    SameChildrenExactly(a, a.tests, b, b.tests, TestRow);
  }

  lemma SameScopeRowsExactly(a: Tables, b: Tables)
    requires WellFormed(a) && WellFormed(b) && a.skills.Keys == b.skills.Keys
    ensures multiset(ChildRows(a, 3)) == multiset(ChildRows(b, 3)) <==>
      forall p :: p in a.skills ==>
        multiset(ScopeTexts(EntryOf(a, p).scopes)) == multiset(ScopeTexts(EntryOf(b, p).scopes))
  {
    LabelInjective();
    SameJoinedExactly(a, a.scopes, b, b.scopes, ScopeColumn);
    forall p | p in a.skills
      ensures RowsAt(a, a.scopes, ScopeColumn, p) == RowsAt(b, b.scopes, ScopeColumn, p) <==>
        multiset(ScopeTexts(EntryOf(a, p).scopes)) == multiset(ScopeTexts(EntryOf(b, p).scopes))
    {
      SameScopeTexts(EntryOf(a, p).scopes, EntryOf(b, p).scopes);
    }
  }

  lemma SameScopeTexts(a: seq<IndexedScope>, b: seq<IndexedScope>)
    ensures multiset(Mapped(a, ScopeColumn)) == multiset(Mapped(b, ScopeColumn)) <==>
      multiset(ScopeTexts(a)) == multiset(ScopeTexts(b))
  {
    LabelInjective();
    MappedScopes(a);
    MappedScopes(b);
    SameMapped(ScopeTexts(a), ScopeTexts(b), Label);
  }

  lemma MappedScopes(a: seq<IndexedScope>)
    ensures Mapped(a, ScopeColumn) == Mapped(ScopeTexts(a), Label)
  {
    forall i | 0 <= i < |a| ensures Mapped(a, ScopeColumn)[i] == Mapped(ScopeTexts(a), Label)[i] {
      assert ScopeColumn(a[i]) == Label(ScopeTexts(a)[i]);
    }
  }

  lemma SameChildrenExactly<V(!new)>(a: Tables, rowsA: seq<Owned<V>>, b: Tables, rowsB: seq<Owned<V>>,
                                     columns: V -> seq<string>)
    requires WellFormed(a) && WellFormed(b) && a.skills.Keys == b.skills.Keys && InjectiveColumns(columns)
    ensures multiset(Joined(a, rowsA, columns)) == multiset(Joined(b, rowsB, columns)) <==>
      forall p :: p in a.skills ==> multiset(Of(rowsA, a.skills[p].id)) == multiset(Of(rowsB, b.skills[p].id))
  {
    SameJoinedExactly(a, rowsA, b, rowsB, columns);
    forall p | p in a.skills
      ensures RowsAt(a, rowsA, columns, p) == RowsAt(b, rowsB, columns, p) <==>
        multiset(Of(rowsA, a.skills[p].id)) == multiset(Of(rowsB, b.skills[p].id))
    {
      SameMapped(Of(rowsA, a.skills[p].id), Of(rowsB, b.skills[p].id), columns);
    }
  }

  ghost predicate InjectiveColumns<V(!new)>(columns: V -> seq<string>) {
    forall v, w :: columns(v) == columns(w) ==> v == w
  }

  lemma LabelInjective()
    ensures InjectiveColumns(Label)
  {
    forall v, w | Label(v) == Label(w) ensures v == w { assert Label(v)[0] == Label(w)[0]; }
  }

  lemma TestRowInjective()
    ensures InjectiveColumns(TestRow)
  {
    forall v, w | TestRow(v) == TestRow(w) ensures v == w {
      assert forall i :: 0 <= i < 4 ==> TestRow(v)[i] == TestRow(w)[i];
    }
  }

  lemma {:induction false} MappedCount<V(!new)>(values: seq<V>, columns: V -> seq<string>, c: seq<string>)
    requires InjectiveColumns(columns)
    ensures forall v :: columns(v) == c ==> multiset(Mapped(values, columns))[c] == multiset(values)[v]
    ensures (forall v :: columns(v) != c) ==> multiset(Mapped(values, columns))[c] == 0
  {
    if values != [] {
      MappedCount(values[1..], columns, c);
      MappedFirst(values[0], values[1..], columns);
      assert values == [values[0]] + values[1..];
      CountFirst(columns(values[0]), Mapped(values[1..], columns), c);
      forall v { CountFirst(values[0], values[1..], v); }
    }
  }

  /** Written under injective columns, values are the same rows exactly when they are the same values. */
  lemma SameMapped<V(!new)>(a: seq<V>, b: seq<V>, columns: V -> seq<string>)
    requires InjectiveColumns(columns)
    ensures multiset(Mapped(a, columns)) == multiset(Mapped(b, columns)) <==> multiset(a) == multiset(b)
  {
    forall c ensures multiset(a) == multiset(b) ==> multiset(Mapped(a, columns))[c] == multiset(Mapped(b, columns))[c] {
      MappedCount(a, columns, c);
      MappedCount(b, columns, c);
    }
    forall v ensures multiset(Mapped(a, columns)) == multiset(Mapped(b, columns)) ==> multiset(a)[v] == multiset(b)[v] {
      MappedCount(a, columns, columns(v));
      MappedCount(b, columns, columns(v));
    }
  }

  /** The columns of one skill's rows. */
  ghost function RowsAt<V>(db: Tables, rows: seq<Owned<V>>, columns: V -> seq<string>, p: string): multiset<Row>
    requires p in db.skills
  {
    multiset(Mapped(Of(rows, db.skills[p].id), columns))
  }

  /** Joined rows agree exactly when the rows of every single skill do. */
  lemma SameJoinedExactly<V>(a: Tables, rowsA: seq<Owned<V>>, b: Tables, rowsB: seq<Owned<V>>,
                             columns: V -> seq<string>)
    requires WellFormed(a) && WellFormed(b) && a.skills.Keys == b.skills.Keys
    ensures multiset(Joined(a, rowsA, columns)) == multiset(Joined(b, rowsB, columns)) <==>
      forall p :: p in a.skills ==> RowsAt(a, rowsA, columns, p) == RowsAt(b, rowsB, columns, p)
  {
    var joinedA, joinedB := multiset(Joined(a, rowsA, columns)), multiset(Joined(b, rowsB, columns));
    if joinedA == joinedB {
      forall p | p in a.skills ensures RowsAt(a, rowsA, columns, p) == RowsAt(b, rowsB, columns, p) {
        SameAtPath(a, rowsA, b, rowsB, columns, p);
      }
    }
    if forall p :: p in a.skills ==> RowsAt(a, rowsA, columns, p) == RowsAt(b, rowsB, columns, p) {
      forall r: Row ensures joinedA[r] == joinedB[r] { SameCount(a, rowsA, b, rowsB, columns, r); }
    }
  }

  lemma SameAtPath<V>(a: Tables, rowsA: seq<Owned<V>>, b: Tables, rowsB: seq<Owned<V>>, columns: V -> seq<string>,
                      p: string)
    requires WellFormed(a) && WellFormed(b) && p in a.skills && p in b.skills
    requires multiset(Joined(a, rowsA, columns)) == multiset(Joined(b, rowsB, columns))
    ensures RowsAt(a, rowsA, columns, p) == RowsAt(b, rowsB, columns, p)
  {
    forall c ensures RowsAt(a, rowsA, columns, p)[c] == RowsAt(b, rowsB, columns, p)[c] {
      JoinedCount(a, rowsA, columns, p, c);
      JoinedCount(b, rowsB, columns, p, c);
    }
  }

  lemma SameCount<V>(a: Tables, rowsA: seq<Owned<V>>, b: Tables, rowsB: seq<Owned<V>>, columns: V -> seq<string>,
                     r: Row)
    requires WellFormed(a) && WellFormed(b) && a.skills.Keys == b.skills.Keys
    requires forall p :: p in a.skills ==> RowsAt(a, rowsA, columns, p) == RowsAt(b, rowsB, columns, p)
    ensures multiset(Joined(a, rowsA, columns))[r] == multiset(Joined(b, rowsB, columns))[r]
  {
    if r == [] {
      NoEmptyRow(a, rowsA, columns);
      NoEmptyRow(b, rowsB, columns);
    } else {
      assert r == [r[0]] + r[1..];
      JoinedCount(a, rowsA, columns, r[0], r[1..]);
      JoinedCount(b, rowsB, columns, r[0], r[1..]);
    }
  }

  /** Tables with the same view, whatever their ids and the order of their rows, store the
      same rows. */
  lemma SameViewSameRows(a: Tables, b: Tables, capabilities: multiset<Row>, bindings: multiset<Row>)
    requires WellFormed(a) && WellFormed(b) && View(a) == View(b)
    ensures StoredRows(a, capabilities, bindings) == StoredRows(b, capabilities, bindings)
  {
    forall p ensures (p in a.skills <==> p in b.skills) && (p in a.skills ==> EntryOf(a, p) == EntryOf(b, p)) {
      assert p in View(a) <==> p in View(b);
      if p in a.skills { assert View(a)[p] == View(b)[p]; }
    }
    EqualIsAlike(a, b);
    SameRowsExactly(a, capabilities, bindings, b, capabilities, bindings);
  }

  lemma EqualIsAlike(a: Tables, b: Tables)
    requires forall p :: (p in a.skills <==> p in b.skills) && (p in a.skills ==> EntryOf(a, p) == EntryOf(b, p))
    ensures SeenAlike(a, b)
  {
    forall p | p in a.skills ensures EntrySeenAlike(EntryOf(a, p), EntryOf(b, p)) {
      var e := EntryOf(a, p);
      assert e == EntryOf(b, p);
    }
  }

  lemma {:induction false} NoEmptyRow<V>(db: Tables, rows: seq<Owned<V>>, columns: V -> seq<string>)
    ensures [] !in Joined(db, rows, columns) && multiset(Joined(db, rows, columns))[[]] == 0
  {
    if rows != [] { NoEmptyRow(db, rows[1..], columns); }
  }

  /** What the skill section sees of a skill, and nothing else: the name and the description,
      which full-text search indexes, can change without changing the fingerprint. */
  lemma SkillSectionSees(path: string, a: Columns, b: Columns)
    ensures HashedColumns(path, a) == HashedColumns(path, b) <==> a.(name := b.name, description := b.description) == b
  {
    if HashedColumns(path, a) == HashedColumns(path, b) {
      assert forall i :: 0 <= i < 6 ==> HashedColumns(path, a)[i] == HashedColumns(path, b)[i];
    }
  }
}
