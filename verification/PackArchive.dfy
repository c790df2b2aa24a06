/** Verified pack archives: which entry lists are accepted, how the accepted tree is written
    and installed, and how an installed tree is checked against its archive. Decompression,
    signatures and digests are not part of this model; an archive is its list of entries. */
module PackArchive {
  import opened Strings
  import opened Order

  /** A slash-separated name as its components. */
  type Path = seq<string>
  /** A char stands for one byte. */
  type Bytes = string
  type Files = map<Path, Bytes>

  datatype Kind = DirectoryEntry | RegularEntry | OtherEntry
  datatype Header = Header(name: string, kind: Kind, size: int, body: Bytes)

  /** A decompressed archive: its entries, the bytes after its end mark, and its length. */
  datatype Stream = Stream(entries: seq<Header>, trailer: Bytes, length: nat)

  /** The two names that an installed tree keeps for its evidence. */
  datatype Names = Names(lock: string, archive: string)

  const RESERVED := Names("manifest.lock.json", "archive.tar.gz")
  const MAX_ENTRIES := 4096
  const MAX_EXTRACTED := 0x400_0000
  const MAX_LOCK := 0xC0_0000
  const MAX_DOWNLOAD := 0x200_0000
  const MAX_INSTALLED := 8192

  // ---- Names ----

  predicate Plain(part: string) {
    part != "" && part != "." && part != ".."
  }

  /** Lexical cleaning of a relative path, component by component; `out` is what is kept so
      far. */
  function CleanParts(parts: Path, out: Path): Path
    decreases |parts|
  {
    if parts == [] then out
    else if parts[0] == "" || parts[0] == "." then CleanParts(parts[1..], out)
    else if parts[0] == ".." && out != [] && out[|out| - 1] != ".." then CleanParts(parts[1..], out[..|out| - 1])
    else CleanParts(parts[1..], out + [parts[0]])
  }

  function Clean(name: string): string {
    var parts := CleanParts(Split(name, '/'), []);
    if parts == [] then "." else Join(parts, "/")
  }

  /** The name check as the extractor makes it. */
  predicate SafeName(name: string) {
    && name != "" && name[0] != '/' && Clean(name) == name
    && '\\' !in name && ':' !in name && '\0' !in name
    && name != ".." && !("../" <= name)
  }

  /** Plain components below the root, and no character with a meaning of its own. */
  ghost predicate Downward(name: string) {
    && (forall part :: part in Split(name, '/') ==> part !in {"", ".", ".."})
    && '\\' !in name && ':' !in name && '\0' !in name
  }

  /** Climbing components come first, plain ones after them. */
  ghost predicate Cleaned(parts: Path) {
    && (forall i :: 0 <= i < |parts| ==> parts[i] == ".." || Plain(parts[i]))
    && forall i, j :: 0 <= i < j < |parts| && parts[j] == ".." ==> parts[i] == ".."
  }

  lemma {:induction false} CleanPartsCleaned(parts: Path, out: Path)
    requires Cleaned(out) && (forall p :: p in parts ==> '/' !in p) && forall p :: p in out ==> '/' !in p
    ensures Cleaned(CleanParts(parts, out)) && forall p :: p in CleanParts(parts, out) ==> '/' !in p
    decreases |parts|
  {
    if parts != [] {
      var c := parts[0];
      assert c in parts;
      if c == "" || c == "." {
        CleanPartsCleaned(parts[1..], out);
      } else if c == ".." && out != [] && out[|out| - 1] != ".." {
        CleanPartsCleaned(parts[1..], out[..|out| - 1]);
      } else {
        assert Cleaned(out + [c]);
        CleanPartsCleaned(parts[1..], out + [c]);
      }
    }
  }

  lemma {:induction false} PlainPartsStay(parts: Path, out: Path)
    requires forall p :: p in parts ==> Plain(p)
    ensures CleanParts(parts, out) == out + parts
    decreases |parts|
  {
    if parts != [] {
      assert parts[0] in parts;
      PlainPartsStay(parts[1..], out + [parts[0]]);
      assert out + parts == out + [parts[0]] + parts[1..];
    } else {
      assert out + parts == out;
    }
  }

  /** A name passes exactly when it is a downward path of plain components, or the root itself. */
  lemma SafeNameExactly(name: string)
    ensures SafeName(name) <==> (name == "." || Downward(name))
  {
    if name == "" {
      assert "" in Split(name, '/');
    } else if name == "." {
      SplitAfterJoinClean(["."], '/');
      assert ["."][1..] == [] && Clean(".") == ".";
    } else {
      if forall part :: part in Split(name, '/') ==> Plain(part) { PlainNameIsClean(name); }
      if SafeName(name) { CleanNameIsPlain(name); }
    }
  }

  lemma PlainNameIsClean(name: string)
    requires name != "" && forall part :: part in Split(name, '/') ==> Plain(part)
    ensures Clean(name) == name && name[0] != '/' && name != ".." && !("../" <= name)
  {
    var parts := Split(name, '/');
    JoinAfterSplit(name, '/');
    FirstPart(name);
    PlainPartsStay(parts, []);
    assert [] + parts == parts && Plain(parts[0]);
    NotClimbing(name, parts[0]);
  }

  lemma NotClimbing(name: string, first: string)
    requires Plain(first) && '/' !in first && (first == name || first + "/" <= name)
    ensures name != ".." && !("../" <= name)
  {
    assert forall i :: 0 <= i < |first| ==> name[i] == first[i];
    if |first| == 1 {
      assert first == [first[0]] && first[0] != '.';
    } else if |first| == 2 {
      assert first == [first[0], first[1]];
    } else {
      assert first[2] in first && name[2] != '/';
    }
  }

  lemma CleanNameIsPlain(name: string)
    requires name != "" && name != "." && Clean(name) == name && name != ".." && !("../" <= name)
    ensures forall part :: part in Split(name, '/') ==> Plain(part)
  {
    var parts := Split(name, '/');
    FirstPart(name);
    CleanNameParts(name);
    assert parts[0] != "..";
    assert forall i :: 0 <= i < |parts| ==> Plain(parts[i]);
  }

  /** A nonempty name that cleaning leaves alone has a cleaned list of components. */
  lemma CleanNameParts(name: string)
    requires Clean(name) == name && name != "" && name != "."
    ensures Cleaned(Split(name, '/'))
  {
    var cleaned := CleanParts(Split(name, '/'), []);
    CleanPartsCleaned(Split(name, '/'), []);
    SplitAfterJoinClean(cleaned, '/');
  }

  /** The first component, seen from the text. */
  lemma {:induction false} FirstPart(name: string)
    requires name != ""
    ensures var parts := Split(name, '/');
      && (name[0] == '/' <==> parts[0] == "")
      && parts[0] <= name && (parts[0] == name || parts[0] + "/" <= name)
  {
    var parts := Split(name, '/');
    JoinAfterSplit(name, '/');
    if |parts| > 1 { assert name == parts[0] + "/" + Join(parts[1..], "/"); }
    if name[0] != '/' && |name| > 1 { assert parts[0][0] == name[0]; }
  }

  // ---- Extraction ----

  function NameOf(h: Header): string {
    TrimSuffix(h.name, "/")
  }

  function PathOf(h: Header): Path {
    Split(NameOf(h), '/')
  }

  predicate IsRoot(h: Header) {
    NameOf(h) == "" || NameOf(h) == "."
  }

  predicate SizeOk(h: Header) {
    h.kind.RegularEntry? ==> h.size >= 0
  }

  predicate AllowedExtension(name: string) {
    || HasSuffix(name, ".md") || HasSuffix(name, ".yaml") || HasSuffix(name, ".yml")
    || HasSuffix(name, ".json") || HasSuffix(name, ".txt")
  }

  function EntryOk(h: Header): (ok: bool)
    ensures ok ==> SizeOk(h)
  {
    if IsRoot(h) then h.kind.DirectoryEntry? && h.size == 0
    else
      && SafeName(NameOf(h))
      && match h.kind
        case DirectoryEntry => h.size == 0
        case OtherEntry => false
        case RegularEntry =>
          && AllowedExtension(NameOf(h)) && NameOf(h) != RESERVED.lock && NameOf(h) != RESERVED.archive
          && h.size >= 0 && |h.body| == h.size
  }

  predicate TextFile(name: string) {
    exists extension :: extension in {".md", ".yaml", ".yml", ".json", ".txt"} && HasSuffix(name, extension)
  }

  /** Which entries pass, the slash at the end of a directory's name aside: the root and downward
      directories without content, and downward text files of the stated size that do not take a
      reserved name. */
  lemma EntryOkExactly(h: Header, name: string)
    requires name == if h.name != "" && h.name[|h.name| - 1] == '/' then h.name[..|h.name| - 1] else h.name
    ensures EntryOk(h) <==>
      || (h.kind.DirectoryEntry? && h.size == 0 && (name == "" || name == "." || Downward(name)))
      || (h.kind.RegularEntry? && Downward(name) && TextFile(name) && h.size == |h.body|
          && name != "manifest.lock.json" && name != "archive.tar.gz")
  {
    NameWithoutSlash(h, name);
    DownwardExactly(name);
    TextFileExactly(name);
    assert RESERVED == Names("manifest.lock.json", "archive.tar.gz");
  }

  lemma DownwardExactly(name: string)
    ensures Downward(name) <==> name != "" && name != "." && SafeName(name)
  {
    if name == "" || name == "." { SplitAfterJoinClean([name], '/'); }
    if name == "" || name == "." {
      assert name in Split(name, '/');
    } else {
      SafeNameExactly(name);
      assert forall part :: part in Split(name, '/') ==> (Plain(part) <==> part !in {"", ".", ".."});
    }
  }

  lemma TextFileExactly(name: string)
    ensures TextFile(name) <==> AllowedExtension(name)
  {
  }

  lemma NameWithoutSlash(h: Header, name: string)
    requires name == if h.name != "" && h.name[|h.name| - 1] == '/' then h.name[..|h.name| - 1] else h.name
    ensures NameOf(h) == name
  {
    if h.name != "" { assert h.name[|h.name| - 1..] == [h.name[|h.name| - 1]]; }
  }

  function FilesOf(entries: seq<Header>): Files {
    if entries == [] then map[]
    else
      var last := entries[|entries| - 1];
      var before := FilesOf(entries[..|entries| - 1]);
      if last.kind.RegularEntry? then before[PathOf(last) := last.body] else before
  }

  ghost function DirectoriesOf(entries: seq<Header>): set<Path> {
    set h | h in entries && h.kind.DirectoryEntry? && !IsRoot(h) :: PathOf(h)
  }

  function Total(entries: seq<Header>): int {
    if entries == [] then 0
    else
      var last := entries[|entries| - 1];
      Total(entries[..|entries| - 1]) + if last.kind.RegularEntry? then last.size else 0
  }

  ghost predicate NoDuplicates(entries: seq<Header>) {
    forall i, j :: 0 <= i < j < |entries| && entries[i].kind.RegularEntry? && entries[j].kind.RegularEntry? ==>
      PathOf(entries[i]) != PathOf(entries[j])
  }

  /** No file lies above another file. */
  ghost predicate PrefixFree(files: set<Path>) {
    forall f, g :: f in files && g in files && f <= g ==> f == g
  }

  /** ... nor at or above a listed directory. */
  ghost predicate TreeOk(files: set<Path>, directories: set<Path>) {
    PrefixFree(files) && forall f, d :: f in files && d in directories ==> !(f <= d)
  }

  ghost predicate Acceptable(entries: seq<Header>) {
    && |entries| <= MAX_ENTRIES && (forall h :: h in entries ==> EntryOk(h))
    && NoDuplicates(entries) && Total(entries) <= MAX_EXTRACTED
    && TreeOk(FilesOf(entries).Keys, DirectoriesOf(entries))
    && ["pack.yaml"] in FilesOf(entries)
  }

  /** The walk from a path to the top, through the parents. */
  method HasAncestor(files: Files, path: Path) returns (found: bool)
    ensures found <==> exists i :: 0 < i < |path| && path[..i] in files
  {
    if path == [] { return false; }
    var parent := path[..|path| - 1];
    while parent != []
      invariant parent == path[..|parent|] && |parent| < |path|
      invariant forall i :: |parent| < i < |path| ==> path[..i] !in files
      decreases |parent|
    {
      if parent in files { return true; }
      parent := parent[..|parent| - 1];
    }
    return false;
  }

  method CheckTree(files: Files, directories: set<Path>) returns (ok: bool)
    requires [] !in files && [] !in directories
    ensures ok <==> TreeOk(files.Keys, directories)
  {
    var todo := files.Keys;
    while todo != {}
      invariant todo <= files.Keys
      invariant forall g :: g in files && g !in todo ==>
        (g !in directories && forall i :: 0 < i < |g| ==> g[..i] !in files)
      decreases todo
    {
      var name :| name in todo;
      todo := todo - {name};
      var blocked := HasAncestor(files, name);
      if name in directories || blocked {
        BlockedPath(files.Keys, directories, name);
        return false;
      }
    }
    var left := directories;
    while left != {}
      invariant left <= directories
      invariant forall d :: d in directories && d !in left ==> forall i :: 0 < i <= |d| ==> d[..i] !in files
      decreases left
    {
      var name :| name in left;
      left := left - {name};
      var blocked := HasAncestor(files, name);
      assert name[..|name|] == name;
      if name in files || blocked {
        BlockedPath(files.Keys, directories, name);
        return false;
      }
    }
    UnblockedPaths(files.Keys, directories);
    return true;
  }

  lemma PrefixSlice(f: Path, d: Path)
    requires f <= d
    ensures f == d[..|f|]
  {
  }

  lemma BlockedPath(files: set<Path>, directories: set<Path>, name: Path)
    requires name in files || name in directories
    requires (name in files && name in directories) || exists i :: 0 < i < |name| && name[..i] in files
    ensures !TreeOk(files, directories)
  {
    if i :| 0 < i < |name| && name[..i] in files {
      assert name[..i] <= name && name[..i] != name;
    } else {
      assert name <= name;
    }
  }

  lemma UnblockedPaths(files: set<Path>, directories: set<Path>)
    requires [] !in files
    requires forall g :: g in files ==> g !in directories && forall i :: 0 < i < |g| ==> g[..i] !in files
    requires forall d :: d in directories ==> forall i :: 0 < i <= |d| ==> d[..i] !in files
    ensures TreeOk(files, directories)
  {
    forall f, g | f in files && g in files && f <= g ensures f == g {
      assert f == g[..|f|] && |f| > 0;
    }
    forall f, d | f in files && d in directories ensures !(f <= d) {
      assert |f| > 0;
      if f <= d { PrefixSlice(f, d); }
    }
  }

  /** One entry, given the files read so far: none when it is refused. */
  predicate Admits(h: Header, files: Files, total: int) {
    EntryOk(h) && (h.kind.RegularEntry? ==> PathOf(h) !in files && total + h.size <= MAX_EXTRACTED)
  }

  /** The entry loop. */
  method ReadEntries(entries: seq<Header>) returns (files: Files, directories: set<Path>, ok: bool)
    ensures !ok ==> !Acceptable(entries)
    ensures ok ==> files == FilesOf(entries) && directories == DirectoriesOf(entries)
    ensures ok ==> |entries| <= MAX_ENTRIES && NoDuplicates(entries) && Total(entries) <= MAX_EXTRACTED
    ensures ok ==> forall h :: h in entries ==> EntryOk(h)
  {
    files, directories, ok := map[], {}, false;
    var total := 0;
    for count := 0 to |entries|
      invariant count <= MAX_ENTRIES
      invariant forall h :: h in entries[..count] ==> EntryOk(h)
      invariant NoDuplicates(entries[..count]) && total == Total(entries[..count]) <= MAX_EXTRACTED
      invariant files == FilesOf(entries[..count]) && directories == DirectoriesOf(entries[..count])
    {
      if count >= MAX_ENTRIES { return; }
      var h := entries[count];
      ExtractOneMore(entries, count);
      DirectoriesOfSnoc(entries[..count], h);
      if !Admits(h, files, total) {
        if Acceptable(entries) { AcceptableAdmits(entries, count); }
        return;
      }
      if h.kind.DirectoryEntry? {
        if !IsRoot(h) { directories := directories + {PathOf(h)}; }
      } else {
        total := total + h.size;
        files := files[PathOf(h) := h.body];
      }
    }
    assert entries[..|entries|] == entries;
    ok := true;
  }

  /** The whole stream: acceptable entries, nothing but padding after them, and no more bytes
      in all than may be expanded. */
  ghost predicate Accepted(stream: Stream) {
    && Acceptable(stream.entries) && stream.length <= MAX_EXTRACTED
    && forall i :: 0 <= i < |stream.trailer| ==> stream.trailer[i] == '\0'
  }

  method Extract(stream: Stream) returns (tree: Option<Files>)
    ensures tree.Some? <==> Accepted(stream)
    ensures tree.Some? ==> tree.value == FilesOf(stream.entries)
  {
    var files, directories, ok := ReadEntries(stream.entries);
    if !ok { return None; }
    for i := 0 to |stream.trailer|
      invariant forall j :: 0 <= j < i ==> stream.trailer[j] == '\0'
    {
      if stream.trailer[i] != '\0' { return None; }
    }
    if stream.length > MAX_EXTRACTED { return None; }
    PathsNotEmpty(stream.entries);
    var consistent := CheckTree(files, directories);
    if !consistent || ["pack.yaml"] !in files { return None; }
    return Some(files);
  }

  lemma {:induction false} PathsNotEmpty(entries: seq<Header>)
    ensures [] !in FilesOf(entries) && [] !in DirectoriesOf(entries)
  {
    if entries != [] { PathsNotEmpty(entries[..|entries| - 1]); }
  }

  lemma {:induction false} FilesOfKeys(entries: seq<Header>, p: Path)
    ensures p in FilesOf(entries) <==>
      exists i :: 0 <= i < |entries| && entries[i].kind.RegularEntry? && PathOf(entries[i]) == p
  {
    if entries != [] {
      var before := entries[..|entries| - 1];
      FilesOfKeys(before, p);
      if i :| 0 <= i < |before| && before[i].kind.RegularEntry? && PathOf(before[i]) == p {
        assert entries[i] == before[i];
      }
      if i :| 0 <= i < |entries| && entries[i].kind.RegularEntry? && PathOf(entries[i]) == p {
        if i < |before| { assert entries[i] == before[i]; }
      }
    }
  }

  /** The files of entries without duplicates: each regular entry under its path, nothing else. */
  lemma {:induction false} FilesOfExactly(entries: seq<Header>)
    requires NoDuplicates(entries)
    ensures forall i :: 0 <= i < |entries| && entries[i].kind.RegularEntry? ==>
      PathOf(entries[i]) in FilesOf(entries) && FilesOf(entries)[PathOf(entries[i])] == entries[i].body
    ensures forall p :: p in FilesOf(entries) ==>
      exists i :: 0 <= i < |entries| && entries[i].kind.RegularEntry? && PathOf(entries[i]) == p
  {
    forall p | p in FilesOf(entries)
      ensures exists i :: 0 <= i < |entries| && entries[i].kind.RegularEntry? && PathOf(entries[i]) == p
    {
      FilesOfKeys(entries, p);
    }
    if entries != [] {
      var n := |entries| - 1;
      var before := entries[..n];
      assert entries[..n + 1] == entries;
      ExtractOneMore(entries, n);
      FilesOfExactly(before);
      forall i | 0 <= i < n && entries[i].kind.RegularEntry?
        ensures PathOf(entries[i]) in FilesOf(entries) && FilesOf(entries)[PathOf(entries[i])] == entries[i].body
      {
        assert before[i] == entries[i];
      }
    }
  }

  /** The content of the files, one after the other. */
  function Contents(entries: seq<Header>): Bytes {
    if entries == [] then []
    else (if entries[0].kind.RegularEntry? then entries[0].body else []) + Contents(entries[1..])
  }

  /** The total that is bounded is the number of bytes of all files together. */
  lemma {:induction false} TotalIsContent(entries: seq<Header>, i: nat)
    requires i <= |entries| && forall h :: h in entries ==> EntryOk(h)
    ensures Total(entries[..i]) + |Contents(entries[i..])| == Total(entries[..0]) + |Contents(entries[0..])|
  {
    if i > 0 {
      TotalIsContent(entries, i - 1);
      ExtractOneMore(entries, i - 1);
      assert entries[i - 1..][0] == entries[i - 1] && entries[i - 1..][1..] == entries[i..];
      assert EntryOk(entries[i - 1]);
    }
  }

  lemma TotalExactly(entries: seq<Header>)
    requires forall h :: h in entries ==> EntryOk(h)
    ensures Total(entries) == |Contents(entries)|
  {
    TotalIsContent(entries, |entries|);
    assert entries[..|entries|] == entries && entries[0..] == entries;
    assert entries[|entries|..] == [] && entries[..0] == [];
  }

  /** What one more entry changes. */
  lemma ExtractOneMore(entries: seq<Header>, i: nat)
    requires i < |entries|
    ensures var before, after, h := entries[..i], entries[..i + 1], entries[i];
      && after == before + [h]
      && FilesOf(after) == (if h.kind.RegularEntry? then FilesOf(before)[PathOf(h) := h.body] else FilesOf(before))
      && Total(after) == Total(before) + (if h.kind.RegularEntry? then h.size else 0)
      && (NoDuplicates(after) <==> NoDuplicates(before) && (h.kind.RegularEntry? ==> PathOf(h) !in FilesOf(before)))
  {
    var before, after, h := entries[..i], entries[..i + 1], entries[i];
    assert after == before + [h] && after[..|after| - 1] == before;
    FilesOfKeys(before, PathOf(h));
    NoDuplicatesSnoc(before, h);
  }

  lemma DirectoriesOfSnoc(before: seq<Header>, h: Header)
    ensures DirectoriesOf(before + [h]) ==
      DirectoriesOf(before) + if h.kind.DirectoryEntry? && !IsRoot(h) then {PathOf(h)} else {}
  {
  }

  lemma NoDuplicatesSnoc(before: seq<Header>, h: Header)
    ensures NoDuplicates(before + [h]) <==> NoDuplicates(before) && (h.kind.RegularEntry? ==>
      !exists i :: 0 <= i < |before| && before[i].kind.RegularEntry? && PathOf(before[i]) == PathOf(h))
  {
    var after := before + [h];
    assert forall i :: 0 <= i < |before| ==> after[i] == before[i];
    assert after[|before|] == h;
    if NoDuplicates(after) {
      forall i, j | 0 <= i < j < |before| && before[i].kind.RegularEntry? && before[j].kind.RegularEntry?
        ensures PathOf(before[i]) != PathOf(before[j])
      {
        assert after[i] == before[i] && after[j] == before[j];
      }
    }
  }

  lemma {:induction false} TotalGrows(entries: seq<Header>, i: nat)
    requires i <= |entries| && forall h :: h in entries ==> SizeOk(h)
    ensures Total(entries[..i]) <= Total(entries)
    decreases |entries| - i
  {
    if i == |entries| {
      assert entries[..i] == entries;
    } else {
      assert entries[..i + 1][..i] == entries[..i] && SizeOk(entries[i]);
      TotalGrows(entries, i + 1);
    }
  }

  /** Every entry of an acceptable archive is admitted where it stands, so a refusal is final. */
  lemma AcceptableAdmits(entries: seq<Header>, i: nat)
    requires Acceptable(entries) && i < |entries|
    ensures Admits(entries[i], FilesOf(entries[..i]), Total(entries[..i]))
  {
    assert entries[i] in entries;
    if entries[i].kind.RegularEntry? {
      TotalAt(entries, i);
      FirstUseAt(entries, i);
    }
  }

  lemma TotalAt(entries: seq<Header>, i: nat)
    requires i < |entries| && entries[i].kind.RegularEntry? && forall h :: h in entries ==> SizeOk(h)
    ensures Total(entries[..i]) + entries[i].size <= Total(entries)
  {
    TotalGrows(entries, i + 1);
    assert entries[..i + 1][..i] == entries[..i];
  }

  lemma FirstUseAt(entries: seq<Header>, i: nat)
    requires i < |entries| && entries[i].kind.RegularEntry? && NoDuplicates(entries)
    ensures PathOf(entries[i]) !in FilesOf(entries[..i])
  {
    var before := entries[..i];
    FilesOfKeys(before, PathOf(entries[i]));
    forall j | 0 <= j < i && before[j].kind.RegularEntry? ensures PathOf(before[j]) != PathOf(entries[i]) {
      assert before[j] == entries[j];
    }
  }

  // ---- Writing a tree ----

  datatype Node = Directory | File(data: Bytes) | Link | Special

  function Prefixes(p: Path): set<Path> {
    set i | 0 < i <= |p| :: p[..i]
  }

  function Parent(p: Path): Path
    requires p != []
  {
    p[..|p| - 1]
  }

  /** The directories that some files need. */
  function Directories(files: set<Path>): set<Path> {
    set p, q | p in files && q in Prefixes(p) && q != p :: q
  }

  /** The tree that holds exactly these files. */
  function Layout(files: Files): map<Path, Node> {
    map q | q in Directories(files.Keys) + files.Keys :: if q in files then File(files[q]) else Directory
  }

  function WithDirectories(nodes: map<Path, Node>, dir: Path): map<Path, Node> {
    map q | q in nodes.Keys + Prefixes(dir) :: if q in nodes then nodes[q] else Directory
  }

  /** Directories can be made where nothing but directories is in the way. */
  ghost predicate CanMake(nodes: map<Path, Node>, dir: Path) {
    forall q :: q in Prefixes(dir) && q in nodes ==> nodes[q].Directory?
  }

  /** A directory tree below an opened root; the root itself has no entry. */
  class Disk {
    var nodes: map<Path, Node>

    constructor ()
      ensures nodes == map[]
    {
      nodes := map[];
    }

    /** Creates the missing directories down to `dir`, top first. */
    method MkdirAll(dir: Path) returns (ok: bool)
      modifies this
      ensures ok <==> CanMake(old(nodes), dir)
      ensures ok ==> nodes == WithDirectories(old(nodes), dir)
    {
      for i := 0 to |dir|
        invariant CanMake(old(nodes), dir[..i]) && nodes == WithDirectories(old(nodes), dir[..i])
      {
        var next := dir[..i + 1];
        OneMorePrefix(dir, i);
        if next in nodes {
          if !nodes[next].Directory? { return false; }
        } else {
          nodes := nodes[next := Directory];
        }
      }
      assert dir == dir[..|dir|];
      return true;
    }

    /** Creates a file that must not exist, in a directory that must. */
    method WriteNew(p: Path, data: Bytes) returns (ok: bool)
      requires p != []
      modifies this
      ensures ok <==>
        p !in old(nodes) && (Parent(p) != [] ==> Parent(p) in old(nodes) && old(nodes)[Parent(p)].Directory?)
      ensures nodes == if ok then old(nodes)[p := File(data)] else old(nodes)
    {
      var dir := Parent(p);
      if p in nodes || (dir != [] && (dir !in nodes || !nodes[dir].Directory?)) { return false; }
      nodes := nodes[p := File(data)];
      return true;
    }

    /** One file of a tree: its directories, then the file itself. */
    method WriteFile(ghost done: Files, name: Path, data: Bytes) returns (ok: bool)
      requires nodes == Layout(done) && PrefixFree(done.Keys) && [] !in done && name !in done && name != []
      modifies this
      ensures ok <==> PrefixFree(done.Keys + {name})
      ensures ok ==> nodes == Layout(done[name := data])
    {
      AddFile(done, name, data);
      ok := MkdirAll(Parent(name));
      if ok { ok := WriteNew(name, data); }
    }

    /** Writes the files in some order. Into an empty tree this succeeds in every order or
        in none. */
    method WriteTree(files: Files) returns (ok: bool)
      requires nodes == map[] && [] !in files
      modifies this
      ensures ok <==> PrefixFree(files.Keys)
      ensures ok ==> nodes == Layout(files)
    {
      var todo := files.Keys;
      NothingWritten(files);
      while todo != {}
        invariant todo <= files.Keys && PrefixFree(files.Keys - todo) && nodes == Layout(files - todo)
        decreases todo
      {
        var name :| name in todo;
        OneMoreWritten(files, todo, name);
        ok := WriteFile(files - todo, name, files[name]);
        if !ok { return; }
        todo := todo - {name};
      }
      assert files - {} == files;
      ok := true;
    }

    /** Stages a verified tree with its lock and its archive beside it. */
    method Stage(files: Files, at: Names, lock: Bytes, archive: Bytes) returns (ok: bool)
      requires nodes == map[] && [] !in files && [at.lock] !in files && [at.archive] !in files && at.lock != at.archive
      modifies this
      ensures ok <==> Installable(files, at)
      ensures ok ==> nodes == Layout(Installed(files, at, lock, archive))
    {
      ghost var withLock := files[[at.lock] := lock];
      InstallableSteps(files, at, lock);
      ok := WriteTree(files);
      if ok { ok := WriteFile(files, [at.lock], lock); }
      if ok { ok := WriteFile(withLock, [at.archive], archive); }
    }

    /** The walk over an installed tree: the root first, then its entries in some order,
        ticking off the expected files. */
    method Walk(listing: seq<Path>, files: Files, at: Names) returns (ok: bool)
      requires Distinct(listing) && Elements(listing) == nodes.Keys
      ensures ok <==> Intact(nodes, files, at)
    {
      DistinctCount(listing);
      var missing := files.Keys;
      var count := 1;
      for i := 0 to |listing|
        invariant count == i + 1 <= MAX_INSTALLED
        invariant missing == files.Keys - Content(nodes, listing[..i], at)
        invariant forall p :: p in listing[..i] ==> p in nodes && EntryIntact(nodes, files, p, at)
      {
        count := count + 1;
        if count > MAX_INSTALLED { return false; }
        var p := listing[i];
        assert p in Elements(listing) && listing[..i + 1] == listing[..i] + [p];
        if !EntryIntact(nodes, files, p, at) { return false; }
        if IsContent(nodes, p, at) { missing := missing - {p}; }
      }
      assert listing[..|listing|] == listing;
      WalkedAll(nodes, files, listing, at);
      ok := missing == {};
    }

    /** Reads the lock and the archive, derives the expected files from them, and walks the
        tree. `derive` stands for signature, pin and identity checks followed by Extract. */
    method Validate(listing: seq<Path>, at: Names, derive: (Bytes, Bytes) -> Option<Files>)
      returns (verified: Option<Files>)
      requires Distinct(listing) && Elements(listing) == nodes.Keys
      ensures verified ==
        if ValidInstall(nodes, at, derive) then derive(nodes[[at.lock]].data, nodes[[at.archive]].data) else None
    {
      if !BoundedFile(nodes, [at.lock], MAX_LOCK) || !BoundedFile(nodes, [at.archive], MAX_DOWNLOAD) { return None; }
      verified := derive(nodes[[at.lock]].data, nodes[[at.archive]].data);
      if verified.None? { return; }
      var ok := Walk(listing, verified.value, at);
      if !ok { verified := None; }
    }
  }

  /** No file at or below a directory of this name. */
  predicate NoneBelow(files: Files, top: string) {
    forall p :: p in files ==> p != [] && p[0] != top
  }

  /** Nothing above anything else, and nothing below a name that the evidence takes. */
  ghost predicate Installable(files: Files, at: Names) {
    PrefixFree(files.Keys) && NoneBelow(files, at.lock) && NoneBelow(files, at.archive)
  }

  /** A tree is installable exactly when each of the three things staged fits. */
  lemma InstallableSteps(files: Files, at: Names, lock: Bytes)
    requires [] !in files && [at.lock] !in files && [at.archive] !in files && at.lock != at.archive
    ensures Installable(files, at) <==>
      && PrefixFree(files.Keys) && PrefixFree(files.Keys + {[at.lock]})
      && PrefixFree(files[[at.lock] := lock].Keys + {[at.archive]})
    ensures var withLock := files[[at.lock] := lock];
      withLock.Keys == files.Keys + {[at.lock]} && [] !in withLock && [at.archive] !in withLock
  {
    var withLock := files[[at.lock] := lock];
    assert [at.lock][0] != [at.archive][0] && withLock.Keys == files.Keys + {[at.lock]};
    if PrefixFree(files.Keys) {
      TopFileFits(files, at.lock);
      if PrefixFree(withLock.Keys) {
        TopFileFits(withLock, at.archive);
        assert withLock[[at.lock]] == lock && NoneBelow(withLock, at.archive) <==> NoneBelow(files, at.archive);
      }
    }
  }

  /** The installed packs of a project, by directory name. */
  class Store {
    var installed: map<string, map<Path, Node>>

    constructor ()
      ensures installed == map[]
    {
      installed := map[];
    }

    /** Stages aside, then publishes under a name that must be free. `derived` is what entry
        validation and the pinned archive yield. A failure publishes nothing, and no installed
        pack is ever touched. */
    method Install(target: string, derived: Option<Files>, at: Names, lock: Bytes, archive: Bytes) returns (ok: bool)
      requires at.lock != at.archive
      requires derived.Some? ==>
        [] !in derived.value && [at.lock] !in derived.value && [at.archive] !in derived.value
      modifies this
      ensures ok <==> derived.Some? && target !in old(installed) && Installable(derived.value, at)
      ensures installed ==
        if ok then old(installed)[target := Layout(Installed(derived.value, at, lock, archive))] else old(installed)
    {
      if derived.None? || target in installed { return false; }
      var stage := new Disk();
      ok := stage.Stage(derived.value, at, lock, archive);
      if ok { installed := installed[target := stage.nodes]; }
    }
  }

  predicate BoundedFile(nodes: map<Path, Node>, p: Path, limit: nat) {
    p in nodes && nodes[p].File? && |nodes[p].data| <= limit
  }

  /** Bounded evidence from which files derive, and the tree has exactly those. */
  ghost predicate ValidInstall(nodes: map<Path, Node>, at: Names, derive: (Bytes, Bytes) -> Option<Files>) {
    && [at.lock] in nodes && nodes[[at.lock]].File? && |nodes[[at.lock]].data| <= MAX_LOCK
    && [at.archive] in nodes && nodes[[at.archive]].File? && |nodes[[at.archive]].data| <= MAX_DOWNLOAD
    && var files := derive(nodes[[at.lock]].data, nodes[[at.archive]].data);
      files.Some? && Intact(nodes, files.value, at)
  }

  predicate IsContent(nodes: map<Path, Node>, p: Path, at: Names)
    requires p in nodes
  {
    nodes[p].File? && p != [at.lock] && p != [at.archive]
  }

  ghost function Content(nodes: map<Path, Node>, listing: seq<Path>, at: Names): set<Path> {
    set p | p in listing && p in nodes && IsContent(nodes, p, at)
  }

  /** An entry of an installed tree that raises no objection. */
  predicate EntryIntact(nodes: map<Path, Node>, files: Files, p: Path, at: Names)
    requires p in nodes
  {
    match nodes[p]
    case Directory => true
    case File(data) => IsContent(nodes, p, at) ==> p in files && files[p] == data
    case _ => false
  }

  /** Not too many entries, no links or special files, and the regular files other than the
      lock and the archive are the given ones in name and bytes. */
  ghost predicate Intact(nodes: map<Path, Node>, files: Files, at: Names) {
    && |nodes| + 1 <= MAX_INSTALLED
    && (forall p :: p in nodes ==> nodes[p].Directory? || nodes[p].File?)
    && (forall p :: p in files ==> p in nodes && IsContent(nodes, p, at) && nodes[p].data == files[p])
    && (forall p :: p in nodes && IsContent(nodes, p, at) ==> p in files)
  }

  lemma WalkedAll(nodes: map<Path, Node>, files: Files, listing: seq<Path>, at: Names)
    requires Elements(listing) == nodes.Keys && |nodes| + 1 <= MAX_INSTALLED
    requires forall p :: p in listing ==> p in nodes && EntryIntact(nodes, files, p, at)
    ensures Intact(nodes, files, at) <==> files.Keys - Content(nodes, listing, at) == {}
  {
    assert forall p :: p in listing <==> p in Elements(listing);
    assert forall p :: p in Content(nodes, listing, at) <==> p in nodes && IsContent(nodes, p, at);
    NoneMissing(files.Keys, Content(nodes, listing, at));
    IntactWhenFound(nodes, files, at);
  }

  lemma IntactWhenFound(nodes: map<Path, Node>, files: Files, at: Names)
    requires |nodes| + 1 <= MAX_INSTALLED && forall p :: p in nodes ==> EntryIntact(nodes, files, p, at)
    ensures Intact(nodes, files, at) <==> forall p :: p in files ==> p in nodes && IsContent(nodes, p, at)
  {
  }

  lemma NoneMissing<T>(wanted: set<T>, found: set<T>)
    ensures wanted - found == {} <==> forall x :: x in wanted ==> x in found
  {
    if wanted - found == {} {
      forall x | x in wanted ensures x in found {
        assert x !in wanted - found;
      }
    }
  }

  function Installed(files: Files, at: Names, lock: Bytes, archive: Bytes): Files {
    files[[at.lock] := lock][[at.archive] := archive]
  }

  lemma NothingWritten(files: Files)
    ensures PrefixFree(files.Keys - files.Keys) && Layout(files - files.Keys) == map[]
  {
    assert files - files.Keys == map[];
  }

  lemma OneMoreWritten(files: Files, todo: set<Path>, name: Path)
    requires name in todo && todo <= files.Keys
    ensures (files - todo)[name := files[name]] == files - (todo - {name})
    ensures (files - todo).Keys == files.Keys - todo
    ensures files.Keys - todo + {name} == files.Keys - (todo - {name})
    ensures PrefixFree(files.Keys) ==> PrefixFree(files.Keys - (todo - {name}))
  {
  }

  lemma TopFileFits(files: Files, top: string)
    requires PrefixFree(files.Keys) && [] !in files && [top] !in files
    ensures PrefixFree(files.Keys + {[top]}) <==> forall p :: p in files ==> p[0] != top
  {
    forall p | p in files ensures ([top] <= p <==> p[0] == top) && (p <= [top] ==> p == [top]) {
      assert |p| > 0;
    }
    if p :| p in files && p[0] == top {
      assert [top] <= p && p in files.Keys + {[top]} && [top] in files.Keys + {[top]};
    }
  }

  // ---- From archive to verified tree ----

  /** An accepted archive gives a tree that can be written in any order; it installs exactly
      when no file lies below a directory named like the lock or the archive. */
  lemma AcceptedTreeCanBeWritten(entries: seq<Header>)
    requires Acceptable(entries)
    ensures var files := FilesOf(entries);
      PrefixFree(files.Keys) && [] !in files && [RESERVED.lock] !in files && [RESERVED.archive] !in files
  {
    PathsNotEmpty(entries);
    NameAbsent(entries, RESERVED.lock);
    NameAbsent(entries, RESERVED.archive);
  }

  lemma NameAbsent(entries: seq<Header>, name: string)
    requires forall h :: h in entries && h.kind.RegularEntry? ==> NameOf(h) != name
    ensures [name] !in FilesOf(entries)
  {
    FilesOfKeys(entries, [name]);
    forall i | 0 <= i < |entries| && entries[i].kind.RegularEntry? ensures PathOf(entries[i]) != [name] {
      assert entries[i] in entries;
      JoinAfterSplit(NameOf(entries[i]), '/');
    }
  }

  /** Such a directory passes extraction, so an archive can be accepted and never install. */
  lemma AcceptedButNotInstallable(pack: Header, below: Header)
    requires pack == Header("pack.yaml", RegularEntry, 0, [])
    requires below == Header(RESERVED.lock + "/a.md", RegularEntry, 0, [])
    ensures Acceptable([pack, below]) && !Installable(FilesOf([pack, below]), RESERVED)
  {
    ReservedNames();
    PackEntry(pack);
    EntryBelow(RESERVED.lock, below);
    TwoEntries(pack, below);
    assert [RESERVED.lock, "a.md"] in FilesOf([pack, below]);
  }

  predicate PlainText(s: string) {
    '/' !in s && '\\' !in s && ':' !in s && '\0' !in s && |s| > 2
  }

  lemma ReservedNames()
    ensures PlainText(RESERVED.lock) && RESERVED.lock[0] == 'm' && RESERVED.archive[0] == 'a'
  {
  }

  lemma PackEntry(pack: Header)
    requires pack == Header("pack.yaml", RegularEntry, 0, [])
    ensures EntryOk(pack) && PathOf(pack) == ["pack.yaml"]
  {
    ReservedNames();
    assert pack.name[0] == 'p' && HasSuffix(pack.name, ".yaml");
    PlainEntry(pack, ["pack.yaml"]);
  }

  lemma EntryBelow(top: string, below: Header)
    requires PlainText(top) && below == Header(top + "/a.md", RegularEntry, 0, [])
    ensures (NameOf(below) != RESERVED.lock && NameOf(below) != RESERVED.archive) ==> EntryOk(below)
    ensures PathOf(below) == [top, "a.md"] && NameOf(below) == top + "/a.md"
  {
    var parts := [top, "a.md"];
    assert parts[1..] == ["a.md"] && top + "/" + "a.md" == below.name;
    assert below.name[|below.name| - 3..] == ".md";
    PlainEntry(below, parts);
  }

  lemma PlainEntry(h: Header, parts: Path)
    requires h.kind.RegularEntry? && h.size == 0 && h.body == []
    requires parts != [] && h.name == Join(parts, "/") && forall p :: p in parts ==> PlainText(p)
    requires AllowedExtension(h.name)
    ensures NameOf(h) == h.name && PathOf(h) == parts
    ensures h.name != RESERVED.lock && h.name != RESERVED.archive ==> EntryOk(h)
  {
    var last := h.name[|h.name| - 1];
    assert last != '/';
    JoinedPlainText(parts);
    forall p | p in parts ensures Plain(p) && '/' !in p { assert PlainText(p); }
    SafePath(parts, h.name);
  }

  lemma {:induction false} JoinedPlainText(parts: Path)
    requires parts != [] && forall p :: p in parts ==> PlainText(p)
    ensures var name := Join(parts, "/"); |name| > 2 && '\\' !in name && ':' !in name && '\0' !in name
  {
    assert PlainText(parts[0]);
    if |parts| > 1 { JoinedPlainText(parts[1..]); }
  }

  lemma SafePath(parts: Path, name: string)
    requires parts != [] && forall p :: p in parts ==> Plain(p) && '/' !in p
    requires name == Join(parts, "/") && name != "." && '\\' !in name && ':' !in name && '\0' !in name
    ensures Split(name, '/') == parts && SafeName(name)
  {
    SplitAfterJoinClean(parts, '/');
    SafeNameExactly(name);
  }

  lemma TwoEntries(a: Header, b: Header)
    requires a.kind.RegularEntry? && b.kind.RegularEntry? && EntryOk(a) && EntryOk(b) && a.size == 0 && b.size == 0
    requires PathOf(a) == ["pack.yaml"] && PathOf(b)[0] != PathOf(a)[0]
    ensures Acceptable([a, b]) && PathOf(b) in FilesOf([a, b])
  {
    TwoPaths(PathOf(a), PathOf(b));
    TwoFiles(a, b);
  }

  lemma TwoFiles(a: Header, b: Header)
    requires a.kind.RegularEntry? && b.kind.RegularEntry? && PathOf(a) != PathOf(b)
    ensures FilesOf([a, b]).Keys == {PathOf(a), PathOf(b)} && DirectoriesOf([a, b]) == {}
    ensures NoDuplicates([a, b]) && Total([a, b]) == a.size + b.size
  {
    assert [a, b][..1] == [a] && [a][..0] == [];
    assert FilesOf([a]) == map[PathOf(a) := a.body];
    assert FilesOf([a, b]) == FilesOf([a])[PathOf(b) := b.body];
    assert Total([]) == 0 && Total([a]) == a.size && Total([a, b]) == Total([a]) + b.size;
  }

  lemma TwoPaths(a: Path, b: Path)
    requires a != [] && b != [] && a[0] != b[0]
    ensures TreeOk({a, b}, {})
  {
    assert !(a <= b) && !(b <= a);
  }

  /** A freshly installed tree passes validation exactly when it is not too large. */
  lemma InstalledValidates(files: Files, at: Names, lock: Bytes, archive: Bytes,
                           derive: (Bytes, Bytes) -> Option<Files>)
    requires at.lock != at.archive && [] !in files && [at.lock] !in files && [at.archive] !in files
    requires PrefixFree(Installed(files, at, lock, archive).Keys)
    requires derive(lock, archive) == Some(files) && |lock| <= MAX_LOCK && |archive| <= MAX_DOWNLOAD
    ensures ValidInstall(Layout(Installed(files, at, lock, archive)), at, derive)
      <==> |files| + |Directories(files.Keys)| + 3 <= MAX_INSTALLED
  {
    InstalledSize(files, at, lock, archive);
    InstalledEvidence(files, at, lock, archive);
    InstalledContent(files, at, lock, archive);
  }

  /** A file `n` directories down. */
  function Deep(n: nat): Path {
    seq(n, _ => "dir") + ["file.md"]
  }

  lemma {:induction false} JoinEndsWithLast(parts: Path)
    requires parts != []
    ensures HasSuffix(Join(parts, "/"), parts[|parts| - 1])
  {
    if |parts| > 1 {
      JoinEndsWithLast(parts[1..]);
      var tail, whole := Join(parts[1..], "/"), Join(parts, "/");
      assert whole == parts[0] + "/" + tail;
      assert whole[|whole| - |parts[|parts| - 1]|..] == tail[|tail| - |parts[|parts| - 1]|..];
    }
  }

  lemma DeepEntry(deep: Header, n: nat)
    requires n > 0 && deep == Header(Join(Deep(n), "/"), RegularEntry, 0, [])
    ensures EntryOk(deep) && PathOf(deep) == Deep(n)
  {
    var parts := Deep(n);
    assert parts[0] == "dir" && parts[|parts| - 1] == "file.md" && |parts| > 1;
    JoinEndsWithLast(parts);
    EndsInExtension(deep.name);
    assert deep.name == parts[0] + "/" + Join(parts[1..], "/");
    ReservedNames();
    assert deep.name[0] == 'd';
    PlainEntry(deep, parts);
  }

  lemma EndsInExtension(name: string)
    requires HasSuffix(name, "file.md")
    ensures HasSuffix(name, ".md")
  {
    assert name[|name| - 3..] == name[|name| - 7..][4..] == "file.md"[4..] == ".md";
  }

  ghost function FirstPrefixes(p: Path, n: nat): set<Path>
    requires n <= |p|
  {
    set i | 0 < i <= n :: p[..i]
  }

  lemma {:induction false} FirstPrefixesCount(p: Path, n: nat)
    requires n <= |p|
    ensures |FirstPrefixes(p, n)| == n
  {
    if n > 0 {
      FirstPrefixesCount(p, n - 1);
      assert FirstPrefixes(p, n) == FirstPrefixes(p, n - 1) + {p[..n]};
      assert forall i :: 0 < i < n ==> |p[..i]| != |p[..n]|;
    } else {
      assert FirstPrefixes(p, 0) == {};
    }
  }

  /** A file needs one directory for each component before its last. */
  lemma DeepNeedsDirectories(files: set<Path>, n: nat)
    requires Deep(n) in files
    ensures |Directories(files)| >= n
  {
    var p := Deep(n);
    forall i | 0 < i <= n ensures p[..i] in Directories(files) {
      assert p[..i] in Prefixes(p) && |p[..i]| < |p|;
    }
    assert FirstPrefixes(p, n) <= Directories(files);
    FirstPrefixesCount(p, n);
    SubsetSize(FirstPrefixes(p, n), Directories(files));
  }

  lemma DeepArchive(pack: Header, deep: Header, n: nat)
    requires n > 0 && pack == Header("pack.yaml", RegularEntry, 0, [])
    requires deep == Header(Join(Deep(n), "/"), RegularEntry, 0, [])
    ensures Acceptable([pack, deep])
    ensures FilesOf([pack, deep]).Keys == {["pack.yaml"], Deep(n)} && |FilesOf([pack, deep])| == 2
  {
    PackEntry(pack);
    DeepEntry(deep, n);
    assert Deep(n)[0] == "dir" && ["pack.yaml"][0] == "pack.yaml";
    TwoEntries(pack, deep);
    TwoFiles(pack, deep);
    assert |FilesOf([pack, deep]).Keys| == 2;
  }

  lemma DeepClearOfReserved(files: Files, n: nat)
    requires n > 0 && files.Keys == {["pack.yaml"], Deep(n)}
    ensures NoneBelow(files, RESERVED.lock) && NoneBelow(files, RESERVED.archive) && RESERVED.lock != RESERVED.archive
  {
    ReservedNames();
    assert Deep(n)[0] == "dir" && "dir"[0] == 'd' && ["pack.yaml"][0] == "pack.yaml" && "pack.yaml"[0] == 'p';
    forall p | p in files ensures p != [] && p[0] != "" && (p[0][0] == 'd' || p[0][0] == 'p') {
      assert p == ["pack.yaml"] || p == Deep(n);
    }
  }

  /** An accepted archive that installs and never validates: one file under 8188 or more
      directories, beside pack.yaml. */
  lemma InstallsButNeverValidates(pack: Header, deep: Header, n: nat, lock: Bytes, archive: Bytes,
                                  derive: (Bytes, Bytes) -> Option<Files>)
    requires pack == Header("pack.yaml", RegularEntry, 0, []) && deep == Header(Join(Deep(n), "/"), RegularEntry, 0, [])
    requires n + 5 > MAX_INSTALLED && derive(lock, archive) == Some(FilesOf([pack, deep]))
    requires |lock| <= MAX_LOCK && |archive| <= MAX_DOWNLOAD
    ensures Acceptable([pack, deep])
    ensures Installable(FilesOf([pack, deep]), RESERVED)
    ensures !ValidInstall(Layout(Installed(FilesOf([pack, deep]), RESERVED, lock, archive)), RESERVED, derive)
  {
    DeepArchive(pack, deep, n);
    DeepClearOfReserved(FilesOf([pack, deep]), n);
    assert PrefixFree(FilesOf([pack, deep]).Keys);
    NeverValidates(FilesOf([pack, deep]), RESERVED, n, lock, archive, derive);
  }

  lemma NeverValidates(files: Files, at: Names, n: nat, lock: Bytes, archive: Bytes,
                       derive: (Bytes, Bytes) -> Option<Files>)
    requires Installable(files, at) && at.lock != at.archive
    requires Deep(n) in files && |files| + n + 3 > MAX_INSTALLED && derive(lock, archive) == Some(files)
    requires |lock| <= MAX_LOCK && |archive| <= MAX_DOWNLOAD
    ensures !ValidInstall(Layout(Installed(files, at, lock, archive)), at, derive)
  {
    assert [at.lock][0] == at.lock && [at.archive][0] == at.archive;
    InstalledIsPrefixFree(files, at, lock, archive);
    DeepNeedsDirectories(files.Keys, n);
    InstalledValidates(files, at, lock, archive, derive);
  }

  lemma AddTop(files: Files, top: string, data: Bytes)
    requires PrefixFree(files.Keys) && NoneBelow(files, top)
    ensures PrefixFree(files[[top] := data].Keys)
    ensures forall other :: other != top && NoneBelow(files, other) ==> NoneBelow(files[[top] := data], other)
  {
    TopFileFits(files, top);
    assert files[[top] := data].Keys == files.Keys + {[top]};
  }

  lemma InstalledIsPrefixFree(files: Files, at: Names, lock: Bytes, archive: Bytes)
    requires Installable(files, at) && at.lock != at.archive
    ensures PrefixFree(Installed(files, at, lock, archive).Keys)
  {
    AddTop(files, at.lock, lock);
    AddTop(files[[at.lock] := lock], at.archive, archive);
  }

  lemma InstalledEvidence(files: Files, at: Names, lock: Bytes, archive: Bytes)
    requires at.lock != at.archive
    ensures var nodes := Layout(Installed(files, at, lock, archive));
      && [at.lock] in nodes && nodes[[at.lock]] == File(lock)
      && [at.archive] in nodes && nodes[[at.archive]] == File(archive)
  {
    var all := Installed(files, at, lock, archive);
    assert [at.lock][0] != [at.archive][0];
    assert all[[at.lock]] == lock && all[[at.archive]] == archive;
  }

  lemma InstalledContent(files: Files, at: Names, lock: Bytes, archive: Bytes)
    requires at.lock != at.archive && [at.lock] !in files && [at.archive] !in files
    ensures var nodes := Layout(Installed(files, at, lock, archive));
      Intact(nodes, files, at) <==> |nodes| + 1 <= MAX_INSTALLED
  {
    var all := Installed(files, at, lock, archive);
    assert forall p :: p in all && p != [at.lock] && p != [at.archive] ==> p in files && all[p] == files[p];
    assert forall p :: p in files ==> p in all && all[p] == files[p];
  }

  lemma InstalledSize(files: Files, at: Names, lock: Bytes, archive: Bytes)
    requires at.lock != at.archive && [at.lock] !in files && [at.archive] !in files
    requires PrefixFree(Installed(files, at, lock, archive).Keys)
    ensures |Layout(Installed(files, at, lock, archive))| == |files| + 2 + |Directories(files.Keys)|
  {
    var keys := files.Keys + {[at.lock]} + {[at.archive]};
    InstalledKeys(files, at, lock, archive);
    TopNeedsNoDirectory(files.Keys, at.lock);
    TopNeedsNoDirectory(files.Keys + {[at.lock]}, at.archive);
    DirectoriesAreNotFiles(keys);
    LayoutSize(Installed(files, at, lock, archive));
  }

  lemma InstalledKeys(files: Files, at: Names, lock: Bytes, archive: Bytes)
    requires at.lock != at.archive && [at.lock] !in files && [at.archive] !in files
    ensures Installed(files, at, lock, archive).Keys == files.Keys + {[at.lock]} + {[at.archive]}
    ensures |files.Keys + {[at.lock]} + {[at.archive]}| == |files| + 2
  {
    assert [at.lock][0] != [at.archive][0];
  }

  lemma LayoutSize(files: Files)
    ensures |Layout(files)| == |Directories(files.Keys) + files.Keys|
  {
    assert Layout(files).Keys == Directories(files.Keys) + files.Keys;
    assert |Layout(files).Keys| == |Layout(files)|;
  }

  lemma DirectoriesAreNotFiles(files: set<Path>)
    requires PrefixFree(files)
    ensures Directories(files) !! files
    ensures |Directories(files) + files| == |Directories(files)| + |files|
  {
    forall q | q in Directories(files) ensures q !in files {
      var p :| p in files && q in Prefixes(p) && q != p;
      PrefixesExactly(p, q);
    }
  }

  lemma TopNeedsNoDirectory(files: set<Path>, top: string)
    ensures Directories(files + {[top]}) == Directories(files)
  {
    DirectoriesGrow(files, [top]);
    assert Parent([top]) == [] && Prefixes([]) == {};
  }

  lemma OneMorePrefix(dir: Path, i: nat)
    requires i < |dir|
    ensures Prefixes(dir[..i + 1]) == Prefixes(dir[..i]) + {dir[..i + 1]} && dir[..i + 1] in Prefixes(dir)
  {
    var next := dir[..i + 1];
    assert next in Prefixes(dir) && next != [] && Parent(next) == dir[..i];
    forall q ensures q in Prefixes(next) <==> q in Prefixes(dir[..i]) || q == next {
      PrefixesExactly(next, q);
    }
  }

  lemma PrefixesExactly(p: Path, q: Path)
    ensures q in Prefixes(p) <==> q != [] && q <= p
    ensures p != [] ==> (q in Prefixes(Parent(p)) <==> q in Prefixes(p) && q != p)
  {
    if q <= p { assert q == p[..|q|]; }
    if p != [] {
      if q in Prefixes(p) && q != p { assert q == p[..|q|] == Parent(p)[..|q|]; }
      if q in Prefixes(Parent(p)) { assert q == Parent(p)[..|q|] == p[..|q|]; }
    }
  }

  /** A file fits exactly when no file is above it and none below. */
  lemma FitsExactly(done: set<Path>, name: Path)
    requires PrefixFree(done) && name !in done && name != [] && [] !in done
    ensures PrefixFree(done + {name}) <==>
      (forall f :: f in done ==> f !in Prefixes(Parent(name))) && name !in Directories(done)
  {
    forall f | f in done ensures f in Prefixes(Parent(name)) <==> f <= name {
      PrefixesExactly(name, f);
    }
    forall f | f in done ensures name in Prefixes(f) <==> name <= f {
      PrefixesExactly(f, name);
    }
    if PrefixFree(done + {name}) {
      forall f | f in done ensures f !in Prefixes(Parent(name)) && name !in Prefixes(f) {
        assert f in done + {name} && name in done + {name};
      }
    }
  }

  lemma DirectoriesGrow(done: set<Path>, name: Path)
    requires name != []
    ensures Directories(done + {name}) == Directories(done) + Prefixes(Parent(name))
  {
    forall q ensures q in Prefixes(Parent(name)) <==> q in Prefixes(name) && q != name {
      PrefixesExactly(name, q);
    }
  }

  /** Whether one more file fits into the tree written so far, and the tree it gives. */
  lemma AddFile(done: Files, name: Path, data: Bytes)
    requires PrefixFree(done.Keys) && name !in done && name != [] && [] !in done
    ensures var was, dir := Layout(done), Parent(name);
      && (CanMake(was, dir) && name !in WithDirectories(was, dir) <==> PrefixFree(done.Keys + {name}))
      && (dir != [] ==>
        dir in WithDirectories(was, dir) && (CanMake(was, dir) ==> WithDirectories(was, dir)[dir].Directory?))
      && (PrefixFree(done.Keys + {name}) ==>
        WithDirectories(was, dir)[name := File(data)] == Layout(done[name := data]))
  {
    var was, dir := Layout(done), Parent(name);
    FitsExactly(done.Keys, name);
    PrefixesExactly(dir, name);
    PrefixesExactly(dir, dir);
    assert CanMake(was, dir) <==> forall f :: f in done ==> f !in Prefixes(dir);
    assert name in WithDirectories(was, dir) <==> name in Directories(done.Keys);
    if PrefixFree(done.Keys + {name}) { LayoutGrows(done, name, data); }
  }

  lemma LayoutGrows(done: Files, name: Path, data: Bytes)
    requires name != [] && forall f :: f in done ==> f !in Prefixes(Parent(name))
    ensures WithDirectories(Layout(done), Parent(name))[name := File(data)] == Layout(done[name := data])
  {
    DirectoriesGrow(done.Keys, name);
    assert done[name := data].Keys == done.Keys + {name};
  }
}
