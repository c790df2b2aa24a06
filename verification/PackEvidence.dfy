/** The evidence a pack is trusted on: a signed manifest, a pin for each pack version, and an
    archive that has to match its pin. Signatures, digests and decoding are parameters. */
module PackEvidence {
  import opened Strings
  import opened Order
  import opened PackArchive

  datatype Identity = Identity(name: string, version: string)

  /** A signed entry: what it names, the digest and size of its archive, everything else. */
  datatype Pin = Pin(id: Identity, digest: string, size: nat, rest: string)
  datatype Manifest = Manifest(registry: string, packs: seq<Pin>, revoked: seq<Identity>)
  datatype Lock = Lock(pin: Pin, registry: string, manifest: Bytes, bundle: Bytes)

  /** `authenticate` yields the manifest in signed bytes; `newer` compares versions. */
  datatype Tools = Tools(parseLock: Bytes -> Option<Lock>, authenticate: (Bytes, Bytes) -> Option<Manifest>,
                         digest: Bytes -> string, open: Bytes -> Option<Stream>,
                         identity: Bytes -> Option<Identity>, validPin: Pin -> bool,
                         stable: string -> bool, newer: (string, string) -> bool)

  function DirectoryName(id: Identity): string {
    id.name + "@" + id.version
  }

  // ---- One pin per identity ----

  /** How many signed entries carry an identity. */
  function Signed(packs: seq<Pin>, id: Identity): seq<Pin> {
    if packs == [] then []
    else if packs[0].id == id then [packs[0]] + Signed(packs[1..], id)
    else Signed(packs[1..], id)
  }

  /** The one entry with an identity; two of them are as bad as none. */
  method FindSigned(packs: seq<Pin>, id: Identity) returns (pin: Option<Pin>)
    ensures pin == if |Signed(packs, id)| == 1 then Some(Signed(packs, id)[0]) else None
  {
    pin := None;
    for i := 0 to |packs|
      invariant |Signed(packs, id)| == |Signed(packs[i..], id)| + if pin.Some? then 1 else 0
      invariant pin.None? ==> Signed(packs, id) == Signed(packs[i..], id)
      invariant pin.Some? ==> Signed(packs, id) == [pin.value] + Signed(packs[i..], id)
    {
      assert packs[i..][0] == packs[i] && packs[i..][1..] == packs[i + 1..];
      if packs[i].id == id {
        if pin.Some? { return None; }
        pin := Some(packs[i]);
      }
    }
  }

  // ---- From evidence to files ----

  /** The archive of a pin: its size and digest, an accepted stream, and a pack.yaml that
      names the same pack. */
  ghost function VerifiedArchive(t: Tools, pin: Pin, archive: Bytes): Option<Files> {
    if |archive| != pin.size || t.digest(archive) != pin.digest then None
    else match t.open(archive)
      case None => None
      case Some(stream) =>
        if !Accepted(stream) || t.identity(FilesOf(stream.entries)[["pack.yaml"]]) != Some(pin.id) then None
        else Some(FilesOf(stream.entries))
  }

  /** The signed pin that a lock refers to, when the lock says nothing but what is signed. */
  ghost function SignedPin(t: Tools, directory: string, lockText: Bytes): Option<Pin> {
    match t.parseLock(lockText)
    case None => None
    case Some(lock) =>
      match t.authenticate(lock.manifest, lock.bundle)
      case None => None
      case Some(m) =>
        if Signed(m.packs, lock.pin.id) == [lock.pin] && lock.registry == m.registry && t.validPin(lock.pin)
          && directory == DirectoryName(lock.pin.id) && lock.pin.id !in m.revoked
        then Some(lock.pin) else None
  }

  ghost function Derive(t: Tools, directory: string, lockText: Bytes, archive: Bytes): Option<Files> {
    match SignedPin(t, directory, lockText)
    case None => None
    case Some(pin) => VerifiedArchive(t, pin, archive)
  }

  method CheckPin(t: Tools, directory: string, lockText: Bytes) returns (pin: Option<Pin>)
    ensures pin == SignedPin(t, directory, lockText)
  {
    var lock := t.parseLock(lockText);
    if lock.None? { return None; }
    var m := t.authenticate(lock.value.manifest, lock.value.bundle);
    if m.None? { return None; }
    pin := FindSigned(m.value.packs, lock.value.pin.id);
    if pin.None? || pin.value != lock.value.pin || lock.value.registry != m.value.registry { return None; }
    if !t.validPin(pin.value) || directory != DirectoryName(pin.value.id) { return None; }
    var revoked := IsRevoked(m.value.revoked, pin.value.id);
    if revoked { return None; }
  }

  method IsRevoked(revoked: seq<Identity>, id: Identity) returns (found: bool)
    ensures found <==> id in revoked
  {
    for i := 0 to |revoked|
      invariant id !in revoked[..i]
    {
      if revoked[i] == id { return true; }
    }
    return false;
  }

  method DeriveFiles(t: Tools, directory: string, lockText: Bytes, archive: Bytes) returns (files: Option<Files>)
    ensures files == Derive(t, directory, lockText, archive)
  {
    var pin := CheckPin(t, directory, lockText);
    if pin.None? || |archive| != pin.value.size || t.digest(archive) != pin.value.digest { return None; }
    var stream := t.open(archive);
    if stream.None? { return None; }
    files := Extract(stream.value);
    if files.Some? && t.identity(files.value[["pack.yaml"]]) != Some(pin.value.id) { return None; }
  }

  // ---- What cannot be forged ----

  ghost predicate Injective(digest: Bytes -> string) {
    forall a, b :: digest(a) == digest(b) ==> a == b
  }

  /** The only entry with its identity. */
  ghost predicate OnlyEntry(packs: seq<Pin>, pin: Pin) {
    exists i :: 0 <= i < |packs| && packs[i] == pin && forall j :: 0 <= j < |packs| && j != i ==> packs[j].id != pin.id
  }

  lemma {:induction false} SignedExactly(packs: seq<Pin>, p: Pin)
    ensures Signed(packs, p.id) == [] <==> forall j :: 0 <= j < |packs| ==> packs[j].id != p.id
    ensures Signed(packs, p.id) == [p] <==> OnlyEntry(packs, p)
  {
    if packs != [] {
      SignedExactly(packs[1..], p);
      OnlyEntryAfter(packs, p);
      assert forall j :: 0 <= j < |packs[1..]| ==> packs[1..][j] == packs[j + 1];
      assert forall j :: 0 < j < |packs| ==> packs[j] == packs[1..][j - 1];
      if packs[0].id == p.id {
        assert |Signed(packs, p.id)| == 1 + |Signed(packs[1..], p.id)| && Signed(packs, p.id)[0] == packs[0];
      }
    }
  }

  lemma OnlyEntryAfter(packs: seq<Pin>, p: Pin)
    requires packs != []
    ensures OnlyEntry(packs, p) <==>
      if packs[0].id == p.id then packs[0] == p && forall j :: 0 < j < |packs| ==> packs[j].id != p.id
      else OnlyEntry(packs[1..], p)
  {
    if i :| 0 <= i < |packs[1..]| && packs[1..][i] == p
            && forall j :: 0 <= j < |packs[1..]| && j != i ==> packs[1..][j].id != p.id {
      assert packs[i + 1] == p;
      assert forall j :: 0 < j < |packs| ==> packs[j] == packs[1..][j - 1];
    }
    if i :| 0 < i < |packs| && packs[i] == p && forall j :: 0 <= j < |packs| && j != i ==> packs[j].id != p.id {
      assert packs[1..][i - 1] == p;
    }
  }

  /** A lock that repeats a signed, valid, unrevoked entry, found under its directory name. */
  ghost predicate GoodLock(t: Tools, directory: string, lock: Lock, m: Manifest) {
    && t.authenticate(lock.manifest, lock.bundle) == Some(m) && lock.registry == m.registry
    && OnlyEntry(m.packs, lock.pin) && t.validPin(lock.pin) && lock.pin.id !in m.revoked
    && directory == lock.pin.id.name + ("@" + lock.pin.id.version)
  }

  /** An archive of the pinned size and digest that is accepted and names the pinned pack. */
  ghost predicate Fits(t: Tools, pin: Pin, archive: Bytes, files: Files) {
    && |archive| == pin.size && t.digest(archive) == pin.digest
    && t.open(archive).Some? && Accepted(t.open(archive).value) && files == FilesOf(t.open(archive).value.entries)
    && ["pack.yaml"] in files && t.identity(files[["pack.yaml"]]) == Some(pin.id)
  }

  /** Files derive exactly from a good lock and an archive that fits its pin. */
  lemma DerivesExactly(t: Tools, directory: string, lockText: Bytes, archive: Bytes, files: Files)
    ensures Derive(t, directory, lockText, archive) == Some(files) <==>
      exists lock, m :: t.parseLock(lockText) == Some(lock) && GoodLock(t, directory, lock, m)
        && Fits(t, lock.pin, archive, files)
  {
    if t.parseLock(lockText).Some? {
      var lock := t.parseLock(lockText).value;
      assert lock.pin.id.name + "@" + lock.pin.id.version == lock.pin.id.name + ("@" + lock.pin.id.version);
      if t.authenticate(lock.manifest, lock.bundle).Some? {
        var m := t.authenticate(lock.manifest, lock.bundle).value;
        SignedExactly(m.packs, lock.pin);
        assert GoodLock(t, directory, lock, m) <==> SignedPin(t, directory, lockText) == Some(lock.pin);
      }
    }
  }

  /** Whatever a lock says: files derive only from the archive that a signed, unrevoked pin of
      the same directory name pins, and they are its files. */
  lemma OnlySignedContent(t: Tools, directory: string, lockText: Bytes, archive: Bytes)
    requires Derive(t, directory, lockText, archive).Some?
    ensures exists manifest, bundle, m, pin ::
      && t.authenticate(manifest, bundle) == Some(m) && pin in m.packs && pin.id !in m.revoked
      && DirectoryName(pin.id) == directory && t.digest(archive) == pin.digest
      && VerifiedArchive(t, pin, archive) == Derive(t, directory, lockText, archive)
  {
    var lock := t.parseLock(lockText).value;
    var m := t.authenticate(lock.manifest, lock.bundle).value;
    SignedAreListed(m.packs, lock.pin.id);
    assert lock.pin in Signed(m.packs, lock.pin.id);
  }

  lemma {:induction false} SignedAreListed(packs: seq<Pin>, id: Identity)
    ensures forall p :: p in Signed(packs, id) ==> p in packs && p.id == id
  {
    if packs != [] { SignedAreListed(packs[1..], id); }
  }

  /** Two installed trees that validate against pins with the same digest hold the same files,
      in name and bytes, whatever their locks and their other contents. */
  lemma SamePinSameContent(t: Tools, at: Names, a: map<Path, Node>, nameA: string, b: map<Path, Node>, nameB: string)
    requires Injective(t.digest)
    requires ValidInstall(a, at, (l, x) => Derive(t, nameA, l, x))
    requires ValidInstall(b, at, (l, x) => Derive(t, nameB, l, x))
    requires SignedPin(t, nameA, a[[at.lock]].data).value.digest == SignedPin(t, nameB, b[[at.lock]].data).value.digest
    ensures forall p :: p in a && IsContent(a, p, at) <==> p in b && IsContent(b, p, at)
    ensures forall p :: p in a && IsContent(a, p, at) ==> b[p] == a[p]
  {
    assert a[[at.archive]].data == b[[at.archive]].data;
    var files := Derive(t, nameA, a[[at.lock]].data, a[[at.archive]].data).value;
    assert Derive(t, nameB, b[[at.lock]].data, b[[at.archive]].data).value == files;
  }

  // ---- Resolving a name ----

  ghost predicate StrictOrder(newer: (string, string) -> bool) {
    && (forall v :: !newer(v, v))
    && forall u, v, w :: newer(u, v) && newer(v, w) ==> newer(u, w)
  }

  predicate Candidate(t: Tools, p: Pin, name: string) {
    p.id.name == name && t.stable(p.id.version)
  }

  /** No stable version of the name is listed twice. */
  ghost predicate Unambiguous(t: Tools, packs: seq<Pin>, name: string) {
    forall i, j :: 0 <= i < j < |packs| && Candidate(t, packs[i], name) && Candidate(t, packs[j], name) ==>
      packs[i].id.version != packs[j].id.version
  }

  ghost predicate Newest(t: Tools, packs: seq<Pin>, name: string, p: Pin) {
    && p in packs && Candidate(t, p, name)
    && forall q :: q in packs && Candidate(t, q, name) ==> !t.newer(q.id.version, p.id.version)
  }

  /** Resolves to a newest stable version or to nothing: an older version never stands in for
      one that is revoked or badly pinned. */
  method Resolve(t: Tools, m: Manifest, name: string) returns (pin: Option<Pin>)
    requires StrictOrder(t.newer)
    ensures pin.Some? ==> Unambiguous(t, m.packs, name) && Newest(t, m.packs, name, pin.value)
    ensures pin.Some? ==> pin.value in m.packs && pin.value.id.name == name && t.stable(pin.value.id.version)
    ensures pin.Some? ==> t.validPin(pin.value) && pin.value.id !in m.revoked
    ensures pin.None? ==>
      || !Unambiguous(t, m.packs, name) || (forall q :: q in m.packs ==> !Candidate(t, q, name))
      || exists p :: Newest(t, m.packs, name, p) && !(t.validPin(p) && p.id !in m.revoked)
  {
    var seen: set<string> := {};
    var best: Option<Pin> := None;
    for i := 0 to |m.packs|
      invariant seen == VersionsOf(t, m.packs[..i], name) && Unambiguous(t, m.packs[..i], name)
      invariant best.None? <==> forall q :: q in m.packs[..i] ==> !Candidate(t, q, name)
      invariant best.Some? ==> Newest(t, m.packs[..i], name, best.value)
    {
      var e := m.packs[i];
      OneMorePack(t, m.packs, name, i);
      if e.id.name == name && t.stable(e.id.version) {
        if e.id.version in seen { return None; }
        seen := seen + {e.id.version};
        if best.None? || t.newer(e.id.version, best.value.id.version) { best := Some(e); }
      }
    }
    assert m.packs[..|m.packs|] == m.packs;
    if best.None? || !t.validPin(best.value) { return None; }
    var revoked := IsRevoked(m.revoked, best.value.id);
    if revoked { return None; }
    return best;
  }

  ghost function VersionsOf(t: Tools, packs: seq<Pin>, name: string): set<string> {
    set p | p in packs && Candidate(t, p, name) :: p.id.version
  }

  lemma OneMorePack(t: Tools, packs: seq<Pin>, name: string, i: nat)
    requires i < |packs|
    ensures var before, after, e := packs[..i], packs[..i + 1], packs[i];
      && after == before + [e]
      && VersionsOf(t, after, name)
         == VersionsOf(t, before, name) + (if Candidate(t, e, name) then {e.id.version} else {})
      && (Unambiguous(t, after, name) <==>
        Unambiguous(t, before, name) && (Candidate(t, e, name) ==> e.id.version !in VersionsOf(t, before, name)))
      && (!Unambiguous(t, after, name) ==> !Unambiguous(t, packs, name))
  {
    var before, after, e := packs[..i], packs[..i + 1], packs[i];
    assert after == before + [e];
    assert forall j :: 0 <= j < i ==> after[j] == before[j] && packs[j] == before[j];
    if Candidate(t, e, name) && e.id.version in VersionsOf(t, before, name) {
      var p :| p in before && Candidate(t, p, name) && p.id.version == e.id.version;
      var j :| 0 <= j < i && before[j] == p;
      assert after[j] == p && after[i] == e;
    }
  }
}
