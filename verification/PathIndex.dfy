/** The path index over scope globs: how a scope becomes an indexed row, which keys a query
    path looks up, and what that lookup answers compared with running the glob itself. */
module PathIndex {
  import opened Strings
  import opened Glob

  datatype PatternType = Universal | Exact | Prefix | GlobPattern

  /** Position of the first `*` or `?`, or the length when there is none. */
  function FirstWild(s: string): (i: nat)
    ensures i <= |s|
    ensures Literal(s[..i])
    ensures i < |s| ==> IsWild(s[i])
  {
    if s == "" || IsWild(s[0]) then 0
    else
      var i := 1 + FirstWild(s[1..]);
      assert s[..i] == [s[0]] + s[1..][..i - 1];
      i
  }

  /** The part of `s` up to and including its last slash. */
  function ThroughLastSlash(s: string): (r: string)
    ensures r <= s && '/' !in s[|r|..]
    ensures r != "" ==> r[|r| - 1] == '/'
  {
    if s == "" then ""
    else if s[|s| - 1] == '/' then s
    else
      var r := ThroughLastSlash(s[..|s| - 1]);
      assert s[|r|..] == s[..|s| - 1][|r|..] + [s[|s| - 1]];
      r
  }

  function ClassifyScope(scope: string): (PatternType, string) {
    var norm := ToSlash(scope);
    if norm == "**" then (Universal, "")
    else
      var wild := FirstWild(norm);
      if wild == |norm| then (Exact, norm)
      else if HasSuffix(norm, "/**") && Literal(norm[..|norm| - 3]) then
        (Prefix, norm[..|norm| - 3] + "/")
      else
        (GlobPattern, ThroughLastSlash(norm[..wild]))
  }

  /** The keys a path is looked up under: every directory above it, and itself. */
  method PathPrefixes(path: string) returns (prefixes: seq<string>)
    ensures path == "" ==> prefixes == []
    ensures path != "" ==> forall key :: key in prefixes <==> IsLookupKey(key, path)
  {
    if path == "" { return []; }
    var parts := Split(path, '/');
    prefixes := [];
    for i := 1 to |parts| + 1
      invariant |prefixes| == i - 1
      invariant forall j :: 0 <= j < i - 1 ==>
        prefixes[j] == Join(parts[..j + 1], "/") + (if j + 1 < |parts| then "/" else "")
    {
      var p := Join(parts[..i], "/");
      if i < |parts| { p := p + "/"; }
      prefixes := prefixes + [p];
    }
    PrefixesAreLookupKeys(path, prefixes);
  }

  /** A key names the path itself or one of the directories above it. */
  predicate IsLookupKey(key: string, path: string) {
    key == path || (key != "" && key[|key| - 1] == '/' && key <= path)
  }

  lemma {:induction false} JoinOfPrefix(parts: seq<string>, i: nat)
    requires 0 < i < |parts|
    ensures Join(parts, "/") == Join(parts[..i], "/") + "/" + Join(parts[i..], "/")
  {
    assert parts[..i][0] == parts[0];
    if i > 1 {
      JoinOfPrefix(parts[1..], i - 1);
      assert parts[..i][1..] == parts[1..][..i - 1] && parts[i..] == parts[1..][i - 1..];
    }
  }

  /** Cutting a joined path just after one of its slashes cuts it between two parts. */
  lemma {:induction false} CutAtSlash(parts: seq<string>, key: string) returns (i: nat)
    requires parts != [] && forall p :: p in parts ==> '/' !in p
    requires key != "" && key[|key| - 1] == '/' && key <= Join(parts, "/")
    ensures 0 < i < |parts| && key == Join(parts[..i], "/") + "/"
  {
    var text, head := Join(parts, "/"), parts[0];
    assert key[|key| - 1] == text[|key| - 1];
    assert head in parts;
    assert forall k :: 0 <= k < |head| ==> text[k] == head[k] && text[k] != '/';
    var rest := key[|head| + 1..];
    assert text[|head| + 1..] == Join(parts[1..], "/");
    assert key == head + "/" + rest by {
      assert text[..|head| + 1] == head + "/";
      assert key[..|head| + 1] == text[..|head| + 1];
    }
    if rest == "" {
      i := 1;
      assert parts[..1] == [head];
    } else {
      var j := CutAtSlash(parts[1..], rest);
      i := j + 1;
      assert parts[..i][1..] == parts[1..][..j];
    }
  }

  lemma PrefixesAreLookupKeys(path: string, prefixes: seq<string>)
    requires path != ""
    requires var parts := Split(path, '/');
      |prefixes| == |parts| &&
      forall j :: 0 <= j < |parts| ==> prefixes[j] == Join(parts[..j + 1], "/") + (if j + 1 < |parts| then "/" else "")
    ensures forall key :: key in prefixes <==> IsLookupKey(key, path)
  {
    var parts := Split(path, '/');
    JoinAfterSplit(path, '/');
    assert parts[..|parts|] == parts;
    assert prefixes[|parts| - 1] == path;
    forall j | 0 <= j < |parts| ensures IsLookupKey(prefixes[j], path) {
      if j + 1 < |parts| { JoinOfPrefix(parts, j + 1); }
    }
    forall key | IsLookupKey(key, path) ensures key in prefixes {
      if key != path {
        var i := CutAtSlash(parts, key);
        assert prefixes[i - 1] == key;
      }
    }
  }

  /** One row of the scope table. Rows written before the index columns existed keep the
      defaults: glob type, empty prefix. */
  datatype IndexKey = IndexKey(kind: PatternType, prefix: string)

  predicate Indexed(key: IndexKey, scope: string) {
    (key.kind, key.prefix) == ClassifyScope(scope) || key == IndexKey(GlobPattern, "")
  }

  /** What the plain scan does with one scope. */
  predicate ScopeMatches(scope: string, path: string) {
    var norm := ToSlash(scope);
    norm == "**" || Match(norm, path)
  }

  /** What the index answers for one row. */
  predicate RowHit(key: IndexKey, scope: string, path: string) {
    match key.kind
    case Universal => true
    case Prefix => IsLookupKey(key.prefix, path)
    case Exact => IsLookupKey(key.prefix, path)
    case GlobPattern => ScopeMatches(scope, path)
  }

  /** The one place where the index says more than the glob: an indexed literal scope
      written with a trailing slash shares its key with the directories above a path. */
  predicate NamesDirectory(key: IndexKey, scope: string) {
    key.kind == Exact && HasSuffix(ToSlash(scope), "/")
  }

  /** A literal scope answers itself, and everything below it if it ends in a slash. */
  lemma ExactHit(norm: string, path: string)
    requires Literal(norm) && path != ""
    ensures IsLookupKey(norm, path) <==> Match(norm, path) || (HasSuffix(norm, "/") && norm <= path)
  {
    LiteralMatchesItself(norm, path);
    if norm != "" { assert norm[|norm| - 1..] == [norm[|norm| - 1]]; }
  }

  // A literal base, a slash and two stars: found through the base and its slash alone.
  lemma PrefixHit(norm: string, path: string)
    requires HasSuffix(norm, "/**") && Literal(norm[..|norm| - 3])
    ensures IsLookupKey(norm[..|norm| - 3] + "/", path) <==> Match(norm, path)
  {
    var base := norm[..|norm| - 3];
    var lit := base + "/";
    assert Literal(lit);
    assert norm == lit + "**" by { assert norm == base + "/**"; }
    LiteralHead(lit, "**", path);
    if lit <= path { SuperMatchesAll(path[|lit|..]); }
  }

  /** The scan matches as the glob does, `**` included. */
  lemma ScanIsGlob(scope: string, path: string)
    ensures ScopeMatches(scope, path) <==> Match(ToSlash(scope), path)
  {
    SuperMatchesAll(path);
  }

  /** For every row and every path, exactly what the index answers. */
  lemma RowHitExactly(key: IndexKey, scope: string, path: string)
    requires Indexed(key, scope) && path != ""
    ensures RowHit(key, scope, path) <==>
      Match(ToSlash(scope), path) || (NamesDirectory(key, scope) && ToSlash(scope) <= path)
  {
    var norm := ToSlash(scope);
    ScanIsGlob(scope, path);
    if key.kind.Exact? {
      assert norm[..|norm|] == norm;
      ExactHit(norm, path);
    } else if key.kind.Prefix? {
      PrefixHit(norm, path);
    }
  }

  /** Index and glob agree on every path exactly when the row does not name a directory. */
  lemma IndexAgreesUnlessDirectory(key: IndexKey, scope: string)
    requires Indexed(key, scope)
    ensures (forall path :: path != "" ==> (RowHit(key, scope, path) <==> Match(ToSlash(scope), path)))
      <==> !NamesDirectory(key, scope)
  {
    forall path | path != "" ensures RowHit(key, scope, path) <==>
      Match(ToSlash(scope), path) || (NamesDirectory(key, scope) && ToSlash(scope) <= path)
    {
      RowHitExactly(key, scope, path);
    }
    if NamesDirectory(key, scope) {
      var norm := ToSlash(scope);
      var below := norm + "x";
      assert norm[..|norm|] == norm;
      LiteralMatchesItself(norm, below);
      assert below != norm && norm <= below;
      RowHitExactly(key, scope, below);
      assert !(RowHit(key, scope, below) <==> Match(norm, below));
    }
  }

  /** The prefix stored for a glob is the longest literal directory in front of its first
      wildcard, so a lookup that compares prefixes first never loses a match. */
  lemma GlobPrefixIsSafe(scope: string, path: string)
    requires ClassifyScope(scope).0.GlobPattern?
    ensures var norm, prefix := ToSlash(scope), ClassifyScope(scope).1;
      && (Match(norm, path) ==> prefix <= path)
      && prefix <= norm && EndsDirectory(prefix) && Literal(prefix)
      && forall n: nat :: n <= |norm| && EndsDirectory(norm[..n]) && Literal(norm[..n]) ==> n <= |prefix|
  {
    var norm, prefix := ToSlash(scope), ClassifyScope(scope).1;
    LiteralPart(norm[..FirstWild(norm)], prefix);
    assert prefix == norm[..|prefix|];
    LiteralHead(prefix, norm[|prefix|..], path);
    assert norm == prefix + norm[|prefix|..];
    forall n: nat | n <= |norm| && EndsDirectory(norm[..n]) && Literal(norm[..n]) ensures n <= |prefix| {
      LongestDirectory(norm, n);
    }
  }

  lemma LiteralPart(s: string, part: string)
    requires Literal(s) && part <= s
    ensures Literal(part)
  {
    assert forall i :: 0 <= i < |part| ==> part[i] == s[i] && s[i] in s;
  }

  lemma LongestDirectory(norm: string, n: nat)
    requires n <= |norm| && EndsDirectory(norm[..n]) && Literal(norm[..n])
    ensures n <= |ThroughLastSlash(norm[..FirstWild(norm)])|
  {
    var head := norm[..FirstWild(norm)];
    var below := head[|ThroughLastSlash(head)|..];
    assert forall i :: 0 <= i < n ==> norm[i] == norm[..n][i] && norm[i] in norm[..n];
    assert n <= |head|;
    assert forall i :: 0 <= i < |below| ==> below[i] == norm[|head| - |below| + i] && below[i] != '/';
  }

  predicate EndsDirectory(s: string) {
    s == "" || s[|s| - 1] == '/'
  }
}
