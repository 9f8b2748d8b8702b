/**
 Two ways to find the directories of a release from its file paths: slices of the split path,
 and repeated directory names from the file up. Admission counts the first set and the copy
 creates the second.
 */
module ArtifactDirectories {
  const SLASH: char := '/'

  /** No empty segment, so neither a leading nor a doubled slash. */
  predicate WellFormed(path: string) {
    path != "" && path[0] != SLASH && forall i :: 0 <= i < |path| - 1 && path[i] == SLASH ==> path[i + 1] != SLASH
  }

  /** The proper ancestors of a path: what stands before one of its slashes. */
  function Ancestors(path: string): set<string> {
    set i | 0 <= i < |path| && path[i] == SLASH :: path[..i]
  }

  function AllAncestors(paths: seq<string>): set<string> {
    set k, directory | 0 <= k < |paths| && directory in Ancestors(paths[k]) :: directory
  }

  function FirstSlash(path: string): (i: nat)
    requires SLASH in path
    ensures i < |path| && path[i] == SLASH && SLASH !in path[..i]
  {
    if path[0] == SLASH then 0 else 1 + FirstSlash(path[1..])
  }

  function Split(path: string): (r: seq<string>)
    ensures |r| > 0
    decreases |path|
  {
    if SLASH !in path then [path]
    else
      var i := FirstSlash(path);
      [path[..i]] + Split(path[i + 1..])
  }

  function Join(segments: seq<string>): string {
    if segments == [] then "" else if |segments| == 1 then segments[0]
    else segments[0] + [SLASH] + Join(segments[1..])
  }

  function Prepend(prefix: string, path: string): string {
    prefix + path
  }

  function Prefixed(prefix: string, paths: set<string>): set<string> {
    set path | path in paths :: Prepend(prefix, path)
  }

  lemma NoSlashBefore(path: string, first: nat, k: int)
    requires 0 <= k < first <= |path| && SLASH !in path[..first]
    ensures path[k] != SLASH
  {
    assert path[..first][k] == path[k];
  }

  /** The head of a path, and its ancestors behind the first slash. */
  lemma AncestorsBehindFirstSlash(path: string)
    requires SLASH in path
    ensures var i := FirstSlash(path);
      Ancestors(path) == {path[..i]} + Prefixed(path[..i + 1], Ancestors(path[i + 1..]))
  {
    var i := FirstSlash(path);
    var tail := path[i + 1..];
    var moved := Prefixed(path[..i + 1], Ancestors(tail));
    forall x | x in Ancestors(path) ensures x in {path[..i]} + moved {
      var k :| 0 <= k < |path| && path[k] == SLASH && path[..k] == x;
      if k < i { NoSlashBefore(path, i, k); }
      if k > i {
        assert tail[k - i - 1] == SLASH;
        assert tail[..k - i - 1] in Ancestors(tail);
        assert Prepend(path[..i + 1], tail[..k - i - 1]) == x;
      }
    }
    forall y | y in Ancestors(tail) ensures Prepend(path[..i + 1], y) in Ancestors(path) {
      var k :| 0 <= k < |tail| && tail[k] == SLASH && tail[..k] == y;
      assert path[i + 1 + k] == SLASH && path[..i + 1 + k] == path[..i + 1] + y;
    }
  }

  predicate IsSlice(path: string, directory: string) {
    exists k :: 1 <= k < |Split(path)| && Join(Split(path)[..k]) == directory
  }

  lemma JoinCons(head: string, rest: seq<string>)
    ensures Join([head] + rest) == if rest == [] then head else head + [SLASH] + Join(rest)
  {
    assert ([head] + rest)[1..] == rest;
  }

  lemma JoinSlice(head: string, rest: seq<string>, k: nat)
    requires 1 <= k <= |rest|
    ensures Join(([head] + rest)[..k]) == if k == 1 then head else head + [SLASH] + Join(rest[..k - 1])
  {
    assert ([head] + rest)[..k] == [head] + rest[..k - 1];
    JoinCons(head, rest[..k - 1]);
  }

  lemma SplitCons(path: string)
    requires SLASH in path
    ensures Split(path) == [path[..FirstSlash(path)]] + Split(path[FirstSlash(path) + 1..])
  {
  }

  lemma HeadAndSlash(path: string, i: nat)
    requires i < |path| && path[i] == SLASH
    ensures path[..i] + [SLASH] == path[..i + 1]
  {
  }

  lemma SliceBehindFirstSlash(path: string, k: nat)
    requires SLASH in path && 1 <= k < |Split(path)|
    ensures var i := FirstSlash(path);
      Join(Split(path)[..k]) == if k == 1 then path[..i] else path[..i + 1] + Join(Split(path[i + 1..])[..k - 1])
  {
    var i := FirstSlash(path);
    SplitCons(path);
    JoinSlice(path[..i], Split(path[i + 1..]), k);
    HeadAndSlash(path, i);
  }

  lemma {:induction false} SliceIsAncestor(path: string, k: nat)
    requires 1 <= k < |Split(path)|
    ensures Join(Split(path)[..k]) in Ancestors(path)
    decreases |path|
  {
    var tail := path[FirstSlash(path) + 1..];
    AncestorsBehindFirstSlash(path);
    SliceBehindFirstSlash(path, k);
    if k > 1 {
      SliceIsAncestor(tail, k - 1);
    }
  }

  lemma AncestorBehindHead(path: string, directory: string) returns (rest: string)
    requires directory in Ancestors(path)
    ensures SLASH in path
    ensures var i := FirstSlash(path);
      directory != path[..i] ==> rest in Ancestors(path[i + 1..]) && directory == path[..i + 1] + rest
  {
    var i := FirstSlash(path);
    AncestorsBehindFirstSlash(path);
    rest := "";
    if directory != path[..i] {
      rest :| rest in Ancestors(path[i + 1..]) && directory == Prepend(path[..i + 1], rest);
    }
  }

  lemma {:induction false} AncestorIsSlice(path: string, directory: string) returns (k: nat)
    requires directory in Ancestors(path)
    ensures 1 <= k < |Split(path)| && Join(Split(path)[..k]) == directory
    decreases |path|
  {
    var rest := AncestorBehindHead(path, directory);
    var i := FirstSlash(path);
    k := 1;
    if directory != path[..i] {
      var inner := AncestorIsSlice(path[i + 1..], rest);
      k := inner + 1;
    }
    SliceBehindFirstSlash(path, k);
  }

  /** Joining a proper slice of the segments names an ancestor, and every ancestor is one. */
  lemma SlicesAreAncestors(path: string, directory: string)
    ensures IsSlice(path, directory) <==> directory in Ancestors(path)
  {
    if IsSlice(path, directory) {
      var k :| 1 <= k < |Split(path)| && Join(Split(path)[..k]) == directory;
      SliceIsAncestor(path, k);
    }
    if directory in Ancestors(path) {
      var k := AncestorIsSlice(path, directory);
    }
  }

  /** The directories admission charges: the root as the empty name, and every ancestor. */
  method DirectoriesForRelease(paths: seq<string>) returns (directories: set<string>)
    ensures directories == {""} + AllAncestors(paths)
  {
    directories := {""};
    for n := 0 to |paths|
      invariant directories == {""} + AllAncestors(paths[..n])
    {
      ghost var before := directories;
      var segments := Split(paths[n]);
      for k := 1 to |segments|
        invariant directories == before + set m | 1 <= m < k :: Join(segments[..m])
      {
        directories := directories + {Join(segments[..k])};
      }
      SlicesOfOne(paths[n]);
      AncestorsOfOneMore(paths, n);
    }
    assert paths[..|paths|] == paths;
  }

  lemma SlicesOfOne(path: string)
    ensures (set m | 1 <= m < |Split(path)| :: Join(Split(path)[..m])) == Ancestors(path)
  {
    var slices := set m | 1 <= m < |Split(path)| :: Join(Split(path)[..m]);
    forall directory ensures directory in slices <==> directory in Ancestors(path) {
      SlicesAreAncestors(path, directory);
    }
  }

  lemma AncestorsOfOneMore(paths: seq<string>, n: nat)
    requires n < |paths|
    ensures AllAncestors(paths[..n + 1]) == AllAncestors(paths[..n]) + Ancestors(paths[n])
  {
    var more := paths[..n + 1];
    assert forall k :: 0 <= k < n ==> more[k] == paths[..n][k];
    forall directory | directory in AllAncestors(paths[..n]) + Ancestors(paths[n])
      ensures directory in AllAncestors(more)
    {
      if directory in Ancestors(paths[n]) {
        assert directory in Ancestors(more[n]);
      } else {
        var k :| 0 <= k < n && directory in Ancestors(paths[..n][k]);
        assert directory in Ancestors(more[k]);
      }
    }
  }

  // ---------------------------------------------------------------- directory names from below

  function LastSlash(path: string): (i: nat)
    requires SLASH in path
    ensures i < |path| && path[i] == SLASH && SLASH !in path[i + 1..]
  {
    var n := |path| - 1;
    if path[n] == SLASH then n
    else
      assert path == path[..n] + [path[n]];
      LastSlash(path[..n])
  }

  function DirectoryName(path: string): string
    requires SLASH in path
  {
    path[..LastSlash(path)]
  }

  function Under(root: string, path: string): string {
    root + [SLASH] + path
  }

  function AllUnder(root: string, paths: set<string>): set<string> {
    set path | path in paths :: Under(root, path)
  }

  /** One step up below the root: the last ancestor, or the root itself. */
  lemma StepUp(root: string, path: string)
    ensures SLASH in Under(root, path)
    ensures if SLASH in path
            then DirectoryName(Under(root, path)) == Under(root, DirectoryName(path))
              && Ancestors(path) == Ancestors(DirectoryName(path)) + {DirectoryName(path)}
            else DirectoryName(Under(root, path)) == root && Ancestors(path) == {}
  {
    var full := Under(root, path);
    assert full[|root|] == SLASH;
    var i := LastSlash(full);
    assert full[|root| + 1..] == path;
    if SLASH in path {
      var k := LastSlash(path);
      assert full[|root| + 1 + k] == SLASH;
      SameLast(full, i, |root| + 1 + k);
      AncestorsUp(path);
    } else {
      SameLast(full, i, |root|);
    }
  }

  lemma NoSlashAfter(path: string, last: nat, k: int)
    requires last < k < |path| && SLASH !in path[last + 1..]
    ensures path[k] != SLASH
  {
    assert path[last + 1..][k - last - 1] == path[k];
  }

  lemma SameLast(path: string, i: nat, k: nat)
    requires i < |path| && k < |path| && path[i] == SLASH && path[k] == SLASH
    requires SLASH !in path[i + 1..] && SLASH !in path[k + 1..]
    ensures i == k
  {
    if i < k { NoSlashAfter(path, i, k); }
    if k < i { NoSlashAfter(path, k, i); }
  }

  lemma AncestorsUp(path: string)
    requires SLASH in path
    ensures Ancestors(path) == Ancestors(DirectoryName(path)) + {DirectoryName(path)}
  {
    var last := LastSlash(path);
    var directory := path[..last];
    forall x | x in Ancestors(path) ensures x in Ancestors(directory) + {directory} {
      var k :| 0 <= k < |path| && path[k] == SLASH && path[..k] == x;
      if k > last { NoSlashAfter(path, last, k); }
      if k < last { assert directory[k] == SLASH && directory[..k] == x; }
    }
    forall x | x in Ancestors(directory) ensures x in Ancestors(path) {
      var k :| 0 <= k < |directory| && directory[k] == SLASH && directory[..k] == x;
      assert path[k] == SLASH && path[..k] == x;
    }
  }

  /** Up from one file until the root is met. */
  method ClimbFrom(root: string, path: string, found: set<string>) returns (directories: set<string>)
    requires WellFormed(path)
    ensures directories == found + AllUnder(root, Ancestors(path))
  {
    directories := found;
    ghost var below := path;
    StepUp(root, path);
    var directory := DirectoryName(Under(root, path));
    RootIsShorter(root, path);
    while directory != root
      invariant Below(root, below, directory)
      invariant directories + AllUnder(root, Ancestors(below)) == found + AllUnder(root, Ancestors(path))
      decreases |below|
    {
      directories := directories + {directory};
      ClimbOne(root, below);
      StepUp(root, DirectoryName(below));
      RootIsShorter(root, DirectoryName(below));
      below := DirectoryName(below);
      directory := DirectoryName(directory);
    }
    assert Ancestors(below) == {};
  }

  /** The directory of a path under the root. */
  ghost predicate Below(root: string, path: string, directory: string) {
    && (SLASH in path <==> directory != root)
    && (SLASH in path ==> directory == Under(root, DirectoryName(path)))
  }

  lemma RootIsShorter(root: string, path: string)
    ensures SLASH in Under(root, path)
    ensures Below(root, path, DirectoryName(Under(root, path)))
  {
    StepUp(root, path);
    if SLASH in path {
      assert |Under(root, DirectoryName(path))| > |root|;
    }
  }

  /** The directories the copy creates: the root and what is climbed through from every file. */
  method ReleaseDirectories(root: string, paths: seq<string>) returns (directories: set<string>)
    requires forall k :: 0 <= k < |paths| ==> WellFormed(paths[k])
    ensures directories == {root} + AllUnder(root, AllAncestors(paths))
  {
    directories := {root};
    for n := 0 to |paths|
      invariant directories == {root} + AllUnder(root, AllAncestors(paths[..n]))
    {
      directories := ClimbFrom(root, paths[n], directories);
      AncestorsOfOneMore(paths, n);
      UnderUnion(root, AllAncestors(paths[..n]), Ancestors(paths[n]));
    }
    assert paths[..|paths|] == paths;
  }

  lemma ClimbOne(root: string, below: string)
    requires SLASH in below
    ensures AllUnder(root, Ancestors(below)) ==
            AllUnder(root, Ancestors(DirectoryName(below))) + {Under(root, DirectoryName(below))}
  {
    AncestorsUp(below);
  }

  lemma UnderUnion(root: string, a: set<string>, b: set<string>)
    ensures AllUnder(root, a + b) == AllUnder(root, a) + AllUnder(root, b)
  {
  }

  lemma {:induction false} UnderKeepsSize(root: string, paths: set<string>)
    ensures |AllUnder(root, paths)| == |paths|
    decreases paths
  {
    if paths != {} {
      var path :| path in paths;
      UnderKeepsSize(root, paths - {path});
      assert AllUnder(root, paths) == AllUnder(root, paths - {path}) + {Under(root, path)};
      forall other | other in paths - {path} ensures Under(root, other) != Under(root, path) {
        assert Under(root, other)[|root| + 1..] == other && Under(root, path)[|root| + 1..] == path;
      }
    }
  }

  /** Admission charges exactly as many directories as the copy creates. */
  lemma SameDirectoryCount(root: string, paths: seq<string>)
    requires forall k :: 0 <= k < |paths| ==> WellFormed(paths[k])
    ensures |{""} + AllAncestors(paths)| == |{root} + AllUnder(root, AllAncestors(paths))|
  {
    var ancestors := AllAncestors(paths);
    UnderKeepsSize(root, ancestors);
    forall directory | directory in ancestors ensures directory != "" && Under(root, directory) != root {
      var k :| 0 <= k < |paths| && directory in Ancestors(paths[k]);
      assert WellFormed(paths[k]);
      assert |Under(root, directory)| > |root|;
    }
    assert "" !in ancestors;
    assert root !in AllUnder(root, ancestors);
  }
}
