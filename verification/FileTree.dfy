/** The directory tree under a workspace root, as the file servers see it: a
    map from paths to entries. A path is the list of names leading from the
    root; the root itself is the empty path. */
module FileTree {
  import opened Basics

  type Name = string
  type Path = seq<Name>

  datatype Node = Directory | File(data: bytes) | Symlink

  type Tree = map<Path, Node>

  /** Only directories contain anything, and the root is one. */
  ghost predicate WellFormed(t: Tree) {
    && [] in t && t[[]].Directory?
    && forall p :: p in t && p != [] ==> Parent(p) in t && t[Parent(p)].Directory?
  }

  function Parent(p: Path): (parent: Path)
    requires p != []
  {
    p[..|p| - 1]
  }

  /** The regular files and their contents. */
  ghost function Files(t: Tree): map<Path, bytes> {
    map p | p in t && t[p].File? :: t[p].data
  }

  /** The regular files at or below a path. */
  ghost function FilesUnder(t: Tree, top: Path): map<Path, bytes> {
    map p | p in t && t[p].File? && top <= p :: t[p].data
  }

  /** The regular files whose first `n` names are in `tops`. */
  ghost function FilesAmong(t: Tree, tops: set<Path>, n: nat): map<Path, bytes> {
    map p | p in t && t[p].File? && |p| >= n && p[..n] in tops :: t[p].data
  }

  /** The entries of one directory. */
  function Children(t: Tree, dir: Path): set<Path> {
    set p | p in t && |p| == |dir| + 1 && dir <= p
  }

  /** The bytes stored in a set of files. */
  ghost function Sum(files: map<Path, bytes>): nat {
    if files == map[] then 0
    else
      var p :| p in files;
      |files[p]| + Sum(files - {p})
  }

  lemma {:induction false} SumWithout(files: map<Path, bytes>, p: Path)
    requires p in files
    ensures Sum(files) == |files[p]| + Sum(files - {p})
    decreases |files|
  {
    var first :| first in files && Sum(files) == |files[first]| + Sum(files - {first});
    if first != p {
      var rest := files - {first};
      RemovingShrinks(files, first);
      SumWithout(rest, p);
      RemovingShrinks(files, p);
      SumWithout(files - {p}, first);
      assert rest - {p} == files - {p} - {first};
    }
  }

  lemma RemovingShrinks(files: map<Path, bytes>, p: Path)
    requires p in files
    ensures |files - {p}| == |files| - 1
  {
    assert (files - {p}).Keys == files.Keys - {p};
    assert |(files - {p}).Keys| == |files - {p}| && |files.Keys| == |files|;
  }

  /** Replacing one file's contents changes the total by the difference. */
  lemma SumOfUpdate(files: map<Path, bytes>, p: Path, data: bytes)
    ensures Sum(files[p := data]) == Sum(files) - (if p in files then |files[p]| else 0) + |data|
  {
    SumWithout(files[p := data], p);
    assert files[p := data] - {p} == files - {p};
    if p in files {
      SumWithout(files, p);
    } else {
      assert files - {p} == files;
    }
  }

  ghost predicate Splits(whole: map<Path, bytes>, a: map<Path, bytes>, b: map<Path, bytes>) {
    && whole.Keys == a.Keys + b.Keys
    && a.Keys !! b.Keys
    && (forall p :: p in a ==> whole[p] == a[p])
    && (forall p :: p in b ==> whole[p] == b[p])
  }

  lemma SplitsWithout(whole: map<Path, bytes>, a: map<Path, bytes>, b: map<Path, bytes>, p: Path)
    requires Splits(whole, a, b) && p in a
    ensures Splits(whole - {p}, a - {p}, b)
  {
    assert (whole - {p}).Keys == whole.Keys - {p};
    assert (a - {p}).Keys == a.Keys - {p};
  }

  /** Disjoint parts add up. */
  lemma {:induction false} SumOfParts(whole: map<Path, bytes>, a: map<Path, bytes>, b: map<Path, bytes>)
    requires Splits(whole, a, b)
    ensures Sum(whole) == Sum(a) + Sum(b)
    ensures |whole| == |a| + |b|
    decreases |a|
  {
    if a == map[] {
      assert whole == b;
    } else {
      var p :| p in a;
      RemovingShrinks(a, p);
      RemovingShrinks(whole, p);
      SplitsWithout(whole, a, b, p);
      SumOfParts(whole - {p}, a - {p}, b);
      SumWithout(whole, p);
      SumWithout(a, p);
    }
  }

  /** Replacing the contents of one file. */
  lemma UsageAfterReplacing(t: Tree, path: Path, data: bytes)
    requires WellFormed(t) && path in t && t[path].File?
    ensures var u := t[path := File(data)];
      && WellFormed(u)
      && Files(u) == Files(t)[path := data]
      && Sum(Files(u)) == Sum(Files(t)) - |t[path].data| + |data|
  {
    var u := t[path := File(data)];
    assert Files(u) == Files(t)[path := data];
    SumOfUpdate(Files(t), path, data);
  }

  lemma RemovingAFile(t: Tree, path: Path)
    requires WellFormed(t) && path in t && t[path].File? && path != []
    ensures WellFormed(t - {path})
    ensures Files(t - {path}) == Files(t) - {path}
    ensures Sum(Files(t)) == |t[path].data| + Sum(Files(t - {path}))
  {
    assert Files(t - {path}) == Files(t) - {path};
    SumWithout(Files(t), path);
  }

  lemma {:induction false} AncestorsAreDirectories(t: Tree, p: Path, k: nat)
    requires WellFormed(t) && p in t && k < |p|
    ensures p[..k] in t && t[p[..k]].Directory?
    decreases |p|
  {
    if k < |p| - 1 {
      AncestorsAreDirectories(t, Parent(p), k);
      assert Parent(p)[..k] == p[..k];
    }
  }

  /** Nothing lies below a file or a symbolic link. */
  lemma LeafHoldsItself(t: Tree, leaf: Path)
    requires WellFormed(t) && leaf in t && !t[leaf].Directory?
    ensures FilesUnder(t, leaf) == if t[leaf].File? then map[leaf := t[leaf].data] else map[]
  {
    forall p | p in t && leaf <= p ensures p == leaf {
      assert p[..|leaf|] == leaf;
      if |leaf| < |p| {
        AncestorsAreDirectories(t, p, |leaf|);
        assert false;
      }
    }
  }

  /** The files of a directory are the files of its entries. */
  lemma FilesOfEntries(t: Tree, dir: Path)
    requires WellFormed(t) && dir in t && t[dir].Directory?
    ensures FilesAmong(t, Children(t, dir), |dir| + 1) == FilesUnder(t, dir)
  {
    forall p | p in t && t[p].File?
      ensures |p| >= |dir| + 1 && p[..|dir| + 1] in Children(t, dir) <==> dir <= p
    {
      FileOfAnEntry(t, dir, p);
    }
  }

  lemma FileOfAnEntry(t: Tree, dir: Path, p: Path)
    requires WellFormed(t) && dir in t && t[dir].Directory? && p in t && t[p].File?
    ensures |p| >= |dir| + 1 && p[..|dir| + 1] in Children(t, dir) <==> dir <= p
  {
    var n := |dir| + 1;
    if |p| >= n {
      assert p[..n][..|dir|] == p[..|dir|];
      if |p| == n {
        assert p[..n] == p;
      } else {
        AncestorsAreDirectories(t, p, n);
      }
    }
    PrefixOfSameLength(dir, p);
  }

  lemma PrefixOfSameLength(a: Path, b: Path)
    ensures a <= b && |a| == |b| ==> a == b
  {
  }

  /** A file below a directory has a longer path. */
  lemma FilesLieDeeper(t: Tree, dir: Path, p: Path)
    requires dir in t && t[dir].Directory? && p in FilesUnder(t, dir)
    ensures |dir| < |p|
  {
    PrefixOfSameLength(dir, p);
  }

  /** One entry's files, and the files of the entries after it. */
  lemma FilesOfOneEntry(t: Tree, pending: set<Path>, n: nat, child: Path)
    requires child in pending && |child| == n
    ensures Splits(FilesAmong(t, pending, n), FilesUnder(t, child), FilesAmong(t, pending - {child}, n))
  {
    forall p | p in t ensures child <= p <==> |p| >= n && p[..n] == child {
    }
  }

  lemma NoEntriesNoFiles(t: Tree, n: nat)
    ensures FilesAmong(t, {}, n) == map[]
  {
  }

  lemma AllFilesAreUnderTheRoot(t: Tree)
    ensures FilesUnder(t, []) == Files(t)
  {
  }

  /** `t` with every directory on the way to `dir` present. */
  function WithDirectories(t: Tree, dir: Path): (u: Tree)
    decreases |dir|
  {
    if dir == [] then t
    else
      var u := WithDirectories(t, Parent(dir));
      if dir in u then u else u[dir := Directory]
  }

  /** Some entry on the way to `dir`, or `dir` itself, is not a directory. */
  ghost predicate Blocked(t: Tree, dir: Path) {
    exists k :: 1 <= k <= |dir| && dir[..k] in t && !t[dir[..k]].Directory?
  }

  lemma BlockedAt(t: Tree, dir: Path, k: nat)
    requires 1 <= k <= |dir| && dir[..k] in t && !t[dir[..k]].Directory?
    ensures Blocked(t, dir)
  {
  }

  lemma BlockedParent(t: Tree, dir: Path)
    requires dir != []
    ensures Blocked(t, dir) <==> Blocked(t, Parent(dir)) || (dir in t && !t[dir].Directory?)
  {
    assert dir[..|dir|] == dir;
    if Blocked(t, dir) {
      var k :| 1 <= k <= |dir| && dir[..k] in t && !t[dir[..k]].Directory?;
      if k < |dir| {
        assert Parent(dir)[..k] == dir[..k];
      }
    }
    if Blocked(t, Parent(dir)) {
      var k :| 1 <= k <= |Parent(dir)| && Parent(dir)[..k] in t && !t[Parent(dir)[..k]].Directory?;
      assert Parent(dir)[..k] == dir[..k];
    }
  }

  /** Making the directories on the way to an unblocked path adds directories
      only, and makes the path itself a directory. */
  lemma {:induction false} WithDirectoriesIsSafe(t: Tree, dir: Path)
    requires WellFormed(t) && !Blocked(t, dir)
    ensures var u := WithDirectories(t, dir);
      && WellFormed(u) && dir in u && u[dir].Directory?
      && (forall p :: p in t ==> p in u && u[p] == t[p])
      && (forall p :: p in u && p !in t ==> u[p].Directory? && p <= dir)
      && Files(u) == Files(t)
    decreases |dir|
  {
    if dir == [] {
    } else {
      BlockedParent(t, dir);
      WithDirectoriesIsSafe(t, Parent(dir));
      var u := WithDirectories(t, Parent(dir));
      if dir in u {
        if dir in t {
          assert t[dir].Directory?;
        }
      }
    }
  }

  lemma {:induction false} WithDirectoriesWhenPresent(t: Tree, dir: Path)
    requires WellFormed(t) && dir in t
    ensures WithDirectories(t, dir) == t
    decreases |dir|
  {
    if dir == [] {
    } else {
      WithDirectoriesWhenPresent(t, Parent(dir));
    }
  }

  /** Making the directories on the way to `dir` neither adds nor changes an
      entry of `dir` itself, and changes nothing at all if the entry existed. */
  lemma MadeOnTheWay(t: Tree, dir: Path, entry: Path)
    requires WellFormed(t) && !Blocked(t, dir) && entry != [] && Parent(entry) == dir
    ensures var u := WithDirectories(t, dir);
      && WellFormed(u)
      && (entry in u <==> entry in t)
      && (entry in t ==> u == t)
  {
    WithDirectoriesIsSafe(t, dir);
    if entry in t {
      WithDirectoriesWhenPresent(t, dir);
    }
  }
}
