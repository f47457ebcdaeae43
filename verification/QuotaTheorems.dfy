/** When the guest's quota holds, and how far it can be passed: the scan misses what lies
    more than 33 names deep, and all but 20000 files. */
module QuotaTheorems {
  import opened Basics
  import opened FileTree
  import opened QuotaScan
  import opened WorkspaceFiles
  import Base64
  import Paths
  import Texts

  // ---- One write -----------------------------------------------------------

  /** An accepted write is reported within the quota, and what is then stored is more by
      exactly what the scan had missed, unless it wrote nothing beyond the end of the file. */
  lemma AcceptedWriteAddsUp(t: Tree, after: Tree, path: Path, offset: nat, chunk: bytes, truncate: bool,
                            quotaBytes: nat, r: Result<WriteReply, GuestError>, total: nat)
    requires WellFormed(t) && path in t && t[path].File? && (truncate ==> offset == 0)
    requires WrittenAfterScan(t, after, path, offset, chunk, truncate, quotaBytes, r, Some(total)) && r.Ok?
    ensures r.value.usedBytes <= quotaBytes
    ensures Sum(Files(after)) <= r.value.usedBytes + Sum(Files(t)) - total
    ensures chunk != [] || offset <= |t[path].data| ==> Sum(Files(after)) == r.value.usedBytes + Sum(Files(t)) - total
  {
    var prior := t[path].data;
    UsageAfterReplacing(t, path, NewData(prior, offset, chunk, truncate));
    ReportedUsageIsTrue(prior, offset, chunk, truncate);
  }

  /** A write that was accepted leaves the tree within its quota exactly when the reported
      usage and the bytes out of the scan's reach are; so always if there are none. */
  lemma WrittenKeepsQuota(t: Tree, after: Tree, path: Path, offset: nat, chunk: bytes, truncate: bool,
                          quotaBytes: nat, r: Result<WriteReply, GuestError>)
    requires WellFormed(t) && path in t && t[path].File? && FewEntries(t) && (truncate ==> offset == 0)
    requires Written(t, after, path, offset, chunk, truncate, quotaBytes, r)
    ensures r.Ok? && (chunk != [] || offset <= |t[path].data|) ==>
      (Sum(Files(after)) <= quotaBytes <==> r.value.usedBytes + DeepBytes(t) <= quotaBytes)
    ensures r.Ok? && DeepBytes(t) == 0 ==> Sum(Files(after)) <= quotaBytes
    ensures r.Err? ==> after == t
  {
    var total := Sum(Files(Near(t)));
    WrittenWithinTheLimit(t, after, path, offset, chunk, truncate, quotaBytes, r);
    BytesAddUp(t);
    if r.Ok? { AcceptedWriteAddsUp(t, after, path, offset, chunk, truncate, quotaBytes, r, total); }
  }

  const SMALL: Path := ["d", "a"]

  /** Writing nothing at offset 5 of a new file is charged, and reported, as five bytes. */
  lemma AnExampleOfAnEmptyWrite(after: Tree, r: Result<WriteReply, GuestError>)
    requires Served(EMPTY, after, SMALL, 5, "", false, 10, r)
    ensures r.Ok? && r.value.usedBytes == 5 && r.value.size == 0 && Sum(Files(after)) == 0
  {
    assert Parent(SMALL) == ["d"];
    NothingInEmpty();
    Base64.DecodeEncode([]);
    ServedMeansOpened(EMPTY, after, SMALL, 5, "", false, 10, r);
    OpenedIsSafe(EMPTY, SMALL);
    EmptyWrite(Opened(EMPTY, SMALL), after, SMALL, 10, r);
  }

  lemma EmptyWrite(t: Tree, after: Tree, path: Path, quotaBytes: nat, r: Result<WriteReply, GuestError>)
    requires WellFormed(t) && path in t && t[path] == File([]) && Files(t) == map[path := []] && |path| == 2 && quotaBytes >= 5
    requires Written(t, after, path, 5, [], false, quotaBytes, r)
    ensures r.Ok? && r.value.usedBytes == 5 && r.value.size == 0 && Sum(Files(after)) == 0
  {
    SingleFile(path, []);
    assert Countable(t);
    CountableIsNear(t);
    WrittenWithinTheLimit(t, after, path, 5, [], false, quotaBytes, r);
    UsageAfterReplacing(t, path, []);
  }

  // ---- Lists of writes -----------------------------------------------------

  datatype Upload = Upload(path: Path, offset: int, encoded: string, truncate: bool)

  /** The trees the requests lead through, one after the other. */
  ghost predicate History(trees: seq<Tree>, uploads: seq<Upload>, quotaBytes: nat) {
    && |trees| == |uploads| + 1
    && forall i :: 0 <= i < |uploads| ==> Answered(trees[i], trees[i + 1], uploads[i], quotaBytes)
  }

  ghost predicate Answered(t: Tree, after: Tree, u: Upload, quotaBytes: nat) {
    exists r :: Served(t, after, u.path, u.offset, u.encoded, u.truncate, quotaBytes, r)
  }

  function UploadPaths(uploads: seq<Upload>): set<Path> { set u | u in uploads :: u.path }

  /** Within quota, with nothing hidden, and no other files in reach than `allowed`. */
  ghost predicate InQuota(t: Tree, allowed: set<Path>, quotaBytes: nat) {
    && WellFormed(t) && Sum(Files(t)) <= quotaBytes && DeepBytes(t) == 0
    && Files(Near(t)).Keys <= allowed
  }

  lemma AllowedAreFew(t: Tree, allowed: set<Path>)
    requires Files(Near(t)).Keys <= allowed && |allowed| <= MAX_SCAN_ENTRIES
    ensures FewEntries(t)
  {
    SubsetSize(Files(Near(t)).Keys, allowed);
    assert |Files(Near(t))| == |Files(Near(t)).Keys|;
  }

  /** Setting one file within reach changes nothing out of reach. */
  lemma NearFileSet(t: Tree, u: Tree, path: Path, data: bytes)
    requires Files(u) == Files(t)[path := data] && |path| <= MAX_SCAN_DEPTH + 1
    ensures DeepFiles(u) == DeepFiles(t) && Files(Near(u)) == Files(Near(t))[path := data]
  {
    assert forall p :: p in Files(u) <==> p in u && u[p].File?;
    assert forall p :: p in Files(t) <==> p in t && t[p].File?;
  }

  lemma OneShallowWrite(t: Tree, after: Tree, u: Upload, allowed: set<Path>, quotaBytes: nat)
    requires InQuota(t, allowed, quotaBytes) && |allowed| <= MAX_SCAN_ENTRIES
    requires u.path in allowed && |u.path| <= MAX_SCAN_DEPTH + 1 && Answered(t, after, u, quotaBytes)
    ensures InQuota(after, allowed, quotaBytes)
  {
    var r :| Served(t, after, u.path, u.offset, u.encoded, u.truncate, quotaBytes, r);
    OpenableMeansNoRefusal(t, u.path);
    if ArgumentRefusal(u.offset, u.encoded, u.truncate).None? && Openable(t, u.path) {
      var before, chunk := Opened(t, u.path), Base64.Decode(u.encoded);
      OpenedIsSafe(t, u.path);
      NearFileSet(t, before, u.path, PriorData(t, u.path));
      AllowedAreFew(before, allowed);
      OpenWriteKeepsQuota(before, after, u.path, u.offset, chunk, u.truncate, allowed, quotaBytes, r);
    }
  }

  lemma OpenWriteKeepsQuota(t: Tree, after: Tree, path: Path, offset: nat, chunk: bytes, truncate: bool,
                            allowed: set<Path>, quotaBytes: nat, r: Result<WriteReply, GuestError>)
    requires InQuota(t, allowed, quotaBytes) && FewEntries(t)
    requires path in t && t[path].File? && path in allowed && |path| <= MAX_SCAN_DEPTH + 1 && (truncate ==> offset == 0)
    requires Written(t, after, path, offset, chunk, truncate, quotaBytes, r)
    ensures InQuota(after, allowed, quotaBytes)
  {
    WrittenKeepsQuota(t, after, path, offset, chunk, truncate, quotaBytes, r);
    if r.Ok? {
      var data := NewData(t[path].data, offset, chunk, truncate);
      UsageAfterReplacing(t, path, data);
      NearFileSet(t, after, path, data);
    }
  }

  /** Paths the scan can see, out of a set it can count. */
  ghost predicate Shallow(uploads: seq<Upload>, allowed: set<Path>) {
    forall i :: 0 <= i < |uploads| ==> uploads[i].path in allowed && |uploads[i].path| <= MAX_SCAN_DEPTH + 1
  }

  lemma HistoryStep(trees: seq<Tree>, uploads: seq<Upload>, allowed: set<Path>, quotaBytes: nat, i: nat)
    requires History(trees, uploads, quotaBytes) && Shallow(uploads, allowed) && i < |uploads|
    requires InQuota(trees[i], allowed, quotaBytes) && |allowed| <= MAX_SCAN_ENTRIES
    ensures InQuota(trees[i + 1], allowed, quotaBytes)
  {
    OneShallowWrite(trees[i], trees[i + 1], uploads[i], allowed, quotaBytes);
  }

  lemma {:induction false} HistoryStaysInQuota(trees: seq<Tree>, uploads: seq<Upload>, allowed: set<Path>, quotaBytes: nat, k: nat)
    requires History(trees, uploads, quotaBytes) && Shallow(uploads, allowed) && k < |trees|
    requires InQuota(trees[0], allowed, quotaBytes) && |allowed| <= MAX_SCAN_ENTRIES
    ensures InQuota(trees[k], allowed, quotaBytes)
  {
    if k > 0 {
      HistoryStaysInQuota(trees, uploads, allowed, quotaBytes, k - 1);
      HistoryStep(trees, uploads, allowed, quotaBytes, k - 1);
    }
  }

  /** From a tree within its quota that hides no bytes, any writes to paths of at most 33
      names keep the quota, as long as no more than 20000 files come together. */
  lemma ShallowWritesKeepTheQuota(trees: seq<Tree>, uploads: seq<Upload>, quotaBytes: nat, k: nat)
    requires History(trees, uploads, quotaBytes) && k < |trees|
    requires WellFormed(trees[0]) && Sum(Files(trees[0])) <= quotaBytes && DeepBytes(trees[0]) == 0
    requires forall u :: u in uploads ==> |u.path| <= MAX_SCAN_DEPTH + 1
    requires |Files(Near(trees[0])).Keys + UploadPaths(uploads)| <= MAX_SCAN_ENTRIES
    ensures Sum(Files(trees[k])) <= quotaBytes
  {
    var allowed := Files(Near(trees[0])).Keys + UploadPaths(uploads);
    assert forall i :: 0 <= i < |uploads| ==> uploads[i] in uploads;
    HistoryStaysInQuota(trees, uploads, allowed, quotaBytes, k);
  }

  // ---- Deep paths ----------------------------------------------------------

  /** Setting one file out of reach changes nothing within it. */
  lemma DeepFileSet(t: Tree, u: Tree, path: Path, data: bytes)
    requires Files(u) == Files(t)[path := data] && |path| > MAX_SCAN_DEPTH + 1
    ensures Files(Near(u)) == Files(Near(t))
  {
    assert forall p :: p in Files(u) <==> p in u && u[p].File?;
    assert forall p :: p in Files(t) <==> p in t && t[p].File?;
  }

  lemma DeepStore(t: Tree, after: Tree, path: Path, data: bytes, quotaBytes: nat, r: Result<WriteReply, GuestError>)
    requires WellFormed(t) && FewEntries(t) && path in t && t[path] == File([]) && |path| > MAX_SCAN_DEPTH + 1
    requires Sum(Files(Near(t))) + |data| <= quotaBytes && Written(t, after, path, 0, data, true, quotaBytes, r)
    ensures r.Ok? && r.value.usedBytes == Sum(Files(Near(t))) + |data|
    ensures WellFormed(after) && after == t[path := File(data)]
    ensures Files(Near(after)) == Files(Near(t)) && Sum(Files(after)) == Sum(Files(t)) + |data|
  {
    WrittenWithinTheLimit(t, after, path, 0, data, true, quotaBytes, r);
    WholeFile([], data);
    UsageAfterReplacing(t, path, data);
    DeepFileSet(t, t[path := File(data)], path, data);
  }

  lemma WholeFileInOrder(data: bytes)
    requires |data| <= MAX_FILE_CHUNK_BYTES
    ensures ArgumentRefusal(0, Base64.Encode(data), true).None? && Base64.Decode(Base64.Encode(data)) == data
  {
    Base64.DecodeEncode(data);
  }

  lemma WholeFile(prior: bytes, data: bytes)
    ensures NewData(prior, 0, data, true) == data
  {
  }

  /** A new file out of reach is charged only against the files in reach, and adds nothing
      to what the next one is charged against. */
  lemma DeepWrite(t: Tree, after: Tree, path: Path, data: bytes, quotaBytes: nat, r: Result<WriteReply, GuestError>)
    requires WellFormed(t) && FewEntries(t) && Openable(t, path) && path !in t && |path| > MAX_SCAN_DEPTH + 1
    requires |data| <= MAX_FILE_CHUNK_BYTES && Sum(Files(Near(t))) + |data| <= quotaBytes
    requires Served(t, after, path, 0, Base64.Encode(data), true, quotaBytes, r)
    ensures r.Ok? && r.value.usedBytes == Sum(Files(Near(t))) + |data|
    ensures WellFormed(after) && after == Opened(t, path)[path := File(data)]
    ensures Files(Near(after)) == Files(Near(t)) && Sum(Files(after)) == Sum(Files(t)) + |data|
  {
    WholeFileInOrder(data);
    ServedMeansOpened(t, after, path, 0, Base64.Encode(data), true, quotaBytes, r);
    OpenedIsSafe(t, path);
    DeepFileSet(t, Opened(t, path), path, []);
    DeepStore(Opened(t, path), after, path, data, quotaBytes, r);
  }

  /** Two new files in one directory out of reach, each within the quota, are both accepted
      whatever they add up to. */
  lemma DeepWritesPassTheQuota(t: Tree, after: Tree, last: Tree, dir: Path, a: Name, b: Name, first: bytes, second: bytes,
                               quotaBytes: nat, r: Result<WriteReply, GuestError>, s: Result<WriteReply, GuestError>)
    requires WellFormed(t) && FewEntries(t) && |dir| > MAX_SCAN_DEPTH && !Blocked(t, dir) && a != b
    requires dir + [a] !in t && dir + [b] !in t
    requires |first| <= MAX_FILE_CHUNK_BYTES && Sum(Files(Near(t))) + |first| <= quotaBytes
    requires |second| <= MAX_FILE_CHUNK_BYTES && Sum(Files(Near(t))) + |second| <= quotaBytes
    requires Served(t, after, dir + [a], 0, Base64.Encode(first), true, quotaBytes, r)
    requires Served(after, last, dir + [b], 0, Base64.Encode(second), true, quotaBytes, s)
    ensures r.Ok? && s.Ok? && Sum(Files(last)) == Sum(Files(t)) + |first| + |second|
  {
    assert Parent(dir + [a]) == dir && Parent(dir + [b]) == dir;
    DeepWrite(t, after, dir + [a], first, quotaBytes, r);
    SiblingIsOpenable(t, after, dir, a, b, first);
    DeepWrite(after, last, dir + [b], second, quotaBytes, s);
  }

  lemma SiblingIsOpenable(t: Tree, after: Tree, dir: Path, a: Name, b: Name, data: bytes)
    requires WellFormed(t) && |dir| >= 1 && !Blocked(t, dir) && a != b && dir + [b] !in t
    requires Openable(t, dir + [a]) && WellFormed(after) && after == Opened(t, dir + [a])[dir + [a] := File(data)]
    ensures Openable(after, dir + [b]) && dir + [b] !in after
  {
    assert Parent(dir + [a]) == dir && Parent(dir + [b]) == dir;
    assert dir + [a] != dir + [b] by { assert (dir + [a])[|dir|] != (dir + [b])[|dir|]; }
    EntriesHaveParents(after, dir + [a]);
    MadeOnTheWay(t, dir, dir + [b]);
  }

  const DEEP: Path := seq(MAX_SCAN_DEPTH + 1, _ => "d")
  const EMPTY: Tree := map[[] := Directory]

  /** The paths are ones every validator lets through. */
  lemma DeepPathsAreAccepted()
    ensures Paths.ValidateRelativePath(Texts.Join(DEEP + ["a"], '/')) == Ok(DEEP + ["a"])
    ensures Paths.ValidateRelativePath(Texts.Join(DEEP + ["b"], '/')) == Ok(DEEP + ["b"])
  {
    ShortPathIsAccepted(DEEP + ["a"]);
    ShortPathIsAccepted(DEEP + ["b"]);
  }

  predicate Letters(path: Path) { forall i :: 0 <= i < |path| ==> path[i] == "a" || path[i] == "b" || path[i] == "d" }

  lemma ShortPathIsAccepted(path: Path)
    requires 1 <= |path| <= 100 && Letters(path)
    ensures Paths.ValidateRelativePath(Texts.Join(path, '/')) == Ok(path)
  {
    var text := Texts.Join(path, '/');
    JoinedLetters(path);
    Texts.SplitOfJoin(path, '/');
    ShortInUtf8(text);
    Paths.ValidatorsAgree(text, x => x);
    assert Paths.CleanRelative(text);
  }

  lemma {:induction false} JoinedLetters(path: Path)
    requires Letters(path)
    ensures |Texts.Join(path, '/')| <= 2 * |path| && forall c :: c in Texts.Join(path, '/') ==> c in "abd/"
    decreases |path|
  {
    if path != [] {
      assert Letters(path[1..]);
      JoinedLetters(path[1..]);
    }
  }

  lemma {:induction false} ShortInUtf8(s: string)
    ensures Paths.Utf8Length(s) <= 4 * |s|
  {
    if s != "" { ShortInUtf8(s[1..]); }
  }

  lemma NothingInEmpty()
    ensures WellFormed(EMPTY) && FewEntries(EMPTY) && Files(EMPTY) == map[] && Files(Near(EMPTY)) == map[]
    ensures !Blocked(EMPTY, DEEP) && Sum(Files(EMPTY)) == 0
  {
    assert Files(EMPTY) == map[] && Files(Near(EMPTY)) == map[];
  }

  /** In an empty workspace with a quota of one byte, two one-byte files 34 names deep are
      both accepted. */
  lemma AnExampleOfDeepWrites(after: Tree, last: Tree, r: Result<WriteReply, GuestError>, s: Result<WriteReply, GuestError>)
    requires Served(EMPTY, after, DEEP + ["a"], 0, Base64.Encode([7]), true, 1, r)
    requires Served(after, last, DEEP + ["b"], 0, Base64.Encode([7]), true, 1, s)
    ensures |DEEP + ["a"]| == 34 && r.Ok? && s.Ok? && Sum(Files(last)) == 2
  {
    NothingInEmpty();
    DeepWritesPassTheQuota(EMPTY, after, last, DEEP, "a", "b", [7], [7], 1, r, s);
  }

  // ---- Crowds --------------------------------------------------------------

  lemma {:induction false} SmallFilesSum(files: map<Path, bytes>)
    requires forall p :: p in files ==> |files[p]| <= 1
    ensures Sum(files) <= |files|
    decreases |files|
  {
    if files != map[] {
      var p :| p in files;
      RemovingShrinks(files, p);
      SumWithout(files, p);
      SmallFilesSum(files - {p});
    }
  }

  /** When no file lies in the root, the scan never gives up, and files of at most one byte
      count for at most 20000 bytes, however many there are. */
  lemma CrowdScan(t: Tree, scan: Option<nat>)
    requires MayScan(t, scan) && !HoldsFile(t, [])
    requires forall p :: p in Files(t) ==> |Files(t)[p]| <= 1
    ensures scan.Some? && scan.value <= MAX_SCAN_ENTRIES
  {
    var part :| Counts(Files(Near(t)), part) && scan.value == Sum(part);
    forall p | p in part ensures |part[p]| <= 1 { assert part[p] == Files(t)[p]; }
    SmallFilesSum(part);
  }

  lemma CrowdedStore(t: Tree, after: Tree, path: Path, quotaBytes: nat, r: Result<WriteReply, GuestError>)
    requires WellFormed(t) && path in t && t[path] == File([]) && !HoldsFile(t, []) && quotaBytes > MAX_SCAN_ENTRIES
    requires forall p :: p in Files(t) ==> |Files(t)[p]| <= 1
    requires Written(t, after, path, 0, [7], true, quotaBytes, r)
    ensures r.Ok? && Sum(Files(after)) == Sum(Files(t)) + 1
  {
    var scan :| MayScan(t, scan) && WrittenAfterScan(t, after, path, 0, [7], true, quotaBytes, r, scan);
    CrowdScan(t, scan);
    WholeFile([], [7]);
    UsageAfterReplacing(t, path, [7]);
  }

  /** One more one-byte file is accepted in such a tree, whatever is in it. */
  lemma CrowdedWrite(t: Tree, after: Tree, path: Path, quotaBytes: nat, r: Result<WriteReply, GuestError>)
    requires WellFormed(t) && Openable(t, path) && path !in t && !HoldsFile(t, []) && quotaBytes > MAX_SCAN_ENTRIES
    requires forall p :: p in Files(t) ==> |Files(t)[p]| <= 1
    requires Served(t, after, path, 0, Base64.Encode([7]), true, quotaBytes, r)
    ensures r.Ok? && Sum(Files(after)) == Sum(Files(t)) + 1
  {
    WholeFileInOrder([7]);
    ServedMeansOpened(t, after, path, 0, Base64.Encode([7]), true, quotaBytes, r);
    OpenedIsSafe(t, path);
    RootStaysBare(t, Opened(t, path), path);
    CrowdedStore(Opened(t, path), after, path, quotaBytes, r);
  }

  lemma RootStaysBare(t: Tree, u: Tree, path: Path)
    requires !HoldsFile(t, []) && |path| >= 2 && Files(u) == Files(t)[path := []]
    ensures !HoldsFile(u, [])
  {
    assert forall p :: p in Files(u) ==> p == path || p in Files(t);
    forall p | p in Files(t) ensures |p| != 1 { assert |p| == 1 ==> p in Children(t, []); }
    assert forall p :: p in u && u[p].File? ==> p in Files(u);
  }

  function CrowdName(i: nat): Name
    requires i < 0x7fff
  {
    [(0x4e00 + i) as char]
  }

  function CrowdPath(i: nat): Path
    requires i < 0x7fff
  {
    ["d", CrowdName(i)]
  }

  /** A directory with `n` files of one byte. */
  function Crowd(n: nat): (t: Tree)
    requires n < 0x7fff
    ensures forall p :: p in t ==> p == [] || p == ["d"] || exists i :: 0 <= i < n && p == CrowdPath(i)
    ensures [] in t && t[[]].Directory? && ["d"] in t && t[["d"]].Directory?
    ensures forall p :: p in t && p != [] && p != ["d"] ==> t[p] == File([7])
  {
    if n == 0 then map[[] := Directory, ["d"] := Directory] else Crowd(n - 1)[CrowdPath(n - 1) := File([7])]
  }

  lemma {:induction false} CrowdSum(n: nat)
    requires n < 0x7fff
    ensures WellFormed(Crowd(n)) && Sum(Files(Crowd(n))) == n && CrowdPath(n) !in Crowd(n)
  {
    if n == 0 {
      assert Files(Crowd(0)) == map[];
    } else {
      CrowdSum(n - 1);
      assert Parent(CrowdPath(n - 1)) == ["d"];
      assert Files(Crowd(n)) == Files(Crowd(n - 1))[CrowdPath(n - 1) := [7]];
      SumOfUpdate(Files(Crowd(n - 1)), CrowdPath(n - 1), [7]);
    }
    NewInTheCrowd(n);
  }

  lemma NewInTheCrowd(n: nat)
    requires n < 0x7fff
    ensures CrowdPath(n) !in Crowd(n)
  {
    forall i | 0 <= i < n ensures CrowdPath(i) != CrowdPath(n) { assert CrowdPath(i)[1][0] != CrowdPath(n)[1][0]; }
  }

  /** A directory with any number above 20000 of one-byte files, in a workspace whose quota
      they fill: another such file is accepted. */
  lemma ACrowdPassesTheQuota(n: nat, after: Tree, r: Result<WriteReply, GuestError>)
    requires MAX_SCAN_ENTRIES < n < 0x7fff
    requires Served(Crowd(n), after, CrowdPath(n), 0, Base64.Encode([7]), true, n, r)
    ensures Sum(Files(Crowd(n))) == n && r.Ok? && Sum(Files(after)) == n + 1
  {
    CrowdSum(n);
    CrowdIsOpen(n);
    CrowdedWrite(Crowd(n), after, CrowdPath(n), n, r);
  }

  lemma CrowdIsOpen(n: nat)
    requires n < 0x7fff
    ensures Openable(Crowd(n), CrowdPath(n)) && !HoldsFile(Crowd(n), [])
    ensures forall p :: p in Files(Crowd(n)) ==> |Files(Crowd(n))[p]| <= 1
  {
    var t := Crowd(n);
    NewInTheCrowd(n);
    assert Parent(CrowdPath(n)) == ["d"];
    forall k | 1 <= k <= 1 ensures ["d"][..k] == ["d"] {}
    forall p | p in t && |p| == 1 ensures p == ["d"] {}
  }
}
