/** What the guest's quota scan can see. It looks at no file more than 33 names deep, and
    at no more than 20000 files; errors of nested directories are dropped. */
module QuotaScan {
  import opened Basics
  import opened FileTree

  const MAX_SCAN_ENTRIES: nat := 20_000
  const MAX_SCAN_DEPTH: nat := 32

  /** The part of the tree the scan reaches. */
  ghost function Near(t: Tree): Tree {
    map p | p in t && |p| <= MAX_SCAN_DEPTH + 1 :: t[p]
  }

  /** The files below the scan's reach. */
  ghost function DeepFiles(t: Tree): map<Path, bytes> {
    map p | p in t && t[p].File? && |p| > MAX_SCAN_DEPTH + 1 :: t[p].data
  }

  ghost function DeepBytes(t: Tree): nat { Sum(DeepFiles(t)) }

  /** The scan can count every file it reaches. */
  ghost predicate FewEntries(t: Tree) { |Files(Near(t))| <= MAX_SCAN_ENTRIES }

  /** Every regular file is within the reach of the scan. */
  ghost predicate Countable(t: Tree) {
    |Files(t)| <= MAX_SCAN_ENTRIES && forall p :: p in Files(t) ==> |p| <= MAX_SCAN_DEPTH + 1
  }

  lemma BytesAddUp(t: Tree)
    ensures Sum(Files(t)) == Sum(Files(Near(t))) + DeepBytes(t)
    ensures |Files(t)| == |Files(Near(t))| + |DeepFiles(t)|
  {
    NearOrDeep(t);
    SumOfParts(Files(t), Files(Near(t)), DeepFiles(t));
  }

  lemma NearOrDeep(t: Tree)
    ensures Splits(Files(t), Files(Near(t)), DeepFiles(t))
  {
    forall p ensures p in Files(t) <==> p in Files(Near(t)) || p in DeepFiles(t) {
      if p in t && t[p].File? && |p| <= MAX_SCAN_DEPTH + 1 { assert p in Near(t); }
    }
  }

  lemma CountableIsNear(t: Tree)
    requires Countable(t)
    ensures FewEntries(t) && Files(Near(t)) == Files(t) && DeepBytes(t) == 0
  {
    assert forall p :: p in t && t[p].File? ==> p in Files(t);
    assert Files(Near(t)) == Files(t) && DeepFiles(t) == map[];
  }

  lemma NearIsWellFormed(t: Tree)
    requires WellFormed(t)
    ensures WellFormed(Near(t))
  {
  }

  // ---- Results of a scan ---------------------------------------------------

  ghost predicate PartOf(part: map<Path, bytes>, files: map<Path, bytes>) {
    part.Keys <= files.Keys && forall p :: p in part ==> part[p] == files[p]
  }

  /** Some regular file lies in the directory itself. */
  ghost predicate HoldsFile(t: Tree, dir: Path) {
    exists p :: p in Children(t, dir) && t[p].File?
  }

  /** What the scan may answer: the bytes of as many files in its reach as it can count,
      whichever come first. It gives up only over a file in the root itself. */
  ghost predicate MayScan(t: Tree, scan: Option<nat>) {
    match scan
    case Some(total) => MayCount(t, total)
    case None => !FewEntries(t) && HoldsFile(t, [])
  }

  ghost predicate MayCount(t: Tree, total: nat) {
    exists part :: Counts(Files(Near(t)), part) && total == Sum(part)
  }

  ghost predicate Counts(files: map<Path, bytes>, part: map<Path, bytes>) {
    PartOf(part, files) && |part| == Min(|files|, MAX_SCAN_ENTRIES)
  }

  lemma PartsAreSmaller(part: map<Path, bytes>, files: map<Path, bytes>)
    requires PartOf(part, files)
    ensures Sum(part) <= Sum(files) && |part| <= |files|
    ensures |part| == |files| ==> part == files
  {
    var rest := files - part.Keys;
    RestOfPart(part, files);
    SumOfParts(files, part, rest);
    if rest != map[] {
      var p :| p in rest;
      RemovingShrinks(rest, p);
    }
  }

  lemma RestOfPart(part: map<Path, bytes>, files: map<Path, bytes>)
    requires PartOf(part, files)
    ensures Splits(files, part, files - part.Keys) && (files - part.Keys == map[] ==> part == files)
  {
    assert (files - part.Keys).Keys == files.Keys - part.Keys;
  }

  /** Within the limit on entries the answer is determined: all that is in reach. */
  lemma ScanWithinTheLimit(t: Tree, scan: Option<nat>)
    requires FewEntries(t)
    ensures MayScan(t, scan) <==> scan == Some(Sum(Files(Near(t))))
  {
    if MayScan(t, scan) {
      var part :| Counts(Files(Near(t)), part) && scan.value == Sum(part);
      PartsAreSmaller(part, Files(Near(t)));
    }
    assert Counts(Files(Near(t)), Files(Near(t)));
  }

  /** There the scan is exact if and only if every file out of its reach is empty. */
  lemma ScanIsExact(t: Tree, scan: Option<nat>)
    requires FewEntries(t) && MayScan(t, scan)
    ensures scan == Some(Sum(Files(t))) <==> forall p :: p in DeepFiles(t) ==> DeepFiles(t)[p] == []
  {
    ScanWithinTheLimit(t, scan);
    BytesAddUp(t);
    EmptyFilesSumToNothing(DeepFiles(t));
  }

  lemma {:induction false} EmptyFilesSumToNothing(files: map<Path, bytes>)
    ensures Sum(files) == 0 <==> forall p :: p in files ==> files[p] == []
    decreases |files|
  {
    if files != map[] {
      var first :| first in files;
      RemovingShrinks(files, first);
      SumWithout(files, first);
      EmptyFilesSumToNothing(files - {first});
      assert forall p :: p in files && p != first ==> p in files - {first} && (files - {first})[p] == files[p];
    }
  }

  /** Past it, it is never too high, whatever it counts. */
  lemma ScanIsNeverHigh(t: Tree, scan: Option<nat>)
    requires MayScan(t, scan)
    ensures scan.Some? ==> scan.value <= Sum(Files(t)) - DeepBytes(t)
    ensures scan.None? ==> !FewEntries(t)
  {
    BytesAddUp(t);
    if scan.Some? {
      var part :| Counts(Files(Near(t)), part) && scan.value == Sum(part);
      PartsAreSmaller(part, Files(Near(t)));
    }
  }

  // ---- Accounts of the recursion -------------------------------------------

  /** How many more files can be counted. */
  function Room(count: nat): nat { MAX_SCAN_ENTRIES - Min(count, MAX_SCAN_ENTRIES) }

  /** From `count0` and `total0` on, the bytes of `part` of the files were counted. */
  ghost predicate Counted(files: map<Path, bytes>, part: map<Path, bytes>, count0: nat, total0: nat, count: nat, total: nat) {
    && PartOf(part, files)
    && |part| == Min(|files|, Room(count0))
    && total == total0 + Sum(part)
    && count0 <= count <= count0 + |files|
    && Room(count) == Room(count0) - |part|
  }

  lemma CountedNothing(count: nat, total: nat)
    ensures Counted(map[], map[], count, total, count, total)
  {
  }

  lemma SumsAdd(a: map<Path, bytes>, b: map<Path, bytes>)
    requires a.Keys !! b.Keys
    ensures Splits(a + b, a, b) && Sum(a + b) == Sum(a) + Sum(b) && |a + b| == |a| + |b|
  {
    SumOfParts(a + b, a, b);
  }

  lemma PartsUnite(a: map<Path, bytes>, partA: map<Path, bytes>, b: map<Path, bytes>, partB: map<Path, bytes>)
    requires a.Keys !! b.Keys && PartOf(partA, a) && PartOf(partB, b)
    ensures PartOf(partA + partB, a + b) && partA.Keys !! partB.Keys
  {
  }

  /** Counting some files and then others is counting them together. */
  lemma CountedTwice(a: map<Path, bytes>, partA: map<Path, bytes>, b: map<Path, bytes>, partB: map<Path, bytes>,
                     count0: nat, total0: nat, count1: nat, total1: nat, count2: nat, total2: nat)
    requires a.Keys !! b.Keys
    requires Counted(a, partA, count0, total0, count1, total1) && Counted(b, partB, count1, total1, count2, total2)
    ensures Counted(a + b, partA + partB, count0, total0, count2, total2)
  {
    PartsUnite(a, partA, b, partB);
    SumsAdd(a, b);
    SumsAdd(partA, partB);
  }

  /** Once the limit is passed, the files that were not looked at make no difference. */
  lemma CountedPastTheLimit(whole: map<Path, bytes>, seen: map<Path, bytes>, left: map<Path, bytes>, part: map<Path, bytes>,
                            count0: nat, total0: nat, count: nat, total: nat)
    requires Splits(whole, seen, left) && Counted(seen, part, count0, total0, count, total) && count > MAX_SCAN_ENTRIES
    ensures Counted(whole, part, count0, total0, count, total)
  {
    SumOfParts(whole, seen, left);
    PartsAreSmaller(part, seen);
  }

  lemma SplitsShift(whole: map<Path, bytes>, seen: map<Path, bytes>, left: map<Path, bytes>, one: map<Path, bytes>, rest: map<Path, bytes>)
    requires Splits(whole, seen, left) && Splits(left, one, rest)
    ensures seen.Keys !! one.Keys && Splits(whole, seen + one, rest)
  {
  }

  /** Below a directory 33 names deep nothing is in reach. */
  lemma NothingNearBelow(t: Tree, dir: Path)
    requires dir in t && t[dir].Directory? && |dir| > MAX_SCAN_DEPTH
    ensures FilesUnder(Near(t), dir) == map[]
  {
    forall p | p in FilesUnder(Near(t), dir) ensures false {
      PrefixOfSameLength(dir, p);
      assert false;
    }
  }

  lemma NearEntries(t: Tree, dir: Path)
    requires WellFormed(t) && dir in t && t[dir].Directory? && |dir| <= MAX_SCAN_DEPTH
    ensures Children(Near(t), dir) == Children(t, dir)
    ensures FilesAmong(Near(t), Children(t, dir), |dir| + 1) == FilesUnder(Near(t), dir)
  {
    NearIsWellFormed(t);
    FilesOfEntries(Near(t), dir);
  }

  /** The scan of a directory: `pending` entries are still to be looked at, and the files
      of the others are `seen`. */
  ghost predicate Walking(t: Tree, dir: Path, pending: set<Path>, seen: map<Path, bytes>, part: map<Path, bytes>,
                          count0: nat, total0: nat, count: nat, total: nat)
  {
    && pending <= Children(t, dir)
    && Splits(FilesUnder(Near(t), dir), seen, FilesAmong(Near(t), pending, |dir| + 1))
    && Counted(seen, part, count0, total0, count, total)
  }

  ghost function SeenAlso(t: Tree, seen: map<Path, bytes>, entry: Path): map<Path, bytes> {
    seen + FilesUnder(Near(t), entry)
  }

  lemma NothingSeen(t: Tree, dir: Path, count: nat, total: nat)
    requires WellFormed(t) && dir in t && t[dir].Directory? && |dir| <= MAX_SCAN_DEPTH
    ensures Walking(t, dir, Children(t, dir), map[], map[], count, total, count, total)
  {
    NearEntries(t, dir);
    CountedNothing(count, total);
  }

  lemma WalkingOn(t: Tree, dir: Path, pending: set<Path>, entry: Path, seen: map<Path, bytes>, part: map<Path, bytes>,
                  partOfOne: map<Path, bytes>, count0: nat, total0: nat, count1: nat, total1: nat, count2: nat, total2: nat)
    requires Walking(t, dir, pending, seen, part, count0, total0, count1, total1) && entry in pending
    requires Counted(FilesUnder(Near(t), entry), partOfOne, count1, total1, count2, total2)
    ensures Walking(t, dir, pending - {entry}, SeenAlso(t, seen, entry), part + partOfOne, count0, total0, count2, total2)
  {
    var whole, left := FilesUnder(Near(t), dir), FilesAmong(Near(t), pending, |dir| + 1);
    var one, rest := FilesUnder(Near(t), entry), FilesAmong(Near(t), pending - {entry}, |dir| + 1);
    FilesOfOneEntry(Near(t), pending, |dir| + 1, entry);
    SplitsShift(whole, seen, left, one, rest);
    CountedTwice(seen, part, one, partOfOne, count0, total0, count1, total1, count2, total2);
  }

  lemma AllSeenOrPastTheLimit(t: Tree, dir: Path, pending: set<Path>, seen: map<Path, bytes>, part: map<Path, bytes>,
                              count0: nat, total0: nat, count: nat, total: nat)
    requires Walking(t, dir, pending, seen, part, count0, total0, count, total)
    requires pending == {} || count > MAX_SCAN_ENTRIES
    ensures Counted(FilesUnder(Near(t), dir), part, count0, total0, count, total)
  {
    var whole, left := FilesUnder(Near(t), dir), FilesAmong(Near(t), pending, |dir| + 1);
    if count > MAX_SCAN_ENTRIES {
      CountedPastTheLimit(whole, seen, left, part, count0, total0, count, total);
    } else {
      NoEntriesNoFiles(Near(t), |dir| + 1);
      assert whole == seen;
    }
  }

  /** What one entry that is no directory holds. */
  lemma NearLeaf(t: Tree, entry: Path)
    requires WellFormed(t) && entry in t && |entry| <= MAX_SCAN_DEPTH + 1 && !t[entry].Directory?
    ensures FilesUnder(Near(t), entry) == if t[entry].File? then map[entry := t[entry].data] else map[]
  {
    NearIsWellFormed(t);
    LeafHoldsItself(Near(t), entry);
  }

  lemma SingleFile(p: Path, data: bytes)
    ensures Sum(map[p := data]) == |data| && |map[p := data]| == 1
  {
    SumWithout(map[p := data], p);
    assert map[p := data] - {p} == map[];
    RemovingShrinks(map[p := data], p);
  }

  lemma CountedOne(p: Path, data: bytes, count: nat, total: nat)
    ensures count < MAX_SCAN_ENTRIES ==> Counted(map[p := data], map[p := data], count, total, count + 1, total + |data|)
    ensures count >= MAX_SCAN_ENTRIES ==> Counted(map[p := data], map[], count, total, count + 1, total)
  {
    SingleFile(p, data);
  }
}
