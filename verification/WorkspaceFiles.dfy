/** The guest's file server: chunked reads and quota-checked chunked writes over
    the tree below the workspace root (ops/guest-control/src/files.rs). */
module WorkspaceFiles {
  import opened Basics
  import opened FileTree
  import opened QuotaScan
  import Base64

  const MAX_FILE_BYTES := 8 * 1024 * 1024
  const MAX_FILE_CHUNK_BYTES := 256 * 1024

  datatype GuestError = InvalidRequest | NotFound | LimitExceeded | PermissionDenied | Internal

  datatype ReadReply = ReadReply(path: Path, offset: nat, nextOffset: nat, size: nat, eof: bool, data: string)

  datatype WriteReply = WriteReply(path: Path, size: nat, nextOffset: nat, usedBytes: int, quotaBytes: nat)

  datatype DeleteReply = DeleteReply(path: Path, usedBytes: nat, quotaBytes: nat)

  /** Opening `path` for writing succeeds: it has a parent directory, nothing on
      the way is in the way, and it is absent or a regular file. */
  ghost predicate Openable(t: Tree, path: Path) {
    && |path| >= 2
    && !Blocked(t, Parent(path))
    && (path in t ==> t[path].File?)
  }

  /** The tree once `path` has been opened with O_CREAT. */
  function Opened(t: Tree, path: Path): Tree
    requires path != []
  {
    var u := WithDirectories(t, Parent(path));
    if path in u then u else u[path := File([])]
  }

  ghost function PriorData(t: Tree, path: Path): bytes {
    if path in t && t[path].File? then t[path].data else []
  }

  lemma OpenedIsSafe(t: Tree, path: Path)
    requires WellFormed(t) && Openable(t, path)
    ensures var u := Opened(t, path);
      && WellFormed(u) && path in u && u[path] == File(PriorData(t, path))
      && Files(u) == Files(t)[path := PriorData(t, path)]
      && Sum(Files(u)) == Sum(Files(t))
  {
    WithDirectoriesIsSafe(t, Parent(path));
    MadeOnTheWay(t, Parent(path), path);
    if path in t {
      assert Files(t)[path := t[path].data] == Files(t);
    } else {
      AddingAFile(WithDirectories(t, Parent(path)), path);
    }
    SumOfUpdate(Files(t), path, PriorData(t, path));
  }

  lemma AddingAFile(t: Tree, path: Path)
    requires WellFormed(t) && path !in t && path != [] && Parent(path) in t && t[Parent(path)].Directory?
    ensures var u := t[path := File([])]; WellFormed(u) && Files(u) == Files(t)[path := []]
  {
    assert Files(t[path := File([])]) == Files(t)[path := []];
  }

  /** What pwrite leaves in a file: a gap before `start` reads as zeros, and
      writing nothing changes nothing. */
  function Patched(data: bytes, start: nat, chunk: bytes): (r: bytes)
    ensures chunk != [] ==> |r| == Max(|data|, start + |chunk|) && r[start..start + |chunk|] == chunk
    ensures chunk == [] ==> r == data
  {
    if chunk == [] then data
    else
      var padded := data + seq(Max(0, start - |data|), i => 0 as byte);
      padded[..start] + chunk + padded[Min(start + |chunk|, |padded|)..]
  }

  /** Every byte of a written file: new, old, or in a gap. */
  lemma PatchedAt(data: bytes, start: nat, chunk: bytes, i: nat)
    requires chunk != [] && i < |Patched(data, start, chunk)|
    ensures Patched(data, start, chunk)[i] ==
      if start <= i < start + |chunk| then chunk[i - start] else if i < |data| then data[i] else 0
  {
  }

  /** Two consecutive writes are one. */
  lemma PatchedTwice(data: bytes, start: nat, first: bytes, second: bytes)
    ensures Patched(Patched(data, start, first), start + |first|, second) == Patched(data, start, first + second)
  {
    if first == [] {
      assert first + second == second;
    } else if second == [] {
      assert first + second == first;
    } else {
      var once := Patched(data, start, first);
      var twice := Patched(once, start + |first|, second);
      var whole := Patched(data, start, first + second);
      forall i | 0 <= i < |twice| ensures twice[i] == whole[i] {
        PatchedAt(once, start + |first|, second, i);
        if i < |once| { PatchedAt(data, start, first, i); }
        PatchedAt(data, start, first + second, i);
      }
    }
  }

  lemma NextPiece(base: bytes, start: nat, chunk: bytes, written: nat, n: nat)
    requires written + n <= |chunk|
    ensures Patched(Patched(base, start, chunk[..written]), start + written, chunk[written..written + n]) ==
            Patched(base, start, chunk[..written + n])
  {
    var piece := chunk[written..written + n];
    PatchedTwice(base, start, chunk[..written], piece);
    assert chunk[..written] + piece == chunk[..written + n];
  }

  /** Why opening `path` fails, if it does. */
  ghost function OpenRefusal(t: Tree, path: Path, writing: bool): Option<GuestError> {
    if |path| < 2 then Some(InvalidRequest)
    else if Blocked(t, Parent(path)) then Some(PermissionDenied)
    else if path !in t then (if writing then None else Some(NotFound))
    else if t[path].Symlink? then Some(PermissionDenied)
    else if t[path].Directory? && writing then Some(Internal)
    else None
  }

  lemma OpenableMeansNoRefusal(t: Tree, path: Path)
    ensures Openable(t, path) <==> OpenRefusal(t, path, true).None?
  {
  }

  /** Why a read is refused, in the order of the checks. */
  ghost function ReadRefusal(t: Tree, path: Path, offset: int, maxBytes: int): Option<GuestError> {
    if !(0 <= offset <= MAX_FILE_BYTES && 1 <= maxBytes <= MAX_FILE_CHUNK_BYTES) then Some(InvalidRequest)
    else if OpenRefusal(t, path, false).Some? then OpenRefusal(t, path, false)
    else if !t[path].File? then Some(InvalidRequest)
    else if |t[path].data| > MAX_FILE_BYTES then Some(LimitExceeded)
    else if offset > |t[path].data| then Some(InvalidRequest)
    else None
  }

  /** Why a write's arguments are refused before anything is touched. */
  ghost function ArgumentRefusal(offset: int, encoded: string, truncate: bool): Option<GuestError> {
    if !(0 <= offset <= MAX_FILE_BYTES) || (truncate && offset != 0) || !Base64.IsCanonical(encoded) then
      Some(InvalidRequest)
    else if |Base64.Decode(encoded)| > MAX_FILE_CHUNK_BYTES
         || offset + |Base64.Decode(encoded)| > MAX_FILE_BYTES then Some(LimitExceeded)
    else None
  }

  /** Why a delete is refused with the tree as it was. */
  ghost function DeleteRefusal(t: Tree, path: Path, recursive: bool): GuestError
    requires path != []
  {
    if recursive || Blocked(t, Parent(path)) then PermissionDenied
    else if path !in t then NotFound
    else InvalidRequest
  }

  /** What a delete answers once the file is gone: if the scan then gives up, an error. */
  function DeleteAnswer(path: Path, quotaBytes: nat, scan: Option<nat>): Result<DeleteReply, GuestError> {
    match scan
    case Some(total) => Ok(DeleteReply(path, total, quotaBytes))
    case None => Err(LimitExceeded)
  }

  /** The size the quota test charges the file with. */
  function ChargedSize(prior: nat, start: nat, length: nat, truncate: bool): nat {
    if truncate then start + length else Max(start + length, prior)
  }

  /** The size a write leaves behind. */
  function NewData(prior: bytes, offset: nat, chunk: bytes, truncate: bool): bytes {
    Patched(if truncate then [] else prior, offset, chunk)
  }

  ghost predicate AnsweredAfterDelete(after: Tree, path: Path, quotaBytes: nat, r: Result<DeleteReply, GuestError>) {
    exists scan :: MayScan(after, scan) && r == DeleteAnswer(path, quotaBytes, scan)
  }

  /** A delete reports an error although the file is gone only if the scan gave up: past
      the limit on entries, over a file in the root. Within the limit it reports the
      files in reach, which for a countable tree are all that are left. */
  lemma DeleteAnswers(t: Tree, path: Path, quotaBytes: nat, r: Result<DeleteReply, GuestError>)
    requires WellFormed(t) && path in t && t[path].File? && path != []
    requires AnsweredAfterDelete(t - {path}, path, quotaBytes, r)
    ensures r.Err? ==> r.error == LimitExceeded && !FewEntries(t - {path}) && HoldsFile(t - {path}, [])
    ensures FewEntries(t - {path}) ==> r == Ok(DeleteReply(path, Sum(Files(Near(t - {path}))), quotaBytes))
    ensures Countable(t - {path}) ==> r.Ok? && r.value.usedBytes == Sum(Files(t)) - |t[path].data|
  {
    var scan :| MayScan(t - {path}, scan) && r == DeleteAnswer(path, quotaBytes, scan);
    if FewEntries(t - {path}) { ScanWithinTheLimit(t - {path}, scan); }
    if Countable(t - {path}) {
      CountableIsNear(t - {path});
      RemovingAFile(t, path);
    }
  }

  /** What a write does to the tree `t` in which its file is already open, and what it
      answers, once the scan has answered `scan`: the quota test charges the file with
      its new size, and a refusal leaves the contents alone. */
  ghost predicate WrittenAfterScan(t: Tree, after: Tree, path: Path, offset: nat, chunk: bytes, truncate: bool,
                                   quotaBytes: nat, r: Result<WriteReply, GuestError>, scan: Option<nat>)
    requires path in t && t[path].File?
  {
    var prior := t[path].data;
    var result := NewData(prior, offset, chunk, truncate);
    match scan
    case None => r == Err(LimitExceeded) && after == t
    case Some(total) =>
      var used := total - |prior| + ChargedSize(|prior|, offset, |chunk|, truncate);
      if used > quotaBytes then r == Err(LimitExceeded) && after == t
      else r == Ok(WriteReply(path, |result|, offset + |chunk|, used, quotaBytes)) && after == t[path := File(result)]
  }

  ghost predicate Written(t: Tree, after: Tree, path: Path, offset: nat, chunk: bytes, truncate: bool,
                          quotaBytes: nat, r: Result<WriteReply, GuestError>)
    requires path in t && t[path].File?
  {
    exists scan :: MayScan(t, scan) && WrittenAfterScan(t, after, path, offset, chunk, truncate, quotaBytes, r, scan)
  }

  lemma DecidedByScan(t: Tree, after: Tree, path: Path, offset: nat, chunk: bytes, truncate: bool,
                      quotaBytes: nat, r: Result<WriteReply, GuestError>, scan: Option<nat>)
    requires path in t && t[path].File? && MayScan(t, scan)
    requires WrittenAfterScan(t, after, path, offset, chunk, truncate, quotaBytes, r, scan)
    ensures Written(t, after, path, offset, chunk, truncate, quotaBytes, r)
  {
  }

  /** Within the scan's limit on entries the write is determined: it is charged against
      the files in reach. */
  lemma WrittenWithinTheLimit(t: Tree, after: Tree, path: Path, offset: nat, chunk: bytes, truncate: bool,
                              quotaBytes: nat, r: Result<WriteReply, GuestError>)
    requires path in t && t[path].File? && FewEntries(t)
    ensures Written(t, after, path, offset, chunk, truncate, quotaBytes, r) <==>
      WrittenAfterScan(t, after, path, offset, chunk, truncate, quotaBytes, r, Some(Sum(Files(Near(t)))))
  {
    var near := Some(Sum(Files(Near(t))));
    ScanWithinTheLimit(t, near);
    if Written(t, after, path, offset, chunk, truncate, quotaBytes, r) {
      var scan :| MayScan(t, scan) && WrittenAfterScan(t, after, path, offset, chunk, truncate, quotaBytes, r, scan);
      ScanWithinTheLimit(t, scan);
    }
  }

  /** A write whose charge is the true new size: accepted within the quota, it
      stores `data`; refused, it changes nothing. */
  lemma WrittenAsCharged(t: Tree, after: Tree, path: Path, offset: nat, chunk: bytes, truncate: bool,
                         quotaBytes: nat, r: Result<WriteReply, GuestError>, data: bytes)
    requires path in t && t[path].File? && Countable(t)
    requires Written(t, after, path, offset, chunk, truncate, quotaBytes, r)
    requires data == NewData(t[path].data, offset, chunk, truncate)
    requires |data| == ChargedSize(|t[path].data|, offset, |chunk|, truncate)
    ensures var used := Sum(Files(t)) - |t[path].data| + |data|;
      && (r.Ok? <==> used <= quotaBytes)
      && (r.Ok? ==>
            && after == t[path := File(data)]
            && r.value == WriteReply(path, |data|, offset + |chunk|, used, quotaBytes))
      && (r.Err? ==> after == t && r.error == LimitExceeded)
  {
    CountableIsNear(t);
    WrittenWithinTheLimit(t, after, path, offset, chunk, truncate, quotaBytes, r);
  }

  /** Replacing one opened file leaves every other file alone and moves the
      total by the difference in size. */
  lemma UsageAfterWrite(t: Tree, path: Path, data: bytes)
    requires WellFormed(t) && Openable(t, path)
    ensures var u := Opened(t, path)[path := File(data)];
      && WellFormed(u)
      && Files(u) == Files(t)[path := data]
      && Sum(Files(u)) == Sum(Files(t)) - |PriorData(t, path)| + |data|
  {
    OpenedIsSafe(t, path);
    UsageAfterReplacing(Opened(t, path), path, data);
    assert Files(t)[path := PriorData(t, path)][path := data] == Files(t)[path := data];
  }

  /** The usage a write reports is the true one, unless it writes nothing beyond
      the end of the file: then the file is charged for a gap it never gets. */
  lemma ReportedUsageIsTrue(prior: bytes, start: nat, chunk: bytes, truncate: bool)
    requires truncate ==> start == 0
    ensures ChargedSize(|prior|, start, |chunk|, truncate) == |Patched(if truncate then [] else prior, start, chunk)|
            <==> chunk != [] || start <= |prior|
  {
    if chunk == [] && !truncate {
      assert Patched(prior, start, chunk) == prior;
    }
  }

  /** What one write request does: refused by its arguments, then by opening, and otherwise
      decided by the scan of the tree in which its file is open. */
  ghost predicate Served(t: Tree, after: Tree, path: Path, offset: int, encoded: string, truncate: bool,
                         quotaBytes: nat, r: Result<WriteReply, GuestError>)
  {
    match ArgumentRefusal(offset, encoded, truncate)
    case Some(e) => r == Err(e) && after == t
    case None =>
      match OpenRefusal(t, path, true)
      case Some(e) => r == Err(e) && after == t
      case None =>
        && path in Opened(t, path) && Opened(t, path)[path].File?
        && Written(Opened(t, path), after, path, offset, Base64.Decode(encoded), truncate, quotaBytes, r)
  }

  lemma OpenedIsServed(t: Tree, after: Tree, path: Path, offset: int, encoded: string, truncate: bool,
                       quotaBytes: nat, r: Result<WriteReply, GuestError>)
    requires ArgumentRefusal(offset, encoded, truncate).None?
    requires !Openable(t, path) ==> OpenRefusal(t, path, true).Some? && r == Err(OpenRefusal(t, path, true).value) && after == t
    requires Openable(t, path) ==>
      && path in Opened(t, path) && Opened(t, path)[path].File?
      && Written(Opened(t, path), after, path, offset, Base64.Decode(encoded), truncate, quotaBytes, r)
    ensures Served(t, after, path, offset, encoded, truncate, quotaBytes, r)
  {
    OpenableMeansNoRefusal(t, path);
  }

  /** And back: what a served request did when its arguments were in order. */
  lemma ServedMeansOpened(t: Tree, after: Tree, path: Path, offset: int, encoded: string, truncate: bool,
                          quotaBytes: nat, r: Result<WriteReply, GuestError>)
    requires ArgumentRefusal(offset, encoded, truncate).None?
    requires Served(t, after, path, offset, encoded, truncate, quotaBytes, r)
    ensures !Openable(t, path) ==> OpenRefusal(t, path, true).Some? && r == Err(OpenRefusal(t, path, true).value) && after == t
    ensures Openable(t, path) ==>
      && path in Opened(t, path) && Opened(t, path)[path].File?
      && Written(Opened(t, path), after, path, offset, Base64.Decode(encoded), truncate, quotaBytes, r)
  {
    OpenableMeansNoRefusal(t, path);
  }

  class WorkspaceFiles {
    var tree: Tree
    const quotaBytes: nat

    constructor (tree: Tree, quotaBytes: nat)
      ensures this.tree == tree && this.quotaBytes == quotaBytes
    {
      this.tree := tree;
      this.quotaBytes := quotaBytes;
    }

    /** The quota scan of one directory. Entries come in any order; errors of nested
        scans are dropped, so the scan goes on past its limit without counting. */
    method WalkDirBytes(dir: Path, count0: nat, total0: nat, depth: nat)
      returns (ok: bool, count: nat, total: nat, ghost part: map<Path, bytes>)
      requires WellFormed(tree) && dir in tree && tree[dir].Directory?
      requires depth == |dir| <= MAX_SCAN_DEPTH + 1
      ensures Counted(FilesUnder(Near(tree), dir), part, count0, total0, count, total)
      ensures !ok ==> count > MAX_SCAN_ENTRIES && HoldsFile(tree, dir)
      decreases MAX_SCAN_DEPTH + 1 - depth, 1
    {
      count, total, part := count0, total0, map[];
      CountedNothing(count, total);
      if depth > MAX_SCAN_DEPTH {
        NothingNearBelow(tree, dir);
        return true, count, total, part;
      }
      ghost var seen: map<Path, bytes> := map[];
      var pending := Children(tree, dir);
      NothingSeen(tree, dir, count, total);
      while pending != {}
        invariant Walking(tree, dir, pending, seen, part, count0, total0, count, total)
      {
        var entry :| entry in pending;
        ghost var countBefore, totalBefore := count, total;
        ghost var partOfOne: map<Path, bytes>;
        ok, count, total, partOfOne := VisitEntry(dir, entry, count, total, depth);
        WalkingOn(tree, dir, pending, entry, seen, part, partOfOne, count0, total0, countBefore, totalBefore, count, total);
        pending, seen, part := pending - {entry}, SeenAlso(tree, seen, entry), part + partOfOne;
        if !ok {
          AllSeenOrPastTheLimit(tree, dir, pending, seen, part, count0, total0, count, total);
          return false, count, total, part;
        }
      }
      AllSeenOrPastTheLimit(tree, dir, pending, seen, part, count0, total0, count, total);
      ok := true;
    }

    /** One entry: a regular file counts, a directory is scanned in turn, anything
        else is passed over. Only a file past the limit stops the scan. */
    method VisitEntry(ghost dir: Path, entry: Path, count0: nat, total0: nat, depth: nat)
      returns (ok: bool, count: nat, total: nat, ghost part: map<Path, bytes>)
      requires WellFormed(tree) && entry in Children(tree, dir) && depth == |dir| <= MAX_SCAN_DEPTH
      ensures Counted(FilesUnder(Near(tree), entry), part, count0, total0, count, total)
      ensures !ok ==> count > MAX_SCAN_ENTRIES && tree[entry].File?
      decreases MAX_SCAN_DEPTH + 1 - depth, 0
    {
      count, total, ok, part := count0, total0, true, map[];
      CountedNothing(count, total);
      if !tree[entry].Directory? { NearLeaf(tree, entry); }
      if tree[entry].File? {
        CountedOne(entry, tree[entry].data, count, total);
        count := count + 1;
        if count > MAX_SCAN_ENTRIES {
          return false, count, total, part;
        }
        total := total + |tree[entry].data|;
        part := map[entry := tree[entry].data];
      } else if tree[entry].Directory? {
        var nested: bool;
        nested, count, total, part := WalkDirBytes(entry, count, total, depth + 1);
      }
    }

    /** The quota scan of the whole tree. */
    method DirectoryBytes() returns (r: Result<nat, GuestError>)
      requires WellFormed(tree)
      ensures match r
        case Ok(total) => MayScan(tree, Some(total))
        case Err(e) => MayScan(tree, None) && e == LimitExceeded
      ensures FewEntries(tree) ==> r == Ok(Sum(Files(Near(tree))))
    {
      AllFilesAreUnderTheRoot(Near(tree));
      var ok, count, total;
      ghost var part;
      ok, count, total, part := WalkDirBytes([], 0, 0, 0);
      assert Counts(Files(Near(tree)), part);
      if FewEntries(tree) { ScanWithinTheLimit(tree, if ok then Some(total) else None); }
      r := if ok then Ok(total) else Err(LimitExceeded);
    }

    /** Walks from the root to a directory, refusing to pass through anything
        that is not a directory; with `create`, missing directories are made. */
    method OpenDirectory(parts: Path, create: bool) returns (r: Result<Path, GuestError>)
      requires WellFormed(tree)
      modifies this
      ensures WellFormed(tree)
      ensures r.Ok? <==> !Blocked(old(tree), parts) && (create || parts in old(tree))
      ensures r.Ok? ==> r.value == parts && parts in tree && tree[parts].Directory?
      ensures tree == if r.Ok? && create then WithDirectories(old(tree), parts) else old(tree)
      ensures r.Err? ==> r.error == if Blocked(old(tree), parts) then PermissionDenied else NotFound
    {
      ghost var t := tree;
      var current: Path := [];
      for k := 0 to |parts|
        invariant current == parts[..k] && !Blocked(t, current)
        invariant tree == if create then WithDirectories(t, current) else t
        invariant WellFormed(tree) && current in tree && tree[current].Directory?
      {
        var next := current + [parts[k]];
        assert next == parts[..k + 1] && Parent(next) == current;
        BlockedParent(t, next);
        MadeOnTheWay(t, current, next);
        if create && next !in tree {
          tree := tree[next := Directory];
        }
        if next !in tree {
          NothingBelow(t, parts, k + 1);
          return Err(NotFound);
        }
        if !tree[next].Directory? {
          BlockedAt(t, parts, k + 1);
          return Err(PermissionDenied);
        }
        if create {
          WithDirectoriesIsSafe(t, next);
        }
        current := next;
      }
      assert current == parts;
      r := Ok(current);
    }

    /** Opens a regular file, or anything for reading that is no symbolic link;
        a missing file is created when writing. */
    method OpenFile(parts: Path, writing: bool) returns (r: Result<Path, GuestError>)
      requires WellFormed(tree)
      modifies this
      ensures WellFormed(tree)
      ensures r == match OpenRefusal(old(tree), parts, writing) case Some(e) => Err(e) case None => Ok(parts)
      ensures tree == if r.Ok? && writing then Opened(old(tree), parts) else old(tree)
      ensures r.Ok? ==> parts in tree && !tree[parts].Symlink? && (writing ==> tree[parts].File?)
    {
      ghost var t := tree;
      if |parts| < 2 {
        return Err(InvalidRequest);
      }
      var parent := OpenDirectory(Parent(parts), writing);
      EntriesHaveParents(t, parts);
      if parent.Err? {
        return Err(parent.error);
      }
      if writing {
        MadeOnTheWay(t, Parent(parts), parts);
      }
      if parts !in tree {
        if !writing {
          return Err(NotFound);
        }
        tree := tree[parts := File([])];
      } else if tree[parts].Symlink? {
        return Err(PermissionDenied);
      } else if tree[parts].Directory? && writing {
        return Err(Internal);
      }
      r := Ok(parts);
    }

    /** One chunk of a file. A short count is allowed, but no progress is made
        only at the end of the file. */
    method Read(path: Path, offset: int, maxBytes: int) returns (r: Result<ReadReply, GuestError>)
      requires WellFormed(tree)
      modifies this
      ensures tree == old(tree)
      ensures match ReadRefusal(tree, path, offset, maxBytes)
              case Some(e) => r == Err(e)
              case None =>
                && r.Ok? && r.value.path == path && r.value.offset == offset
                && r.value.size == |tree[path].data|
                && offset <= r.value.nextOffset <= Min(offset + maxBytes, r.value.size)
                && (r.value.nextOffset == offset ==> offset == r.value.size)
                && r.value.data == Base64.Encode(tree[path].data[offset..r.value.nextOffset])
                && (r.value.eof <==> r.value.nextOffset == r.value.size)
    {
      if !(0 <= offset <= MAX_FILE_BYTES) || !(1 <= maxBytes <= MAX_FILE_CHUNK_BYTES) {
        return Err(InvalidRequest);
      }
      var fd := OpenFile(path, false);
      if fd.Err? {
        return Err(fd.error);
      }
      if !tree[path].File? {
        return Err(InvalidRequest);
      }
      var data := tree[path].data;
      if |data| > MAX_FILE_BYTES {
        return Err(LimitExceeded);
      }
      if offset > |data| {
        return Err(InvalidRequest);
      }
      var available := Min(maxBytes, |data| - offset);
      var n: nat :| n <= available && (available > 0 ==> n > 0);
      var next := offset + n;
      r := Ok(ReadReply(path, offset, next, |data|, next >= |data|, Base64.Encode(data[offset..next])));
    }

    /** Writes one chunk if the quota allows. Opening comes first, so even a
        refused write may leave the file behind, empty. */
    method Write(path: Path, offset: int, encoded: string, truncate: bool) returns (r: Result<WriteReply, GuestError>)
      requires WellFormed(tree)
      modifies this
      ensures WellFormed(tree)
      ensures Served(old(tree), tree, path, offset, encoded, truncate, quotaBytes, r)
    {
      var chunk := CheckArguments(offset, encoded, truncate);
      if chunk.Err? {
        return Err(chunk.error);
      }
      r := OpenAndWrite(path, offset, chunk.value, truncate);
      OpenedIsServed(old(tree), tree, path, offset, encoded, truncate, quotaBytes, r);
    }

    method CheckArguments(offset: int, encoded: string, truncate: bool) returns (r: Result<bytes, GuestError>)
      ensures r == match ArgumentRefusal(offset, encoded, truncate) case Some(e) => Err(e) case None => Ok(Base64.Decode(encoded))
    {
      if !(0 <= offset <= MAX_FILE_BYTES) || (truncate && offset != 0) {
        return Err(InvalidRequest);
      }
      if !Base64.IsCanonical(encoded) {
        return Err(InvalidRequest);
      }
      var chunk := Base64.Decode(encoded);
      if |chunk| > MAX_FILE_CHUNK_BYTES || offset + |chunk| > MAX_FILE_BYTES {
        return Err(LimitExceeded);
      }
      r := Ok(chunk);
    }

    method OpenAndWrite(path: Path, offset: nat, chunk: bytes, truncate: bool) returns (r: Result<WriteReply, GuestError>)
      requires WellFormed(tree)
      modifies this
      ensures WellFormed(tree)
      ensures !Openable(old(tree), path) ==>
                OpenRefusal(old(tree), path, true).Some? && r == Err(OpenRefusal(old(tree), path, true).value) && tree == old(tree)
      ensures Openable(old(tree), path) ==>
                && path in Opened(old(tree), path) && Opened(old(tree), path)[path].File?
                && Written(Opened(old(tree), path), tree, path, offset, chunk, truncate, quotaBytes, r)
    {
      ghost var t := tree;
      OpenableMeansNoRefusal(t, path);
      var fd := OpenFile(path, true);
      if fd.Err? {
        return Err(fd.error);
      }
      OpenedIsSafe(t, path);
      r := WriteOpened(path, offset, chunk, truncate);
    }

    /** The write to a file that is already open: the quota test, the truncation
        and the bytes. */
    method WriteOpened(path: Path, offset: nat, chunk: bytes, truncate: bool) returns (r: Result<WriteReply, GuestError>)
      requires WellFormed(tree) && path in tree && tree[path].File?
      modifies this
      ensures WellFormed(tree)
      ensures Written(old(tree), tree, path, offset, chunk, truncate, quotaBytes, r)
    {
      var used := DirectoryBytes();
      if used.Err? {
        r := Err(used.error);
        DecidedByScan(tree, tree, path, offset, chunk, truncate, quotaBytes, r, None);
      } else {
        r := WriteIfAllowed(path, offset, chunk, truncate, used.value);
        DecidedByScan(old(tree), tree, path, offset, chunk, truncate, quotaBytes, r, Some(used.value));
      }
    }

    method WriteIfAllowed(path: Path, offset: nat, chunk: bytes, truncate: bool, used: nat)
      returns (r: Result<WriteReply, GuestError>)
      requires WellFormed(tree) && path in tree && tree[path].File?
      modifies this
      ensures WellFormed(tree)
      ensures WrittenAfterScan(old(tree), tree, path, offset, chunk, truncate, quotaBytes, r, Some(used))
    {
      var prior := |tree[path].data|;
      var resulting := ChargedSize(prior, offset, |chunk|, truncate);
      if used - prior + resulting > quotaBytes {
        return Err(LimitExceeded);
      }
      PwriteAll(path, offset, chunk, truncate);
      r := Ok(WriteReply(path, |tree[path].data|, offset + |chunk|, used - prior + resulting, quotaBytes));
    }

    /** The truncation and the loop of positioned writes, each of which may take
        any positive number of the bytes offered. */
    method PwriteAll(path: Path, start: nat, chunk: bytes, truncate: bool)
      requires WellFormed(tree) && path in tree && tree[path].File?
      modifies this
      ensures WellFormed(tree)
      ensures tree == old(tree)[path := File(Patched(if truncate then [] else old(tree[path].data), start, chunk))]
    {
      ghost var base := if truncate then [] else tree[path].data;
      if truncate {
        tree := tree[path := File([])];
      }
      var written := 0;
      while written < |chunk|
        invariant 0 <= written <= |chunk|
        invariant tree == old(tree)[path := File(Patched(base, start, chunk[..written]))]
      {
        var n: nat :| 1 <= n <= |chunk| - written;
        NextPiece(base, start, chunk, written, n);
        tree := tree[path := File(Patched(tree[path].data, start + written, chunk[written..written + n]))];
        written := written + n;
      }
      assert chunk[..written] == chunk;
    }

    /** Removes one regular file. */
    method Delete(path: Path, recursive: bool) returns (r: Result<DeleteReply, GuestError>)
      requires WellFormed(tree) && path != []
      modifies this
      ensures WellFormed(tree)
      ensures var removed := !recursive && path in old(tree) && old(tree)[path].File?;
        && tree == (if removed then old(tree) - {path} else old(tree))
        && (if removed then AnsweredAfterDelete(tree, path, quotaBytes, r) else r == Err(DeleteRefusal(old(tree), path, recursive)))
    {
      ghost var t := tree;
      if recursive {
        return Err(PermissionDenied);
      }
      var parent := OpenDirectory(Parent(path), false);
      EntriesHaveParents(t, path);
      if parent.Err? {
        return Err(parent.error);
      }
      if path !in tree {
        return Err(NotFound);
      }
      if !tree[path].File? {
        return Err(InvalidRequest);
      }
      RemovingAFile(t, path);
      tree := tree - {path};
      r := RecountAfterDelete(path);
    }

    method RecountAfterDelete(path: Path) returns (r: Result<DeleteReply, GuestError>)
      requires WellFormed(tree)
      ensures AnsweredAfterDelete(tree, path, quotaBytes, r)
    {
      var used := DirectoryBytes();
      if used.Ok? {
        assert MayScan(tree, Some(used.value));
        r := Ok(DeleteReply(path, used.value, quotaBytes));
      } else {
        assert MayScan(tree, None);
        r := Err(used.error);
      }
    }
  }

  lemma EntriesHaveParents(t: Tree, path: Path)
    requires WellFormed(t) && path != []
    ensures path in t ==> Parent(path) in t && !Blocked(t, Parent(path))
  {
    if path in t {
      forall k | 1 <= k <= |Parent(path)| ensures Parent(path)[..k] in t && t[Parent(path)[..k]].Directory? {
        AncestorsAreDirectories(t, path, k);
        assert Parent(path)[..k] == path[..k];
      }
    }
  }

  /** Nothing exists, and so nothing blocks, below a missing entry. */
  lemma NothingBelow(t: Tree, parts: Path, k: nat)
    requires WellFormed(t) && 1 <= k <= |parts| && !Blocked(t, parts[..k - 1]) && parts[..k] !in t
    ensures parts !in t && !Blocked(t, parts)
  {
    forall j | 1 <= j <= |parts| && parts[..j] in t ensures t[parts[..j]].Directory? {
      if j < k {
        assert parts[..k - 1][..j] == parts[..j];
      } else {
        assert parts[..j][..k] == parts[..k];
        MissingAncestor(t, parts[..j], k);
      }
    }
    MissingAncestor(t, parts, k);
  }

  lemma MissingAncestor(t: Tree, path: Path, k: nat)
    requires WellFormed(t) && k <= |path| && path[..k] !in t
    ensures path !in t
  {
    assert path[..|path|] == path;
    if path in t {
      AncestorsAreDirectories(t, path, k);
    }
  }
}
