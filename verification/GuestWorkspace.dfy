/** The node agent's chunk adapter: whole files over the guest's bounded reads
    and writes (src/agent/guest-workspace.ts), composed with the file server. */
module GuestWorkspace {
  import opened Basics
  import opened FileTree
  import opened QuotaScan
  import opened WorkspaceFiles
  import Base64

  /** The HTTP status of a RuntimeDataError. */
  type Status = int

  datatype WriteSummary = WriteSummary(size: nat, usedBytes: int, quotaBytes: nat)

  function StatusOf(e: GuestError): Status {
    match e
    case NotFound => 404
    case LimitExceeded => 413
    case _ => 400
  }

  /** The bytes the file may grow to before a chunk is refused. */
  ghost function Limit(t: Tree, path: Path, quotaBytes: nat): int {
    Min(MAX_FILE_BYTES, quotaBytes - Sum(Files(t)) + |PriorData(t, path)|)
  }

  /** What a refused upload leaves in the file: the old contents if the first
      chunk was refused, and otherwise the chunks accepted before the refusal. */
  ghost function Remains(t: Tree, path: Path, quotaBytes: nat, contents: bytes): bytes
    requires |contents| > Limit(t, path, quotaBytes)
  {
    var limit := Limit(t, path, quotaBytes);
    if limit < MAX_FILE_CHUNK_BYTES then PriorData(t, path)
    else contents[..limit - limit % MAX_FILE_CHUNK_BYTES]
  }

  /** `now` is the tree once the first bytes of an upload have been stored. */
  ghost predicate Uploaded(t: Tree, now: Tree, path: Path, data: bytes)
    requires path != []
  {
    now == Opened(t, path)[path := File(data)]
  }

  ghost function UsedWith(t: Tree, path: Path, size: nat): int {
    Sum(Files(t)) - |PriorData(t, path)| + size
  }

  /** Once a chunk has been stored, the file can be opened again without
      changing anything. */
  lemma UploadedIsOpen(t: Tree, now: Tree, path: Path, data: bytes)
    requires WellFormed(t) && Openable(t, path) && Uploaded(t, now, path, data)
    ensures WellFormed(now) && Openable(now, path) && Opened(now, path) == now && PriorData(now, path) == data
    ensures Countable(Opened(t, path)) ==> Countable(now)
    ensures Files(now) == Files(t)[path := data] && Sum(Files(now)) == UsedWith(t, path, |data|)
  {
    UsageAfterWrite(t, path, data);
    OpenedIsSafe(t, path);
    EntriesHaveParents(now, path);
    WithDirectoriesWhenPresent(now, Parent(path));
    assert Files(now).Keys == Files(Opened(t, path)).Keys;
  }

  lemma UploadedAgain(t: Tree, now: Tree, path: Path, held: bytes, data: bytes)
    requires path != [] && Uploaded(t, now, path, held)
    ensures Uploaded(t, now[path := File(data)], path, data)
  {
    assert now[path := File(data)] == Opened(t, path)[path := File(data)];
  }

  lemma ChunkOfContents(base: bytes, contents: bytes, offset: nat, end: nat)
    requires offset <= end <= |contents| && base == contents[..offset]
    ensures Patched(base, offset, contents[offset..end]) == contents[..end]
  {
    assert contents[..offset] + contents[offset..end] == contents[..end];
  }

  /** One chunk written to an open file that holds `held`, the contents sent so
      far or, before the first chunk, anything. */
  lemma ChunkStored(before: Tree, after: Tree, path: Path, contents: bytes, offset: nat, end: nat,
                    quotaBytes: nat, r: Result<WriteReply, GuestError>)
    requires path in before && before[path].File? && Countable(before)
    requires offset <= end <= |contents| && (offset > 0 ==> before[path].data == contents[..offset])
    requires Written(before, after, path, offset, contents[offset..end], offset == 0, quotaBytes, r)
    ensures var used := Sum(Files(before)) - |before[path].data| + end;
      && (r.Ok? <==> used <= quotaBytes)
      && (r.Ok? ==>
            && after == before[path := File(contents[..end])]
            && r.value == WriteReply(path, end, end, used, quotaBytes))
      && (r.Err? ==> after == before)
  {
    ChunkOfContents(contents[..offset], contents, offset, end);
    assert contents[..0] == [];
    WrittenAsCharged(before, after, path, offset, contents[offset..end], offset == 0, quotaBytes, r, contents[..end]);
  }

  /** What sending one chunk of an upload does: it is accepted exactly when the
      file may grow to `end`, and a refusal leaves what was there before. */
  ghost predicate Sent(t: Tree, after: Tree, path: Path, contents: bytes, offset: nat, end: nat,
                       quotaBytes: nat, r: Result<WriteReply, GuestError>)
    requires path != [] && offset <= end <= |contents|
  {
    && (r.Ok? <==> end <= MAX_FILE_BYTES && UsedWith(t, path, end) <= quotaBytes)
    && (r.Ok? ==>
          && Uploaded(t, after, path, contents[..end])
          && r.value == WriteReply(path, end, end, UsedWith(t, path, end), quotaBytes))
    && (r.Err? ==>
          && r.error == LimitExceeded
          && Files(after) == Files(t)[path := if offset == 0 then PriorData(t, path) else contents[..offset]])
  }

  lemma FirstChunk(t: Tree, after: Tree, path: Path, contents: bytes, end: nat, quotaBytes: nat,
                   r: Result<WriteReply, GuestError>)
    requires WellFormed(t) && Openable(t, path) && Countable(Opened(t, path))
    requires end <= |contents| && end <= MAX_FILE_BYTES
    requires path in Opened(t, path) && Opened(t, path)[path].File?
    requires Written(Opened(t, path), after, path, 0, contents[0..end], true, quotaBytes, r)
    ensures Sent(t, after, path, contents, 0, end, quotaBytes, r)
  {
    OpenedIsSafe(t, path);
    FirstChunkOf(t, Opened(t, path), after, path, contents, end, quotaBytes, r);
  }

  /** The same over the tree `u` in which the file is open. */
  lemma FirstChunkOf(t: Tree, u: Tree, after: Tree, path: Path, contents: bytes, end: nat, quotaBytes: nat,
                     r: Result<WriteReply, GuestError>)
    requires path != [] && u == Opened(t, path) && path in u && u[path] == File(PriorData(t, path)) && Countable(u)
    requires Files(u) == Files(t)[path := PriorData(t, path)] && Sum(Files(u)) == Sum(Files(t))
    requires end <= |contents| && end <= MAX_FILE_BYTES
    requires Written(u, after, path, 0, contents[0..end], true, quotaBytes, r)
    ensures Sent(t, after, path, contents, 0, end, quotaBytes, r)
  {
    ChunkStored(u, after, path, contents, 0, end, quotaBytes, r);
    RefusedIsLimit(u, after, path, contents[0..end], quotaBytes, r);
  }

  lemma RefusedIsLimit(u: Tree, after: Tree, path: Path, chunk: bytes, quotaBytes: nat, r: Result<WriteReply, GuestError>)
    requires path in u && u[path].File? && Written(u, after, path, 0, chunk, true, quotaBytes, r)
    ensures r.Err? ==> r.error == LimitExceeded
  {
  }

  lemma NextChunk(t: Tree, before: Tree, after: Tree, path: Path, contents: bytes, offset: nat, end: nat,
                  quotaBytes: nat, r: Result<WriteReply, GuestError>)
    requires WellFormed(t) && Openable(t, path) && Countable(Opened(t, path))
    requires 0 < offset <= end <= |contents| && end <= MAX_FILE_BYTES
    requires Uploaded(t, before, path, contents[..offset])
    requires Written(before, after, path, offset, contents[offset..end], false, quotaBytes, r)
    ensures Sent(t, after, path, contents, offset, end, quotaBytes, r)
  {
    var held := contents[..offset];
    UploadedIsOpen(t, before, path, held);
    assert before[path] == File(held) && |held| == offset;
    ChunkStored(before, after, path, contents, offset, end, quotaBytes, r);
    UploadedAgain(t, before, path, held, contents[..end]);
  }

  /** A chunk past the transfer limit is refused before anything is touched. */
  lemma TooLongChunk(t: Tree, after: Tree, path: Path, contents: bytes, offset: nat, end: nat, quotaBytes: nat,
                     r: Result<WriteReply, GuestError>)
    requires WellFormed(t) && Openable(t, path) && offset <= end <= |contents| && end > MAX_FILE_BYTES
    requires end - offset <= MAX_FILE_CHUNK_BYTES && r == Err(LimitExceeded)
    requires Uploaded(t, after, path, contents[..offset])
    ensures Sent(t, after, path, contents, offset, end, quotaBytes, r)
  {
    UploadedIsOpen(t, after, path, contents[..offset]);
  }

  lemma ChunkSent(t: Tree, before: Tree, after: Tree, path: Path, contents: bytes, offset: nat, end: nat,
                  quotaBytes: nat, r: Result<WriteReply, GuestError>)
    requires WellFormed(t) && Openable(t, path) && Countable(Opened(t, path))
    requires offset <= end <= |contents| && end - offset <= MAX_FILE_CHUNK_BYTES
    requires if offset == 0 then before == t else Uploaded(t, before, path, contents[..offset])
    requires end > MAX_FILE_BYTES ==> r == Err(LimitExceeded) && after == before
    requires end <= MAX_FILE_BYTES ==>
      && path in Opened(before, path) && Opened(before, path)[path].File?
      && Written(Opened(before, path), after, path, offset, contents[offset..end], offset == 0, quotaBytes, r)
    ensures Sent(t, after, path, contents, offset, end, quotaBytes, r)
  {
    if end > MAX_FILE_BYTES {
      TooLongChunk(t, after, path, contents, offset, end, quotaBytes, r);
    } else if offset == 0 {
      FirstChunk(t, after, path, contents, end, quotaBytes, r);
    } else {
      UploadedIsOpen(t, before, path, contents[..offset]);
      NextChunk(t, before, after, path, contents, offset, end, quotaBytes, r);
    }
  }

  /** The server's answer to one chunk, over the tree the upload began with. */
  lemma ChunkServed(t: Tree, before: Tree, after: Tree, path: Path, contents: bytes, offset: nat, end: nat,
                    quotaBytes: nat, r: Result<WriteReply, GuestError>)
    requires WellFormed(t) && (Openable(t, path) ==> Countable(Opened(t, path)))
    requires offset <= end <= |contents| && end - offset <= MAX_FILE_CHUNK_BYTES && offset <= MAX_FILE_BYTES
    requires if offset == 0 then before == t else Openable(t, path) && Uploaded(t, before, path, contents[..offset])
    requires Served(before, after, path, offset, Base64.Encode(contents[offset..end]), offset == 0, quotaBytes, r)
    ensures !Openable(t, path) ==> OpenRefusal(t, path, true).Some? && r == Err(OpenRefusal(t, path, true).value) && after == t
    ensures Openable(t, path) ==> Sent(t, after, path, contents, offset, end, quotaBytes, r)
  {
    var chunk := contents[offset..end];
    Base64.DecodeEncode(chunk);
    if offset > 0 { UploadedIsOpen(t, before, path, contents[..offset]); }
    if end <= MAX_FILE_BYTES {
      ServedMeansOpened(before, after, path, offset, Base64.Encode(chunk), offset == 0, quotaBytes, r);
    }
    if Openable(t, path) { ChunkSent(t, before, after, path, contents, offset, end, quotaBytes, r); }
  }

  /** What the adapter makes of the answer to a delete. */
  lemma DeleteServed(t: Tree, after: Tree, path: Path, quotaBytes: nat, r: Result<DeleteReply, GuestError>)
    requires WellFormed(t) && path != [] && path in t && t[path].File? && after == t - {path}
    requires AnsweredAfterDelete(after, path, quotaBytes, r)
    ensures r.Ok? ==> r.value.path == path && r.value.quotaBytes == quotaBytes
    ensures Countable(after) ==> r.Ok? && r.value.usedBytes == Sum(Files(t)) - |t[path].data|
  {
    DeleteAnswers(t, path, quotaBytes, r);
  }

  /** An upload over a tree the quota scan can count. It succeeds exactly when
      the contents fit the transfer limit and the quota; then this file holds
      them, every other file is as before, and the reported usage is the true
      sum. Refused, it reports 413, and it has been undone only as far as
      `Remains` says. */
  ghost predicate Stored(t: Tree, after: Tree, path: Path, contents: bytes, quotaBytes: nat,
                         r: Result<WriteSummary, Status>)
  {
    && (r.Ok? <==> |contents| <= Limit(t, path, quotaBytes))
    && (r.Ok? ==>
          && Files(after) == Files(t)[path := contents]
          && r.value == WriteSummary(|contents|, Sum(Files(after)), quotaBytes))
    && (r.Err? ==>
          && r.error == 413
          && Files(after) == Files(t)[path := Remains(t, path, quotaBytes, contents)])
  }

  ghost predicate WithinLimits(t: Tree, path: Path, quotaBytes: nat, size: nat) {
    size <= MAX_FILE_BYTES && UsedWith(t, path, size) <= quotaBytes
  }

  lemma WithinLimitsMeansLimit(t: Tree, path: Path, quotaBytes: nat, size: nat)
    ensures WithinLimits(t, path, quotaBytes, size) <==> size <= Limit(t, path, quotaBytes)
  {
  }

  /** A file that was stored can be fetched, and is what was stored; every other
      file is as it was before the upload. */
  lemma StoredCanBeFetched(t: Tree, after: Tree, path: Path, contents: bytes, quotaBytes: nat,
                           r: Result<WriteSummary, Status>, other: Path)
    requires WellFormed(after) && Openable(t, path) && Stored(t, after, path, contents, quotaBytes, r) && r.Ok?
    ensures ReadRefusal(after, path, 0, MAX_FILE_CHUNK_BYTES).None? && after[path].data == contents
    ensures other != path ==>
              && (other in Files(after) <==> other in Files(t))
              && (other in Files(t) ==> Files(after)[other] == Files(t)[other])
  {
    assert Files(after)[path] == contents;
    EntriesHaveParents(after, path);
    WithinLimitsMeansLimit(t, path, quotaBytes, |contents|);
  }

  /** An upload that has stored its first `offset` bytes, as reported by `last`. */
  ghost predicate Progress(t: Tree, now: Tree, path: Path, contents: bytes, offset: nat, quotaBytes: nat,
                           last: WriteReply)
    requires path != [] && offset <= |contents|
  {
    && Uploaded(t, now, path, contents[..offset])
    && WithinLimits(t, path, quotaBytes, offset)
    && ((offset % MAX_FILE_CHUNK_BYTES == 0 && offset > 0) || offset == |contents|)
    && last == WriteReply(path, offset, offset, UsedWith(t, path, offset), quotaBytes)
  }

  lemma ProgressAfter(t: Tree, after: Tree, path: Path, contents: bytes, offset: nat, end: nat, quotaBytes: nat,
                      reply: Result<WriteReply, GuestError>)
    requires path != [] && offset <= |contents| && end == Min(|contents|, offset + MAX_FILE_CHUNK_BYTES)
    requires offset % MAX_FILE_CHUNK_BYTES == 0
    requires Sent(t, after, path, contents, offset, end, quotaBytes, reply) && reply.Ok?
    ensures Progress(t, after, path, contents, end, quotaBytes, reply.value)
  {
  }

  lemma AcceptedUpload(t: Tree, after: Tree, path: Path, contents: bytes, quotaBytes: nat)
    requires WellFormed(t) && Openable(t, path) && Uploaded(t, after, path, contents)
    requires WithinLimits(t, path, quotaBytes, |contents|)
    ensures Stored(t, after, path, contents, quotaBytes,
                   Ok(WriteSummary(|contents|, UsedWith(t, path, |contents|), quotaBytes)))
  {
    WithinLimitsMeansLimit(t, path, quotaBytes, |contents|);
    UploadedIsOpen(t, after, path, contents);
  }

  lemma RefusedUpload(t: Tree, after: Tree, path: Path, contents: bytes, offset: nat, end: nat, quotaBytes: nat,
                      reply: Result<WriteReply, GuestError>)
    requires path != [] && offset <= |contents| && end == Min(|contents|, offset + MAX_FILE_CHUNK_BYTES)
    requires offset % MAX_FILE_CHUNK_BYTES == 0 && (offset > 0 ==> WithinLimits(t, path, quotaBytes, offset))
    requires Sent(t, after, path, contents, offset, end, quotaBytes, reply) && reply.Err?
    ensures Stored(t, after, path, contents, quotaBytes, Err(413))
  {
    WithinLimitsMeansLimit(t, path, quotaBytes, offset);
    WithinLimitsMeansLimit(t, path, quotaBytes, end);
    var limit := Limit(t, path, quotaBytes);
    assert limit < end;
    if offset > 0 {
      WholeChunks(offset, limit);
    }
  }

  /** A refused upload is not undone in general: the files are as they were exactly when
      the file was there before, and either the first chunk was already too much or the
      chunks that were accepted spell the old contents. */
  lemma UndoneExactly(t: Tree, after: Tree, path: Path, contents: bytes, quotaBytes: nat, r: Result<WriteSummary, Status>)
    requires Stored(t, after, path, contents, quotaBytes, r) && r.Err?
    ensures Files(after) == Files(t) <==>
      && path in Files(t)
      && (Limit(t, path, quotaBytes) < MAX_FILE_CHUNK_BYTES || Remains(t, path, quotaBytes, contents) == Files(t)[path])
  {
    var left := Remains(t, path, quotaBytes, contents);
    assert Files(after)[path] == left;
    if path in Files(t) && left == Files(t)[path] { assert Files(t)[path := left] == Files(t); }
  }

  // Two concrete uploads that are refused and not undone.

  const FOLDER: Tree := map[[] := Directory, ["d"] := Directory]
  const NOTES: Path := ["d", "notes"]
  const ZEROS: bytes := seq(MAX_FILE_CHUNK_BYTES + 1, _ => 0)

  function WithNotes(): Tree { FOLDER[NOTES := File([1])] }

  lemma NotesAreOrdinary()
    ensures WellFormed(FOLDER) && Openable(FOLDER, NOTES) && Files(FOLDER) == map[] && Sum(Files(FOLDER)) == 0
    ensures WellFormed(WithNotes()) && Openable(WithNotes(), NOTES)
    ensures Files(WithNotes()) == map[NOTES := [1]] && Sum(Files(WithNotes())) == 1
  {
    assert Parent(NOTES) == ["d"];
    FolderHolds(FOLDER, File([1]));
    FolderHolds(WithNotes(), File([1]));
    SumOfUpdate(map[], NOTES, [1]);
    assert map[][NOTES := [1]] == map[NOTES := [1]];
  }

  /** So `Write` may be called on both trees. */
  lemma NotesAreCountable()
    ensures Countable(Opened(FOLDER, NOTES)) && Countable(Opened(WithNotes(), NOTES))
  {
    assert Parent(NOTES) == ["d"];
    FolderHolds(FOLDER, File([]));
    FolderHolds(FOLDER[NOTES := File([])], File([]));
    FolderHolds(WithNotes(), File([1]));
    WithDirectoriesWhenPresent(FOLDER, ["d"]);
    WithDirectoriesWhenPresent(WithNotes(), ["d"]);
  }

  lemma FolderHolds(t: Tree, notes: Node)
    requires notes.File? && (t == FOLDER || t == FOLDER[NOTES := notes])
    ensures WellFormed(t) && !Blocked(t, ["d"]) && Files(t) == if NOTES in t then map[NOTES := notes.data] else map[]
  {
    assert Parent(NOTES) == ["d"] && Parent(["d"]) == [];
    forall k | 1 <= k <= 1 ensures ["d"][..k] == ["d"] {}
  }

  /** The second chunk is one byte too much: the first has already replaced the file. */
  lemma ARefusedUploadOverwrites(after: Tree, r: Result<WriteSummary, Status>)
    requires Stored(WithNotes(), after, NOTES, ZEROS, MAX_FILE_CHUNK_BYTES, r)
    ensures r == Err(413) && Files(WithNotes())[NOTES] == [1] && Files(after)[NOTES] == ZEROS[..MAX_FILE_CHUNK_BYTES]
  {
    NotesAreOrdinary();
  }

  /** The first chunk is too much: the file was not there, and is now, empty. */
  lemma ARefusedUploadCreates(after: Tree, r: Result<WriteSummary, Status>)
    requires Stored(FOLDER, after, NOTES, [1, 2], 1, r)
    ensures r == Err(413) && NOTES !in Files(FOLDER) && NOTES in Files(after) && Files(after)[NOTES] == []
  {
    NotesAreOrdinary();
  }

  lemma WholeChunks(offset: nat, limit: int)
    requires offset % MAX_FILE_CHUNK_BYTES == 0 && offset <= limit < offset + MAX_FILE_CHUNK_BYTES
    ensures limit - limit % MAX_FILE_CHUNK_BYTES == offset
    ensures offset > 0 ==> limit >= MAX_FILE_CHUNK_BYTES
  {
    assert MAX_FILE_CHUNK_BYTES == 262144;
  }

  class GuestWorkspace {
    const server: WorkspaceFiles

    constructor (server: WorkspaceFiles)
      ensures this.server == server
    {
      this.server := server;
    }

    /** Fetches a whole file, whatever counts the individual reads return. */
    method Read(path: Path) returns (r: Result<bytes, Status>)
      requires WellFormed(server.tree)
      modifies server
      ensures server.tree == old(server.tree)
      ensures match ReadRefusal(server.tree, path, 0, MAX_FILE_CHUNK_BYTES)
              case Some(e) => r == Err(StatusOf(e))
              case None => r == Ok(server.tree[path].data)
    {
      ghost var t := server.tree;
      var chunks: seq<bytes> := [];
      var offset := 0;
      var expectedSize: Option<nat> := None;
      while true
        invariant server.tree == t
        invariant offset == 0 || ReadRefusal(t, path, 0, MAX_FILE_CHUNK_BYTES).None?
        invariant ReadRefusal(t, path, 0, MAX_FILE_CHUNK_BYTES).None? ==>
                    && offset <= |t[path].data| && Concat(chunks) == t[path].data[..offset]
                    && (expectedSize.Some? ==> expectedSize.value == |t[path].data|)
        decreases MAX_FILE_BYTES - offset
      {
        var reply := server.Read(path, offset, MAX_FILE_CHUNK_BYTES);
        if reply.Err? {
          return Err(StatusOf(reply.error));
        }
        var chunk := reply.value;
        if chunk.path != path || chunk.offset != offset
           || (expectedSize.Some? && chunk.size != expectedSize.value) {
          return Err(501);
        }
        expectedSize := Some(chunk.size);
        ghost var data := t[path].data[offset..chunk.nextOffset];
        Base64.DecodeEncode(data);
        if !Base64.IsCanonical(chunk.data) {
          return Err(501);
        }
        var received := Base64.Decode(chunk.data);
        if |received| > MAX_FILE_CHUNK_BYTES || chunk.nextOffset != offset + |received| {
          return Err(501);
        }
        ConcatSnoc(chunks, received);
        assert t[path].data[..offset] + data == t[path].data[..chunk.nextOffset];
        chunks := chunks + [received];
        offset := chunk.nextOffset;
        if chunk.eof {
          if offset != chunk.size {
            return Err(501);
          }
          assert t[path].data[..offset] == t[path].data;
          return Ok(Concat(chunks));
        }
        if |received| == 0 {
          return Err(501);
        }
      }
    }

    /** Removes a file and reports the usage that remains. */
    method Delete(path: Path) returns (r: Result<(nat, nat), Status>)
      requires WellFormed(server.tree) && path != []
      modifies server
      ensures WellFormed(server.tree)
      ensures path in old(server.tree) && old(server.tree)[path].File? ==>
        && server.tree == old(server.tree) - {path}
        && (Countable(server.tree) ==>
              (r.Ok? && r.value.0 == Sum(Files(old(server.tree))) - |old(server.tree)[path].data| && r.value.1 == server.quotaBytes))
      ensures !(path in old(server.tree) && old(server.tree)[path].File?) ==>
        server.tree == old(server.tree) && r == Err(StatusOf(DeleteRefusal(old(server.tree), path, false)))
    {
      var reply := Removed(path);
      if reply.Err? {
        return Err(StatusOf(reply.error));
      }
      if reply.value.path != path {
        return Err(501);
      }
      r := Ok((reply.value.usedBytes, reply.value.quotaBytes));
    }

    /** The server's answer to the request. */
    method Removed(path: Path) returns (r: Result<DeleteReply, GuestError>)
      requires WellFormed(server.tree) && path != []
      modifies server
      ensures WellFormed(server.tree)
      ensures path in old(server.tree) && old(server.tree)[path].File? ==>
        && server.tree == old(server.tree) - {path}
        && (Countable(server.tree) ==>
              (r.Ok? && r.value.path == path && r.value.quotaBytes == server.quotaBytes
              && r.value.usedBytes == Sum(Files(old(server.tree))) - |old(server.tree)[path].data|))
      ensures !(path in old(server.tree) && old(server.tree)[path].File?) ==>
        server.tree == old(server.tree) && r == Err(DeleteRefusal(old(server.tree), path, false))
    {
      ghost var t := server.tree;
      r := server.Delete(path, false);
      if path in t && t[path].File? { DeleteServed(t, server.tree, path, server.quotaBytes, r); }
    }

    /** Sends one chunk of an upload that began with the tree `t`. */
    method PutChunk(ghost t: Tree, path: Path, contents: bytes, offset: nat, end: nat)
      returns (r: Result<WriteReply, GuestError>)
      requires WellFormed(t) && (Openable(t, path) ==> Countable(Opened(t, path)))
      requires offset <= end <= |contents| && end - offset <= MAX_FILE_CHUNK_BYTES && offset <= MAX_FILE_BYTES
      requires offset < end || offset == 0
      requires if offset == 0 then server.tree == t else Openable(t, path) && Uploaded(t, server.tree, path, contents[..offset])
      modifies server
      ensures WellFormed(server.tree)
      ensures !Openable(t, path) ==> r == Err(OpenRefusal(t, path, true).value) && server.tree == t
      ensures Openable(t, path) ==> Sent(t, server.tree, path, contents, offset, end, server.quotaBytes, r)
    {
      if offset > 0 { UploadedIsOpen(t, server.tree, path, contents[..offset]); }
      r := server.Write(path, offset, Base64.Encode(contents[offset..end]), offset == 0);
      ChunkServed(t, old(server.tree), server.tree, path, contents, offset, end, server.quotaBytes, r);
    }

    /** Stores a whole file, chunk by chunk. */
    method Write(path: Path, contents: bytes) returns (r: Result<WriteSummary, Status>)
      requires WellFormed(server.tree) && server.quotaBytes > 0
      requires Openable(server.tree, path) ==> Countable(Opened(server.tree, path))
      modifies server
      ensures WellFormed(server.tree)
      ensures !Openable(old(server.tree), path) ==>
                && r == Err(StatusOf(OpenRefusal(old(server.tree), path, true).value))
                && server.tree == old(server.tree)
      ensures Openable(old(server.tree), path) ==>
                Stored(old(server.tree), server.tree, path, contents, server.quotaBytes, r)
    {
      ghost var t := server.tree;
      var offset := 0;
      var final: Option<WriteReply> := None;
      while final.None? || offset < |contents|
        invariant 0 <= offset <= |contents| && WellFormed(server.tree)
        invariant final.None? ==> offset == 0 && server.tree == t
        invariant final.Some? ==>
                    && Openable(t, path)
                    && Progress(t, server.tree, path, contents, offset, server.quotaBytes, final.value)
        decreases final.None?, |contents| - offset
      {
        var end := Min(|contents|, offset + MAX_FILE_CHUNK_BYTES);
        var reply := PutChunk(t, path, contents, offset, end);
        if reply.Err? {
          if Openable(t, path) {
            RefusedUpload(t, server.tree, path, contents, offset, end, server.quotaBytes, reply);
          }
          return Err(StatusOf(reply.error));
        }
        ProgressAfter(t, server.tree, path, contents, offset, end, server.quotaBytes, reply);
        if reply.value.path != path || reply.value.nextOffset != end {
          return Err(501);
        }
        offset := reply.value.nextOffset;
        final := Some(reply.value);
      }
      if final.value.size != |contents| {
        return Err(501);
      }
      r := Ok(WriteSummary(final.value.size, final.value.usedBytes, final.value.quotaBytes));
      assert contents[..offset] == contents;
      AcceptedUpload(t, server.tree, path, contents, server.quotaBytes);
    }
  }
}
