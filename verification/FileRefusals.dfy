/** Why the guest's file server refuses a request, read off the request and the tree. */
module FileRefusals {
  import opened Basics
  import opened FileTree
  import opened WorkspaceFiles
  import Base64

  /** Some name on the way to the path is there and is no directory. */
  ghost predicate ObstructedWay(t: Tree, path: Path) {
    exists k :: 1 <= k < |path| && path[..k] in t && !t[path[..k]].Directory?
  }

  lemma BlockedMeansObstructed(t: Tree, path: Path)
    requires path != []
    ensures Blocked(t, Parent(path)) <==> ObstructedWay(t, path)
  {
    if Blocked(t, Parent(path)) {
      var k :| 1 <= k <= |Parent(path)| && Parent(path)[..k] in t && !t[Parent(path)[..k]].Directory?;
      assert Parent(path)[..k] == path[..k];
    }
    if k :| 1 <= k < |path| && path[..k] in t && !t[path[..k]].Directory? {
      assert Parent(path)[..k] == path[..k];
    }
  }

  /** A path can be opened exactly if it has a parent below the root, nothing obstructs the
      way, and it is a regular file, or absent when writing, or a directory when reading;
      otherwise the code says which. */
  lemma OpenRefusedFor(t: Tree, path: Path, writing: bool)
    ensures var refusal := OpenRefusal(t, path, writing); var free := |path| >= 2 && !ObstructedWay(t, path);
      && (refusal.None? <==>
            free && if writing then path in t ==> t[path].File? else path in t && (t[path].File? || t[path].Directory?))
      && (refusal == Some(InvalidRequest) <==> |path| < 2)
      && (refusal == Some(PermissionDenied) <==> |path| >= 2 && (ObstructedWay(t, path) || (path in t && t[path].Symlink?)))
      && (refusal == Some(NotFound) <==> free && !writing && path !in t)
      && (refusal == Some(Internal) <==> free && writing && path in t && t[path].Directory?)
  {
    if path != [] { BlockedMeansObstructed(t, path); }
  }

  /** A read is served exactly for a cursor of at most 8 MiB within a regular file of at most
      8 MiB, and 1 byte to 256 KiB at a time. */
  lemma ReadRefusedFor(t: Tree, path: Path, offset: int, maxBytes: int)
    ensures var refusal := ReadRefusal(t, path, offset, maxBytes);
      var asked := 0 <= offset <= 8_388_608 && 1 <= maxBytes <= 262_144;
      var free := |path| >= 2 && !ObstructedWay(t, path);
      var file := free && path in t && t[path].File?;
      && (refusal.None? <==> asked && file && offset <= |t[path].data| <= 8_388_608)
      && (refusal == Some(LimitExceeded) <==> asked && file && |t[path].data| > 8_388_608)
      && (refusal == Some(NotFound) <==> asked && free && path !in t)
      && (refusal == Some(PermissionDenied) <==> asked && |path| >= 2 && (ObstructedWay(t, path) || (path in t && t[path].Symlink?)))
      && (refusal.Some? ==> refusal.value in {InvalidRequest, LimitExceeded, NotFound, PermissionDenied})
  {
    OpenRefusedFor(t, path, false);
  }

  /** A write's arguments are in order exactly if it begins within 8 MiB, at the start when it
      truncates, and its data is the base64 of at most 256 KiB that end within 8 MiB. */
  lemma ArgumentsRefusedFor(offset: int, encoded: string, truncate: bool)
    ensures var refusal := ArgumentRefusal(offset, encoded, truncate);
      var placed := 0 <= offset <= 8_388_608 && (truncate ==> offset == 0);
      && (refusal.None? <==>
            placed && exists chunk :: encoded == Base64.Encode(chunk) && |chunk| <= 262_144 && offset + |chunk| <= 8_388_608)
      && (refusal == Some(InvalidRequest) <==> !placed || forall chunk :: encoded != Base64.Encode(chunk))
      && (refusal == Some(LimitExceeded) <==>
            placed && exists chunk :: encoded == Base64.Encode(chunk) && (|chunk| > 262_144 || offset + |chunk| > 8_388_608))
  {
    Base64.CanonicalMeansEncoded(encoded);
    forall chunk | encoded == Base64.Encode(chunk) ensures Base64.IsCanonical(encoded) && Base64.Decode(encoded) == chunk {
      Base64.DecodeEncode(chunk);
    }
  }

  /** A delete that does not remove a regular file says why. */
  lemma DeleteRefusedFor(t: Tree, path: Path, recursive: bool)
    requires path != [] && (recursive || path !in t || !t[path].File? || ObstructedWay(t, path))
    ensures var refusal := DeleteRefusal(t, path, recursive);
      && (refusal == PermissionDenied <==> recursive || ObstructedWay(t, path))
      && (refusal == NotFound <==> !recursive && !ObstructedWay(t, path) && path !in t)
      && (refusal == InvalidRequest <==> !recursive && !ObstructedWay(t, path) && path in t && !t[path].File?)
  {
    BlockedMeansObstructed(t, path);
  }
}
