/** The class that owns the promise chain (src/agent/data-files.ts). Each method
    is the code of one or more turns of the event loop and is proved to make
    the corresponding steps of `DataFiles`; the quota scan is the worklist loop. */
module DataFileStore {
  import opened Basics
  import opened FileTree
  import opened DataFiles
  import Paths
  import Texts

  datatype ScanError = TooManyFiles

  /** The regular files among a set of visited entries. */
  ghost function FilesSeen(t: Tree, seen: set<Path>): map<Path, bytes> {
    map p | p in seen && p in t && t[p].File? :: t[p].data
  }

  /** Where the scan stands: the entries of the expanded directories have been
      counted, and every directory found is expanded or pending. */
  ghost predicate Scanning(t: Tree, pending: seq<Path>, expanded: set<Path>, seen: set<Path>) {
    && expanded <= t.Keys && seen <= t.Keys
    && (forall p :: p in t && p != [] ==> (p in seen <==> Parent(p) in expanded))
    && [] !in seen && (forall p :: p in expanded ==> p == [] || p in seen)
    && (forall p :: p in t && t[p].Directory? && (p == [] || p in seen) ==> p in expanded || p in pending)
    && (forall i :: 0 <= i < |pending| ==>
          pending[i] in t && t[pending[i]].Directory? && pending[i] !in expanded && (pending[i] == [] || pending[i] in seen))
    && (forall i, j :: 0 <= i < j < |pending| ==> pending[i] != pending[j])
  }

  /** With nothing pending, everything has been counted. */
  lemma {:induction false} ScanIsComplete(t: Tree, expanded: set<Path>, seen: set<Path>, p: Path)
    requires WellFormed(t) && Scanning(t, [], expanded, seen) && p in t && p != []
    ensures p in seen
    decreases |p|
  {
    if Parent(p) != [] {
      ScanIsComplete(t, expanded, seen, Parent(p));
    }
  }

  lemma SeenGrows(t: Tree, seen: set<Path>, p: Path)
    requires p in t && p !in seen
    ensures Sum(FilesSeen(t, seen + {p})) == Sum(FilesSeen(t, seen)) + if t[p].File? then |t[p].data| else 0
  {
    if t[p].File? {
      assert FilesSeen(t, seen + {p}) == FilesSeen(t, seen)[p := t[p].data];
      SumOfUpdate(FilesSeen(t, seen), p, t[p].data);
    } else {
      assert FilesSeen(t, seen + {p}) == FilesSeen(t, seen);
    }
  }

  /** Where the scan stands while the entries of `directory` are read. */
  ghost predicate Expanding(t: Tree, pending: seq<Path>, expanded: set<Path>, seen: set<Path>,
                            directory: Path, entries: set<Path>) {
    && directory in t && t[directory].Directory? && directory !in expanded && (directory == [] || directory in seen)
    && expanded <= t.Keys && seen <= t.Keys
    && (forall p :: p in t && p != [] ==>
          (p in seen <==> Parent(p) in expanded || (Parent(p) == directory && p !in entries)))
    && [] !in seen && (forall p :: p in expanded ==> p == [] || p in seen)
    && (forall p :: p in t && t[p].Directory? && (p == [] || p in seen) ==>
          p in expanded || p in pending || p == directory)
    && (forall i :: 0 <= i < |pending| ==>
          && pending[i] in t && t[pending[i]].Directory? && pending[i] !in expanded && pending[i] != directory
          && (pending[i] == [] || pending[i] in seen))
    && (forall i, j :: 0 <= i < j < |pending| ==> pending[i] != pending[j])
  }

  lemma PopStartsExpanding(t: Tree, pending: seq<Path>, expanded: set<Path>, seen: set<Path>)
    requires Scanning(t, pending, expanded, seen) && pending != []
    ensures var last := |pending| - 1;
      Expanding(t, pending[..last], expanded, seen, pending[last], Children(t, pending[last]))
  {
    var last := |pending| - 1;
    forall p | p in t && p != [] ensures Parent(p) == pending[last] <==> p in Children(t, pending[last]) {
      IsChild(t, pending[last], p);
    }
  }

  lemma IsChild(t: Tree, dir: Path, p: Path)
    requires p in t && p != []
    ensures Parent(p) == dir <==> p in Children(t, dir)
  {
  }

  lemma EntryStep(t: Tree, pending: seq<Path>, expanded: set<Path>, seen: set<Path>, directory: Path,
                  entries: set<Path>, entry: Path)
    requires WellFormed(t) && Expanding(t, pending, expanded, seen, directory, entries)
    requires entry in entries && entries <= Children(t, directory)
    ensures entry !in seen
    ensures Expanding(t, if t[entry].Directory? then pending + [entry] else pending, expanded, seen + {entry},
                      directory, entries - {entry})
  {
    IsChild(t, directory, entry);
    assert (pending + [entry])[|pending|] == entry;
  }

  lemma LastEntryEndsExpanding(t: Tree, pending: seq<Path>, expanded: set<Path>, seen: set<Path>, directory: Path)
    requires Expanding(t, pending, expanded, seen, directory, {})
    ensures Scanning(t, pending, expanded + {directory}, seen)
  {
  }

  /** Reads one directory: its subdirectories become pending. */
  method ReadEntries(t: Tree, directory: Path, rest: seq<Path>, count0: nat, total0: nat,
                     ghost expanded: set<Path>, ghost seen0: set<Path>)
    returns (ok: bool, pending: seq<Path>, count: nat, total: nat, ghost seen: set<Path>)
    requires WellFormed(t) && Expanding(t, rest, expanded, seen0, directory, Children(t, directory))
    requires count0 == |seen0| <= MAX_QUOTA_SCAN_ENTRIES && total0 == Sum(FilesSeen(t, seen0))
    ensures ok ==> Expanding(t, pending, expanded, seen, directory, {})
    ensures ok ==> count == |seen| <= MAX_QUOTA_SCAN_ENTRIES && total == Sum(FilesSeen(t, seen))
    ensures !ok ==> |t| - 1 > MAX_QUOTA_SCAN_ENTRIES
  {
    pending, count, total, seen := rest, count0, total0, seen0;
    var entries := Children(t, directory);
    while entries != {}
      invariant entries <= Children(t, directory) && Expanding(t, pending, expanded, seen, directory, entries)
      invariant count == |seen| <= MAX_QUOTA_SCAN_ENTRIES && total == Sum(FilesSeen(t, seen))
      decreases entries
    {
      var entry :| entry in entries;
      EntryStep(t, pending, expanded, seen, directory, entries, entry);
      SeenGrows(t, seen, entry);
      count := count + 1;
      if count > MAX_QUOTA_SCAN_ENTRIES {
        CountIsLow(t, seen + {entry});
        return false, pending, count, total, seen;
      }
      if t[entry].Directory? {
        pending := pending + [entry];
      } else if t[entry].File? {
        total := total + |t[entry].data|;
      }
      seen := seen + {entry};
      entries := entries - {entry};
    }
    ok := true;
  }

  /** The scan: every entry counts towards the limit, only regular files towards
      the sum. It equals the sum over the tree exactly when the tree has no more
      entries than the limit. */
  method DirectoryBytes(t: Tree) returns (r: Result<nat, ScanError>)
    requires WellFormed(t)
    ensures r == if |t| - 1 <= MAX_QUOTA_SCAN_ENTRIES then Ok(Sum(Files(t))) else Err(TooManyFiles)
  {
    var count, total := 0, 0;
    var pending: seq<Path> := [[]];
    ghost var expanded: set<Path>, seen: set<Path> := {}, {};
    assert FilesSeen(t, {}) == map[];
    while pending != []
      invariant Scanning(t, pending, expanded, seen)
      invariant count == |seen| <= MAX_QUOTA_SCAN_ENTRIES && total == Sum(FilesSeen(t, seen))
      decreases t.Keys - expanded
    {
      PopStartsExpanding(t, pending, expanded, seen);
      var directory := pending[|pending| - 1];
      var ok;
      ok, pending, count, total, seen :=
        ReadEntries(t, directory, pending[..|pending| - 1], count, total, expanded, seen);
      if !ok {
        return Err(TooManyFiles);
      }
      LastEntryEndsExpanding(t, pending, expanded, seen, directory);
      expanded := expanded + {directory};
    }
    EverythingSeen(t, expanded, seen);
    r := Ok(total);
  }

  lemma EverythingSeen(t: Tree, expanded: set<Path>, seen: set<Path>)
    requires WellFormed(t) && Scanning(t, [], expanded, seen)
    ensures |seen| == |t| - 1 && FilesSeen(t, seen) == Files(t)
  {
    forall p | p in t && p != [] ensures p in seen {
      ScanIsComplete(t, expanded, seen, p);
    }
    assert seen == t.Keys - {[]} && |t.Keys| == |t|;
  }

  lemma CountIsLow(t: Tree, seen: set<Path>)
    requires [] in t && [] !in seen && seen <= t.Keys
    ensures |seen| <= |t| - 1
  {
    SubsetSize(seen, t.Keys - {[]});
    assert |t.Keys| == |t|;
  }

  class WorkspaceDataFiles {
    var locks: map<Root, TaskId>
    var tasks: seq<Task>
    var trees: map<Root, Tree>

    ghost function Model(): System
      reads this
    {
      System(tasks, locks, trees)
    }

    constructor (trees: map<Root, Tree>)
      ensures Model() == System([], map[], trees)
    {
      this.locks, this.tasks, this.trees := map[], [], trees;
    }

    /** The synchronous start of a call: the size limit, then the place in the
        chain of promises. */
    method Enqueue(root: Root, operation: Operation, ghost quota: Root -> nat) returns (r: Result<TaskId, int>)
      requires root in trees
      modifies this
      ensures if Admitted(operation)
              then r == Ok(|old(tasks)|) && Model() == Next(old(Model()), quota, Arrive(root, operation))
              else r == Err(413) && Model() == old(Model())
    {
      if operation.Write? && |operation.contents| > MAX_FILE_TRANSFER_BYTES {
        return Err(413);
      }
      var previous := if root in locks then Some(locks[root]) else None;
      var id := |tasks|;
      tasks := tasks + [Task(root, operation, previous, Waiting)];
      locks := locks[root := id];
      r := Ok(id);
    }

    /** Makes the missing directories above the target, refusing anything on the
        way that is not a directory, and any parent whose text begins with two
        dots. */
    method EnsureSafeParents(id: TaskId, ghost quota: Root -> nat) returns (r: Result<(), int>)
      requires id < |tasks| && tasks[id].root in trees && WellFormed(trees[tasks[id].root])
      requires tasks[id].stage.Entered? && tasks[id].operation.Write? && tasks[id].operation.path != []
      modifies this`trees
      ensures var parent := Parent(tasks[id].operation.path);
        if Paths.ParentRefused(Texts.Join(parent, '/')) || Blocked(old(trees)[tasks[id].root], parent)
        then r == Err(400) && Model() == old(Model())
        else r == Ok(()) && Model() == Next(old(Model()), quota, MakeParents(id, |parent|))
    {
      var path := tasks[id].operation.path;
      var parent := path[..|path| - 1];
      if Paths.ParentRefused(Texts.Join(parent, '/')) {
        return Err(400);
      }
      var ok := MakeDirectories(tasks[id].root, parent);
      assert path[..|parent|] == parent;
      r := if ok then Ok(()) else Err(400);
    }

    method MakeDirectories(root: Root, parent: Path) returns (ok: bool)
      requires root in trees && WellFormed(trees[root])
      modifies this`trees
      ensures ok <==> !Blocked(old(trees)[root], parent)
      ensures trees == if ok then old(trees)[root := WithDirectories(old(trees)[root], parent)] else old(trees)
    {
      ghost var t := trees[root];
      for k := 0 to |parent|
        invariant trees == old(trees)[root := WithDirectories(t, parent[..k])]
        invariant !Blocked(t, parent[..k])
      {
        var cursor := parent[..k + 1];
        assert Parent(cursor) == parent[..k];
        BlockedParent(t, cursor);
        MadeOnTheWay(t, parent[..k], cursor);
        var tree := trees[root];
        if cursor in tree {
          if !tree[cursor].Directory? {
            BlockedAt(t, parent, k + 1);
            return false;
          }
        } else {
          trees := trees[root := tree[cursor := Directory]];
        }
      }
      assert parent[..|parent|] == parent;
      ok := true;
    }

    /** The quota test and the truncation that follows it. */
    method Approve(id: TaskId, quotaBytes: nat, ghost quota: Root -> nat) returns (r: Result<(), int>)
      requires id < |tasks| && tasks[id].root in trees && quotaBytes == quota(tasks[id].root)
      requires tasks[id].stage.Measured? && tasks[id].operation.Write?
      modifies this
      ensures if Enabled(old(Model()), quota, Truncate(id))
              then r == Ok(()) && Model() == Next(old(Model()), quota, Truncate(id))
              else r == Err(413) && Model() == old(Model())
    {
      var task := tasks[id];
      var usedAfter := task.stage.used - task.stage.prior + |task.operation.contents|;
      if usedAfter > quotaBytes {
        return Err(413);
      }
      trees := trees[task.root := trees[task.root][task.operation.path := File([])]];
      tasks := tasks[id := task.(stage := Writing(0, usedAfter))];
      r := Ok(());
    }

    /** The quota scan as one call makes it. */
    method TakeMeasure(id: TaskId, ghost quota: Root -> nat) returns (r: Result<nat, int>)
      requires id < |tasks| && tasks[id].root in trees && WellFormed(trees[tasks[id].root])
      requires tasks[id].stage.Sized?
      modifies this`tasks
      ensures if |trees[old(tasks)[id].root]| - 1 <= MAX_QUOTA_SCAN_ENTRIES
              then r.Ok? && Model() == Next(old(Model()), quota, Measure(id))
              else r == Err(413) && Model() == old(Model())
    {
      var task := tasks[id];
      var used := DirectoryBytes(trees[task.root]);
      if used.Err? {
        return Err(413);
      }
      tasks := tasks[id := task.(stage := Measured(task.stage.prior, used.value))];
      r := Ok(used.value);
    }

    /** The end of a call, successful or not: the promise is resolved and the map
        entry dropped if it is still this call's. */
    method Leave(id: TaskId, reply: Option<int>)
      requires id < |tasks|
      modifies this`tasks, this`locks
      ensures Model() == Release(old(Model()), id, reply)
    {
      tasks := tasks[id := tasks[id].(stage := Done(reply))];
      var root := tasks[id].root;
      if root in locks && locks[root] == id {
        locks := locks - {root};
      }
    }
  }
}
