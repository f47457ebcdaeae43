/** The development runtime's file store (src/agent/data-files.ts): writes and
    deletes of one root take turns through a chain of promises, so that what
    each measures is still true when it writes. */
module DataFiles {
  import opened Basics
  import opened FileTree

  const MAX_FILE_TRANSFER_BYTES := 8 * 1024 * 1024
  const MAX_QUOTA_SCAN_ENTRIES := 20_000

  type Root = string

  /** Calls are numbered in the order they were made. */
  type TaskId = nat

  datatype Operation = Write(path: Path, contents: bytes) | Delete(path: Path)

  /** How far a call has come. Every stage ends at an await. */
  datatype Stage =
    | Waiting
    | Entered
    | Sized(prior: nat)
    | Measured(prior: nat, used: nat)
    | Writing(sent: nat, usedAfter: int)
    | Removed
    | Done(reply: Option<int>)

  /** `previous` is the call whose promise this one waits for. */
  datatype Task = Task(root: Root, operation: Operation, previous: Option<TaskId>, stage: Stage)

  datatype System = System(tasks: seq<Task>, locks: map<Root, TaskId>, trees: map<Root, Tree>)

  datatype Action =
    | Arrive(root: Root, operation: Operation)
    | Enter(id: TaskId)
    | MakeParents(id: TaskId, k: nat)
    | SizeUp(id: TaskId)
    | Measure(id: TaskId)
    | Truncate(id: TaskId)
    | WriteSome(id: TaskId, n: nat)
    | Remove(id: TaskId)
    | Finish(id: TaskId)
    | Fail(id: TaskId)

  predicate Running(t: Task) {
    !t.stage.Waiting? && !t.stage.Done?
  }

  /** A promise in the chain is settled once its call and all before it are. */
  predicate Settled(s: System, id: TaskId) {
    && id < |s.tasks|
    && s.tasks[id].stage.Done?
    && match s.tasks[id].previous
       case None => true
       case Some(p) => p < id && Settled(s, p)
  }

  /** The limit on one transfer is tested before the call takes its turn. */
  predicate Admitted(operation: Operation) {
    operation.Write? ==> |operation.contents| <= MAX_FILE_TRANSFER_BYTES
  }

  ghost predicate Enabled(s: System, quota: Root -> nat, a: Action) {
    if a.Arrive? then Admitted(a.operation) && a.root in s.trees
    else
      && a.id < |s.tasks| && s.tasks[a.id].root in s.trees
      && var task := s.tasks[a.id];
         var tree := s.trees[task.root];
         var path := task.operation.path;
         match a
         case Enter(_) => task.stage.Waiting? && (task.previous.Some? ==> Settled(s, task.previous.value))
         case MakeParents(_, k) => task.stage.Entered? && task.operation.Write? && k < |path| && !Blocked(tree, path[..k])
         case SizeUp(_) => task.stage.Entered? && task.operation.Write? && Replaceable(tree, path)
         case Measure(_) => task.stage.Sized?
         case Truncate(_) =>
           && task.stage.Measured? && task.operation.Write?
           && task.stage.used - task.stage.prior + |task.operation.contents| <= quota(task.root)
         case WriteSome(_, n) =>
           task.stage.Writing? && task.operation.Write? && task.stage.sent + n <= |task.operation.contents|
         case Remove(_) => task.stage.Entered? && task.operation.Delete? && path in tree && tree[path].File?
         case Finish(_) =>
           || task.stage.Removed?
           || (task.stage.Writing? && task.operation.Write? && task.stage.sent == |task.operation.contents|)
         case Fail(_) => Running(task)
  }

  /** `path` can be written: its parent is a directory, and it is absent or a
      regular file. */
  ghost predicate Replaceable(tree: Tree, path: Path) {
    && path != [] && Parent(path) in tree && tree[Parent(path)].Directory?
    && (path in tree ==> tree[path].File?)
  }

  function WithStage(s: System, id: TaskId, stage: Stage): System
    requires id < |s.tasks|
  {
    s.(tasks := s.tasks[id := s.tasks[id].(stage := stage)])
  }

  function WithTree(s: System, root: Root, tree: Tree): System {
    s.(trees := s.trees[root := tree])
  }

  /** The end of a call: its promise resolves, and the map entry goes if no
      later call has replaced it. */
  function Release(s: System, id: TaskId, reply: Option<int>): System
    requires id < |s.tasks|
  {
    var root := s.tasks[id].root;
    var t := WithStage(s, id, Done(reply));
    if root in s.locks && s.locks[root] == id then t.(locks := s.locks - {root}) else t
  }

  ghost function Perform(s: System, quota: Root -> nat, a: Action): System
    requires Enabled(s, quota, a)
  {
    if a.Arrive? then
      var previous := if a.root in s.locks then Some(s.locks[a.root]) else None;
      s.(tasks := s.tasks + [Task(a.root, a.operation, previous, Waiting)], locks := s.locks[a.root := |s.tasks|])
    else
      var task := s.tasks[a.id];
      var tree := s.trees[task.root];
      var path := task.operation.path;
      match a
      case Enter(id) => WithStage(s, id, Entered)
      case MakeParents(id, k) => WithTree(s, task.root, WithDirectories(tree, path[..k]))
      case SizeUp(id) => WithStage(s, id, Sized(if path in tree then |tree[path].data| else 0))
      case Measure(id) => WithStage(s, id, Measured(task.stage.prior, Sum(Files(tree))))
      case Truncate(id) =>
        WithTree(WithStage(s, id, Writing(0, task.stage.used - task.stage.prior + |task.operation.contents|)),
                 task.root, tree[path := File([])])
      case WriteSome(id, n) =>
        WithTree(WithStage(s, id, task.stage.(sent := task.stage.sent + n)),
                 task.root, tree[path := File(task.operation.contents[..task.stage.sent + n])])
      case Remove(id) => WithTree(WithStage(s, id, Removed), task.root, tree - {path})
      case Finish(id) =>
        Release(s, id, Some(if task.stage.Writing? then task.stage.usedAfter else Sum(Files(tree))))
      case Fail(id) => Release(s, id, None)
  }

  ghost function Next(s: System, quota: Root -> nat, a: Action): System {
    if Enabled(s, quota, a) then Perform(s, quota, a) else s
  }

  ghost function Execute(s: System, quota: Root -> nat, actions: seq<Action>): System
    decreases |actions|
  {
    if actions == [] then s
    else Execute(Next(s, quota, actions[0]), quota, actions[1..])
  }

  /* ---- Turns ---- */

  /** A call has its turn only after every earlier call on its root is over. */
  ghost predicate InTurn(s: System) {
    forall i, j :: 0 <= i < j < |s.tasks| && s.tasks[i].root == s.tasks[j].root && !s.tasks[j].stage.Waiting? ==>
      s.tasks[i].stage.Done?
  }

  /** A call waits for the last call made on its root before it, unless every
      earlier one is over. */
  ghost predicate Chained(s: System) {
    forall j :: 0 <= j < |s.tasks| ==> ChainedAt(s, j)
  }

  ghost predicate ChainedAt(s: System, j: TaskId)
    requires j < |s.tasks|
  {
    match s.tasks[j].previous
    case None => forall i :: 0 <= i < j && s.tasks[i].root == s.tasks[j].root ==> s.tasks[i].stage.Done?
    case Some(p) =>
      && p < j && s.tasks[p].root == s.tasks[j].root
      && forall i :: p < i < j ==> s.tasks[i].root != s.tasks[j].root
  }

  /** A root has a map entry exactly while a call on it is not over; the entry
      is the last of them. */
  ghost predicate LocksAreLive(s: System) {
    && (forall root :: root in s.locks ==> LastOn(s, root, s.locks[root]) && !s.tasks[s.locks[root]].stage.Done?)
    && (forall i :: 0 <= i < |s.tasks| && !s.tasks[i].stage.Done? ==> s.tasks[i].root in s.locks)
  }

  ghost predicate LastOn(s: System, root: Root, id: TaskId) {
    && id < |s.tasks| && s.tasks[id].root == root
    && forall i :: id < i < |s.tasks| ==> s.tasks[i].root != root
  }

  ghost predicate Turns(s: System) {
    InTurn(s) && Chained(s) && LocksAreLive(s)
  }

  /** Whatever a running call does, only its own stage changes. */
  ghost predicate OneStage(s: System, t: System, id: TaskId) {
    && id < |s.tasks| == |t.tasks|
    && t.tasks[id].root == s.tasks[id].root
    && t.tasks[id].operation == s.tasks[id].operation
    && t.tasks[id].previous == s.tasks[id].previous
    && forall i :: 0 <= i < |s.tasks| && i != id ==> t.tasks[i] == s.tasks[i]
  }

  lemma StepIsOneStage(s: System, quota: Root -> nat, a: Action)
    requires Enabled(s, quota, a) && !a.Arrive?
    ensures var t := Perform(s, quota, a);
      && OneStage(s, t, a.id) && !t.tasks[a.id].stage.Waiting?
      && (t.tasks[a.id].stage.Done? <==> a.Finish? || a.Fail?)
      && !s.tasks[a.id].stage.Done?
      && (s.tasks[a.id].stage.Waiting? <==> a.Enter?)
      && (!a.Finish? && !a.Fail? ==> t.locks == s.locks)
      && (a.Finish? || a.Fail? ==>
            t.locks == if s.tasks[a.id].root in s.locks && s.locks[s.tasks[a.id].root] == a.id
                       then s.locks - {s.tasks[a.id].root} else s.locks)
  {
  }

  /** The promise a call waits for settles only when every earlier call on its
      root is over. */
  lemma EnteringMeansEarlierCallsAreOver(s: System, id: TaskId, i: TaskId)
    requires Turns(s) && id < |s.tasks| && (s.tasks[id].previous.Some? ==> Settled(s, s.tasks[id].previous.value))
    requires i < id && s.tasks[i].root == s.tasks[id].root
    ensures s.tasks[i].stage.Done?
  {
    assert ChainedAt(s, id);
    if s.tasks[id].previous.Some? {
      var p := s.tasks[id].previous.value;
      assert i <= p;
    }
  }

  lemma InTurnStep(s: System, t: System, id: TaskId)
    requires Turns(s) && OneStage(s, t, id) && !s.tasks[id].stage.Done?
    requires s.tasks[id].stage.Waiting? ==>
               (s.tasks[id].previous.Some? ==> Settled(s, s.tasks[id].previous.value))
    ensures InTurn(t)
  {
    forall i, j | 0 <= i < j < |t.tasks| && t.tasks[i].root == t.tasks[j].root && !t.tasks[j].stage.Waiting?
      ensures t.tasks[i].stage.Done?
    {
      if j == id && s.tasks[id].stage.Waiting? {
        EnteringMeansEarlierCallsAreOver(s, id, i);
      }
    }
  }

  lemma ChainedStep(s: System, t: System, id: TaskId)
    requires Chained(s) && OneStage(s, t, id) && !s.tasks[id].stage.Done?
    ensures Chained(t)
  {
    forall j | 0 <= j < |t.tasks| ensures ChainedAt(t, j) {
      assert ChainedAt(s, j);
    }
  }

  lemma LocksStep(s: System, t: System, id: TaskId)
    requires Turns(s) && OneStage(s, t, id) && !s.tasks[id].stage.Done?
    requires s.tasks[id].stage.Waiting? ==> !t.tasks[id].stage.Done?
    requires t.locks == if t.tasks[id].stage.Done? && s.tasks[id].root in s.locks && s.locks[s.tasks[id].root] == id
                        then s.locks - {s.tasks[id].root} else s.locks
    ensures LocksAreLive(t)
  {
    var root := s.tasks[id].root;
    forall i | 0 <= i < |t.tasks| && !t.tasks[i].stage.Done? ensures t.tasks[i].root in t.locks {
      assert t.tasks[i].root == s.tasks[i].root && s.tasks[i].root in s.locks;
    }
    forall r | r in t.locks ensures LastOn(t, r, t.locks[r]) && !t.tasks[t.locks[r]].stage.Done? {
      assert LastOn(s, r, s.locks[r]);
    }
  }

  lemma ArrivalKeepsTurns(s: System, quota: Root -> nat, a: Action)
    requires Turns(s) && Enabled(s, quota, a) && a.Arrive?
    ensures Turns(Perform(s, quota, a))
  {
    var t := Perform(s, quota, a);
    var n := |s.tasks|;
    forall j | 0 <= j < |t.tasks| ensures ChainedAt(t, j) {
      if j < n {
        assert ChainedAt(s, j) && t.tasks[j] == s.tasks[j];
      } else if a.root in s.locks {
        assert LastOn(s, a.root, s.locks[a.root]);
      }
    }
    forall r | r in t.locks ensures LastOn(t, r, t.locks[r]) && !t.tasks[t.locks[r]].stage.Done? {
      if r != a.root {
        assert LastOn(s, r, s.locks[r]);
      }
    }
  }

  lemma StepKeepsTurns(s: System, quota: Root -> nat, a: Action)
    requires Turns(s)
    ensures Turns(Next(s, quota, a))
  {
    if Enabled(s, quota, a) {
      if a.Arrive? {
        ArrivalKeepsTurns(s, quota, a);
      } else {
        var t := Perform(s, quota, a);
        StepIsOneStage(s, quota, a);
        InTurnStep(s, t, a.id);
        ChainedStep(s, t, a.id);
        LocksStep(s, t, a.id);
      }
    }
  }

  /* ---- Storage ---- */

  /** What a running call has found out about its root is still true. */
  ghost predicate Current(task: Task, tree: Tree, quota: nat) {
    var path := task.operation.path;
    match task.stage
    case Sized(prior) => Replaceable(tree, path) && prior == SizeAt(tree, path)
    case Measured(prior, used) => Replaceable(tree, path) && prior == SizeAt(tree, path) && used == Sum(Files(tree))
    case Writing(sent, usedAfter) =>
      && task.operation.Write? && path != [] && sent <= |task.operation.contents|
      && path in tree && tree[path] == File(task.operation.contents[..sent])
      && usedAfter == Sum(Files(tree)) - sent + |task.operation.contents| <= quota
    case Entered => true
    case Waiting => true
    case Removed => task.operation.Delete? && path !in tree
    case Done(_) => true
  }

  ghost function SizeAt(tree: Tree, path: Path): nat {
    if path in tree && tree[path].File? then |tree[path].data| else 0
  }

  /** Every tree is in order and within its quota. */
  ghost predicate Stored(s: System, quota: Root -> nat) {
    forall root :: root in s.trees ==> WellFormed(s.trees[root]) && Sum(Files(s.trees[root])) <= quota(root)
  }

  ghost predicate Knows(s: System, quota: Root -> nat) {
    forall i :: 0 <= i < |s.tasks| ==>
      s.tasks[i].root in s.trees && Current(s.tasks[i], s.trees[s.tasks[i].root], quota(s.tasks[i].root))
  }

  /** The tree after a call's step, and what the call then knows. */
  ghost predicate StepOnTree(s: System, t: System, quota: Root -> nat, id: TaskId) {
    && OneStage(s, t, id) && s.tasks[id].root in s.trees
    && var root := s.tasks[id].root;
       && t.trees.Keys == s.trees.Keys
       && (forall other :: other in s.trees && other != root ==> t.trees[other] == s.trees[other])
       && WellFormed(t.trees[root]) && Sum(Files(t.trees[root])) <= quota(root)
       && Current(t.tasks[id], t.trees[root], quota(root))
  }

  lemma StepOnTreeKeepsStorage(s: System, t: System, quota: Root -> nat, id: TaskId)
    requires Stored(s, quota) && Knows(s, quota) && StepOnTree(s, t, quota, id)
    requires s.trees != t.trees ==>
               forall i :: 0 <= i < |s.tasks| && i != id && s.tasks[i].root == s.tasks[id].root ==> !Running(s.tasks[i])
    ensures Stored(t, quota) && Knows(t, quota)
  {
    var root := s.tasks[id].root;
    forall i | 0 <= i < |t.tasks|
      ensures t.tasks[i].root in t.trees && Current(t.tasks[i], t.trees[t.tasks[i].root], quota(t.tasks[i].root))
    {
      if i != id {
        assert t.tasks[i] == s.tasks[i];
        if t.tasks[i].root == root && s.trees != t.trees {
          assert !Running(t.tasks[i]);
        } else {
          assert t.trees[t.tasks[i].root] == s.trees[t.tasks[i].root];
        }
      }
    }
  }

  lemma RunningAlone(s: System, id: TaskId, i: TaskId)
    requires Turns(s) && id < |s.tasks| && i < |s.tasks| && i != id
    requires s.tasks[i].root == s.tasks[id].root && Running(s.tasks[id])
    ensures !Running(s.tasks[i])
  {
  }

  lemma OpeningEmpties(tree: Tree, path: Path)
    requires WellFormed(tree) && Replaceable(tree, path)
    ensures var t := tree[path := File([])]; WellFormed(t) && Sum(Files(t)) == Sum(Files(tree)) - SizeAt(tree, path)
  {
    var t := tree[path := File([])];
    assert Files(t) == Files(tree)[path := []];
    SumOfUpdate(Files(tree), path, []);
  }

  lemma ParentsActOnTree(s: System, quota: Root -> nat, a: Action)
    requires Stored(s, quota) && Knows(s, quota) && Enabled(s, quota, a) && a.MakeParents?
    ensures StepOnTree(s, Perform(s, quota, a), quota, a.id)
  {
    var task := s.tasks[a.id];
    WithDirectoriesIsSafe(s.trees[task.root], task.operation.path[..a.k]);
  }

  lemma TruncateActsOnTree(s: System, quota: Root -> nat, a: Action)
    requires Stored(s, quota) && Knows(s, quota) && Enabled(s, quota, a) && a.Truncate?
    ensures StepOnTree(s, Perform(s, quota, a), quota, a.id)
  {
    var task := s.tasks[a.id];
    assert Current(task, s.trees[task.root], quota(task.root));
    OpeningEmpties(s.trees[task.root], task.operation.path);
  }

  lemma WriteActsOnTree(s: System, quota: Root -> nat, a: Action)
    requires Stored(s, quota) && Knows(s, quota) && Enabled(s, quota, a) && a.WriteSome?
    ensures StepOnTree(s, Perform(s, quota, a), quota, a.id)
  {
    var task := s.tasks[a.id];
    assert Current(task, s.trees[task.root], quota(task.root));
    WritingStaysCurrent(task, s.trees[task.root], quota(task.root), a.n);
  }

  lemma WritingStaysCurrent(task: Task, tree: Tree, quota: nat, n: nat)
    requires WellFormed(tree) && Current(task, tree, quota)
    requires task.stage.Writing? && task.operation.Write? && task.stage.sent + n <= |task.operation.contents|
    ensures var sent := task.stage.sent + n;
      var t := tree[task.operation.path := File(task.operation.contents[..sent])];
      WellFormed(t) && Sum(Files(t)) <= quota && Current(task.(stage := task.stage.(sent := sent)), t, quota)
  {
    var data := task.operation.contents[..task.stage.sent + n];
    assert |data| == task.stage.sent + n && |task.operation.contents[..task.stage.sent]| == task.stage.sent;
    UsageAfterReplacing(tree, task.operation.path, data);
  }

  lemma RemoveActsOnTree(s: System, quota: Root -> nat, a: Action)
    requires Stored(s, quota) && Knows(s, quota) && Enabled(s, quota, a) && a.Remove?
    ensures StepOnTree(s, Perform(s, quota, a), quota, a.id)
  {
    var task := s.tasks[a.id];
    RemovingAFile(s.trees[task.root], task.operation.path);
  }

  lemma LookingLeavesTheTree(s: System, quota: Root -> nat, a: Action)
    requires Stored(s, quota) && Knows(s, quota) && Enabled(s, quota, a)
    requires a.Enter? || a.SizeUp? || a.Measure? || a.Finish? || a.Fail?
    ensures StepOnTree(s, Perform(s, quota, a), quota, a.id) && Perform(s, quota, a).trees == s.trees
  {
    var task := s.tasks[a.id];
    assert Current(task, s.trees[task.root], quota(task.root));
  }

  lemma StepKeepsStorage(s: System, quota: Root -> nat, a: Action)
    requires Turns(s) && Stored(s, quota) && Knows(s, quota)
    ensures Stored(Next(s, quota, a), quota) && Knows(Next(s, quota, a), quota)
  {
    if Enabled(s, quota, a) && !a.Arrive? {
      var t := Perform(s, quota, a);
      match a {
        case MakeParents(_, _) => ParentsActOnTree(s, quota, a);
        case Truncate(_) => TruncateActsOnTree(s, quota, a);
        case WriteSome(_, _) => WriteActsOnTree(s, quota, a);
        case Remove(_) => RemoveActsOnTree(s, quota, a);
        case _ => LookingLeavesTheTree(s, quota, a);
      }
      forall i | 0 <= i < |s.tasks| && i != a.id && s.tasks[i].root == s.tasks[a.id].root && s.trees != t.trees
        ensures !Running(s.tasks[i])
      {
        RunningAlone(s, a.id, i);
      }
      StepOnTreeKeepsStorage(s, t, quota, a.id);
    }
  }

  /* ---- Whole runs ---- */

  ghost predicate Initial(s: System, quota: Root -> nat) {
    s.tasks == [] && s.locks == map[] && Stored(s, quota)
  }

  ghost predicate Invariant(s: System, quota: Root -> nat) {
    Turns(s) && Stored(s, quota) && Knows(s, quota)
  }

  lemma {:induction false} RunsKeepInvariant(s: System, quota: Root -> nat, actions: seq<Action>)
    requires Invariant(s, quota)
    ensures Invariant(Execute(s, quota, actions), quota)
    decreases |actions|
  {
    if actions == [] {
    } else {
      StepKeepsTurns(s, quota, actions[0]);
      StepKeepsStorage(s, quota, actions[0]);
      RunsKeepInvariant(Next(s, quota, actions[0]), quota, actions[1..]);
    }
  }

  /** However calls on any number of roots interleave and fail: no root ever
      holds more than its quota, even in the middle of a write. */
  lemma StoredBytesNeverExceedTheQuota(s: System, quota: Root -> nat, actions: seq<Action>, root: Root)
    requires Initial(s, quota) && root in Execute(s, quota, actions).trees
    ensures Sum(Files(Execute(s, quota, actions).trees[root])) <= quota(root)
  {
    RunsKeepInvariant(s, quota, actions);
  }

  /** One call at a time per root, in the order the calls were made. */
  lemma CallsTakeTurnsInOrder(s: System, quota: Root -> nat, actions: seq<Action>, i: TaskId, j: TaskId)
    requires Initial(s, quota)
    requires var t := Execute(s, quota, actions); i < j < |t.tasks| && t.tasks[i].root == t.tasks[j].root
    ensures var t := Execute(s, quota, actions); !t.tasks[j].stage.Waiting? ==> t.tasks[i].stage.Done?
  {
    RunsKeepInvariant(s, quota, actions);
  }

  /** The map of locks has an entry for a root exactly while a call on it is
      running or waiting. */
  lemma LockEntriesAreExact(s: System, quota: Root -> nat, actions: seq<Action>, root: Root)
    requires Initial(s, quota)
    ensures var t := Execute(s, quota, actions);
      root in t.locks <==> exists i :: 0 <= i < |t.tasks| && t.tasks[i].root == root && !t.tasks[i].stage.Done?
  {
    RunsKeepInvariant(s, quota, actions);
    var t := Execute(s, quota, actions);
    if root in t.locks {
      assert t.tasks[t.locks[root]].root == root;
    }
  }

  /** A successful call has done what it was asked, and its reply is the true
      sum at the moment it ends. */
  ghost predicate Fulfilled(task: Task, tree: Tree) {
    && task.stage == Done(Some(Sum(Files(tree))))
    && match task.operation
       case Write(path, contents) => path in tree && tree[path] == File(contents)
       case Delete(path) => path !in tree
  }

  lemma RepliesAreTrue(s: System, quota: Root -> nat, actions: seq<Action>, id: TaskId)
    requires Initial(s, quota)
    requires Enabled(Execute(s, quota, actions), quota, Finish(id))
    ensures var t := Execute(s, quota, actions);
      var u := Next(t, quota, Finish(id));
      u.trees == t.trees && Fulfilled(u.tasks[id], u.trees[u.tasks[id].root])
  {
    RunsKeepInvariant(s, quota, actions);
    ReplyIsTrue(Execute(s, quota, actions), quota, id);
  }

  lemma ReplyIsTrue(s: System, quota: Root -> nat, id: TaskId)
    requires Invariant(s, quota) && Enabled(s, quota, Finish(id))
    ensures var u := Next(s, quota, Finish(id));
      u.trees == s.trees && Fulfilled(u.tasks[id], u.trees[u.tasks[id].root])
  {
    var root := s.tasks[id].root;
    assert Current(s.tasks[id], s.trees[root], quota(root));
    FinishingFulfils(s.tasks[id], s.trees[root], quota(root));
  }

  lemma FinishingFulfils(task: Task, tree: Tree, quota: nat)
    requires Current(task, tree, quota)
    requires task.stage.Removed? || (task.stage.Writing? && task.operation.Write? && task.stage.sent == |task.operation.contents|)
    ensures var reply := if task.stage.Writing? then task.stage.usedAfter else Sum(Files(tree));
      Fulfilled(task.(stage := Done(Some(reply))), tree)
  {
    if task.stage.Writing? {
      assert task.operation.contents[..task.stage.sent] == task.operation.contents;
    }
  }

  /** Nobody is stuck: once the earlier calls on its root are over, a waiting
      call may enter. */
  lemma {:induction false} NobodyIsStuck(s: System, quota: Root -> nat, id: TaskId)
    requires Invariant(s, quota) && id < |s.tasks| && s.tasks[id].stage.Waiting?
    requires forall i :: 0 <= i < id && s.tasks[i].root == s.tasks[id].root ==> s.tasks[i].stage.Done?
    ensures Enabled(s, quota, Enter(id))
  {
    assert ChainedAt(s, id);
    if s.tasks[id].previous.Some? {
      EarlierPromisesSettle(s, s.tasks[id].previous.value);
    }
  }

  lemma {:induction false} EarlierPromisesSettle(s: System, id: TaskId)
    requires Turns(s) && id < |s.tasks| && s.tasks[id].stage.Done?
    ensures Settled(s, id)
    decreases id
  {
    assert ChainedAt(s, id);
    if s.tasks[id].previous.Some? {
      EarlierPromisesSettle(s, s.tasks[id].previous.value);
    }
  }
}
