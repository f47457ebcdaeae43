/** What one call of the development runtime's file store does when nothing fails: it is
    refused exactly past a limit, and otherwise leaves exactly the change it was asked for. */
module DataFileCalls {
  import opened Basics
  import opened FileTree
  import opened DataFiles

  /** A call is admitted exactly for a known root and at most 8 MiB. */
  lemma AdmittedExactly(s: System, quota: Root -> nat, root: Root, operation: Operation)
    ensures |Next(s, quota, Arrive(root, operation)).tasks| == |s.tasks| + 1 <==>
      root in s.trees && (operation.Write? ==> |operation.contents| <= 8_388_608)
  {
  }

  /** Making parents makes just the missing directories on the way. */
  lemma ParentsAreMade(s: System, quota: Root -> nat, id: TaskId, k: nat)
    requires Invariant(s, quota) && Enabled(s, quota, MakeParents(id, k))
    ensures var task := s.tasks[id]; var dir := task.operation.path[..k];
      var t := Next(s, quota, MakeParents(id, k)).trees[task.root];
      && dir in t && t[dir].Directory?
      && (forall p :: p in s.trees[task.root] ==> p in t && t[p] == s.trees[task.root][p])
      && (forall p :: p in t && p !in s.trees[task.root] ==> t[p].Directory? && p <= dir)
  {
    WithDirectoriesIsSafe(s.trees[s.tasks[id].root], s.tasks[id].operation.path[..k]);
  }

  /** What the store holds once the file has its new contents. */
  lemma SumAfterWrite(tree: Tree, path: Path, contents: bytes)
    requires WellFormed(tree) && Replaceable(tree, path)
    ensures Sum(Files(tree[path := File(contents)])) == Sum(Files(tree)) - SizeAt(tree, path) + |contents|
  {
    assert Files(tree[path := File(contents)]) == Files(tree)[path := contents];
    SumOfUpdate(Files(tree), path, contents);
  }

  /** A write is let through exactly if the store, with the new contents in place of the
      old, is within its quota. */
  lemma LetThroughExactly(s: System, quota: Root -> nat, id: TaskId)
    requires Invariant(s, quota) && id < |s.tasks| && s.tasks[id].stage.Measured? && s.tasks[id].operation.Write?
    ensures var task := s.tasks[id]; var path := task.operation.path;
      && task.root in s.trees
      && (Enabled(s, quota, Truncate(id)) <==>
            Sum(Files(s.trees[task.root][path := File(task.operation.contents)])) <= quota(task.root))
  {
    var task := s.tasks[id];
    assert Current(task, s.trees[task.root], quota(task.root));
    SumAfterWrite(s.trees[task.root], task.operation.path, task.operation.contents);
  }

  /** A call that has its turn, over a path that can be written, measures what is there. */
  lemma AWriteMeasures(s: System, quota: Root -> nat, id: TaskId)
    requires Invariant(s, quota) && id < |s.tasks| && s.tasks[id].stage.Entered? && s.tasks[id].operation.Write?
    requires Replaceable(s.trees[s.tasks[id].root], s.tasks[id].operation.path)
    ensures var tree := s.trees[s.tasks[id].root];
      Next(Next(s, quota, SizeUp(id)), quota, Measure(id))
        == WithStage(s, id, Measured(SizeAt(tree, s.tasks[id].operation.path), Sum(Files(tree))))
  {
    var tree := s.trees[s.tasks[id].root];
    var s1 := Next(s, quota, SizeUp(id));
    assert s1 == WithStage(s, id, Sized(SizeAt(tree, s.tasks[id].operation.path)));
    var s2 := Next(s1, quota, Measure(id));
    assert s2.tasks == WithStage(s, id, Measured(SizeAt(tree, s.tasks[id].operation.path), Sum(Files(tree)))).tasks;
  }

  /** The call has come to the stage, and its root holds the tree. */
  function At(s: System, id: TaskId, stage: Stage, tree: Tree): System
    requires id < |s.tasks|
  {
    WithTree(WithStage(s, id, stage), s.tasks[id].root, tree)
  }

  lemma AtTwice(s: System, id: TaskId, a: Stage, t: Tree, b: Stage, u: Tree)
    requires id < |s.tasks|
    ensures WithTree(WithStage(At(s, id, a, t), id, b), s.tasks[id].root, u) == At(s, id, b, u)
  {
    assert WithStage(At(s, id, a, t), id, b).tasks == WithStage(s, id, b).tasks;
  }

  lemma FileTwice(tree: Tree, path: Path, a: bytes, b: bytes)
    ensures tree[path := File(a)][path := File(b)] == tree[path := File(b)]
  {
  }

  lemma TruncatesAndWrites(s: System, quota: Root -> nat, id: TaskId, used: int)
    requires Enabled(s, quota, Truncate(id))
    requires used == s.tasks[id].stage.used - s.tasks[id].stage.prior + |s.tasks[id].operation.contents|
    ensures var task := s.tasks[id]; var contents := task.operation.contents; var tree := s.trees[task.root];
      var found := At(s, id, Writing(0, used), tree[task.operation.path := File([])]);
      && Next(s, quota, Truncate(id)) == found
      && Next(found, quota, WriteSome(id, |contents|))
           == At(s, id, Writing(|contents|, used), tree[task.operation.path := File(contents)])
  {
    var task := s.tasks[id];
    var path, contents, tree := task.operation.path, task.operation.contents, s.trees[task.root];
    assert contents[..0 + |contents|] == contents;
    AtTwice(s, id, Writing(0, used), tree[path := File([])], Writing(|contents|, used), tree[path := File(contents)]);
    FileTwice(tree, path, [], contents);
  }

  lemma Finishes(s: System, quota: Root -> nat, id: TaskId, used: int, tree: Tree)
    requires id < |s.tasks| && s.tasks[id].operation.Write? && s.tasks[id].root in s.trees
    ensures var task := s.tasks[id];
      var t := Next(At(s, id, Writing(|task.operation.contents|, used), tree), quota, Finish(id));
      t.trees == s.trees[task.root := tree] && t.tasks == s.tasks[id := task.(stage := Done(Some(used)))]
  {
  }

  /** Let through, a write leaves exactly its contents at its path, and replies with the sum. */
  lemma AWriteIsDone(s: System, quota: Root -> nat, id: TaskId, truncated: System, written: System, finished: System)
    requires Invariant(s, quota) && Enabled(s, quota, Truncate(id))
    requires truncated == Next(s, quota, Truncate(id))
    requires written == Next(truncated, quota, WriteSome(id, |s.tasks[id].operation.contents|))
    requires finished == Next(written, quota, Finish(id))
    ensures var task := s.tasks[id];
      var after := s.trees[task.root][task.operation.path := File(task.operation.contents)];
      && finished.trees == s.trees[task.root := after]
      && finished.tasks == s.tasks[id := task.(stage := Done(Some(Sum(Files(after)))))]
  {
    var task := s.tasks[id];
    var tree := s.trees[task.root];
    var used := task.stage.used - task.stage.prior + |task.operation.contents|;
    ChargedIsTheSum(s, quota, id, used);
    TruncatesAndWrites(s, quota, id, used);
    Finishes(s, quota, id, used, tree[task.operation.path := File(task.operation.contents)]);
  }

  lemma ChargedIsTheSum(s: System, quota: Root -> nat, id: TaskId, used: int)
    requires Invariant(s, quota) && Enabled(s, quota, Truncate(id))
    requires used == s.tasks[id].stage.used - s.tasks[id].stage.prior + |s.tasks[id].operation.contents|
    ensures var task := s.tasks[id];
      used == Sum(Files(s.trees[task.root][task.operation.path := File(task.operation.contents)]))
  {
    var task := s.tasks[id];
    assert Current(task, s.trees[task.root], quota(task.root));
    SumAfterWrite(s.trees[task.root], task.operation.path, task.operation.contents);
  }

  /** A delete of a regular file removes just that file. */
  lemma ADeleteIsDone(s: System, quota: Root -> nat, id: TaskId)
    requires Invariant(s, quota) && id < |s.tasks| && s.tasks[id].stage.Entered? && s.tasks[id].operation.Delete?
    ensures var task := s.tasks[id]; var path := task.operation.path;
      && task.root in s.trees
      && (Enabled(s, quota, Remove(id)) <==> path in s.trees[task.root] && s.trees[task.root][path].File?)
      && (Enabled(s, quota, Remove(id)) ==>
            var after := s.trees[task.root] - {path};
            var t := Next(Next(s, quota, Remove(id)), quota, Finish(id));
            t.trees == s.trees[task.root := after] && t.tasks == s.tasks[id := task.(stage := Done(Some(Sum(Files(after)))))])
  {
  }
}
