/** Which actions touch which part of the state; all others leave that part alone. */
module LifecycleFrames {
  import opened Lifecycle

  predicate TouchesRows(a: Action) {
    a.Create? || a.StopCurrent? || a.StopReplied? || a.Cleanup? || a.ReconcileStarted?
    || a.ReconcileStatusReplied? || a.ReconcileClaimed? || a.ReconcileCreateReplied?
  }

  lemma RowsFrame(cfg: Config, s: System, a: Action)
    requires !TouchesRows(a)
    ensures Next(cfg, s, a).rows == s.rows
  {
  }

  lemma ClockFrame(cfg: Config, s: System, a: Action)
    ensures s.now <= Next(cfg, s, a).now
    ensures !a.Tick? ==> Next(cfg, s, a).now == s.now
  {
  }

  lemma CreationsFrame(cfg: Config, s: System, a: Action)
    requires !a.Create?
    ensures Next(cfg, s, a).creations == s.creations
  {
  }

  lemma ClaimsFrame(cfg: Config, s: System, a: Action)
    requires !a.ReconcileClaimed?
    ensures Next(cfg, s, a).claims == s.claims
  {
  }

  predicate TouchesVolumes(a: Action) { a.Create? || a.DestroyReplied? }

  lemma VolumesFrame(cfg: Config, s: System, a: Action)
    requires !TouchesVolumes(a)
    ensures Next(cfg, s, a).volumes == s.volumes
  {
  }

  predicate TouchesOperations(a: Action) {
    a.StopCurrent? || a.StopReplied? || a.StopCleared? || a.ReconcileStopNext? || a.Restart?
  }

  lemma OperationsFrame(cfg: Config, s: System, a: Action)
    requires !TouchesOperations(a)
    ensures var m := Next(cfg, s, a).memory;
      m.operations == s.memory.operations && m.stopOperations == s.memory.stopOperations
  {
  }

  predicate TouchesDestroys(a: Action) { a.DestroyRequested? || a.DestroyReplied? || a.Restart? }

  predicate SameDestroys(m: Memory, n: Memory) {
    m.destroyCalls == n.destroyCalls && m.destroyingVolumes == n.destroyingVolumes
  }

  lemma ReconcilerKeepsDestroys(cfg: Config, s: System, a: Action)
    requires Reconciles(a)
    ensures SameDestroys(s.memory, Next(cfg, s, a).memory)
  {
  }

  lemma DestroysFrame(cfg: Config, s: System, a: Action)
    requires !TouchesDestroys(a)
    ensures SameDestroys(s.memory, Next(cfg, s, a).memory)
  {
    if Reconciles(a) { ReconcilerKeepsDestroys(cfg, s, a); }
  }

  predicate Reconciles(a: Action) {
    a.ReconcileStarted? || a.ReconcileStopNext? || a.ReconcileStopDone? || a.ReconcileListed?
    || a.ReconcileStatusNext? || a.ReconcileStatusReplied? || a.ReconcileCounted? || a.ReconcileClaimed?
    || a.ReconcileCreateReplied? || a.ReconcileFinished?
  }

  lemma ReconcilerFrame(cfg: Config, s: System, a: Action)
    requires !Reconciles(a) && !a.Restart?
    ensures Next(cfg, s, a).memory.reconciliation == s.memory.reconciliation
  {
  }

  predicate Issues(a: Action) {
    a.StopCurrent? || a.DestroyRequested? || a.ReconcileStopNext? || a.ReconcileStatusNext? || a.ReconcileClaimed?
  }

  predicate OfAgent(a: Action) { a.AgentApplies? || a.VmExits? }

  lemma AgentFrame(cfg: Config, s: System, a: Action)
    ensures var t := Next(cfg, s, a);
      && (!Issues(a) ==> t.nextTicket == s.nextTicket)
      && (!Issues(a) && !OfAgent(a) ==> t.agent == s.agent)
  {
  }

  /** `t` has issued the request in `s`, and its agent is otherwise the same. */
  predicate Issued(s: System, t: System, request: Request) {
    t.nextTicket == s.nextTicket + 1 && t.agent == s.agent.(queue := s.agent.queue + [Call(s.nextTicket, request)])
  }

  /** The service issues at most one request per action, at the end of the queue. */
  predicate IssuesAtMostOne(s: System, t: System) {
    || (t.agent == s.agent && t.nextTicket == s.nextTicket)
    || (|t.agent.queue| == |s.agent.queue| + 1 && Issued(s, t, t.agent.queue[|s.agent.queue|].request))
  }

  lemma StopIssues(s: System, id: Id)
    ensures var t := StopWorkspace(s, id);
      if id in s.memory.stopOperations then t == s else Issued(s, t, StopVm(id))
  {
  }

  lemma OwnerIssues(cfg: Config, s: System, a: Action)
    requires a.StopCurrent? || a.DestroyRequested?
    ensures IssuesAtMostOne(s, Next(cfg, s, a))
  {
    var t := Next(cfg, s, a);
    if Enabled(cfg, s, a) {
      if a.StopCurrent? {
        StopIssues(MarkStopping(s, a.id), a.id);
      } else {
        assert Issued(s, t, DestroyDisk(a.volume));
      }
    }
  }

  lemma ReconcilerIssues(cfg: Config, s: System, a: Action)
    requires a.ReconcileStopNext? || a.ReconcileStatusNext? || a.ReconcileClaimed?
    ensures IssuesAtMostOne(s, Next(cfg, s, a))
  {
    var t := Next(cfg, s, a);
    if Enabled(cfg, s, a) {
      var p := s.memory.reconciliation;
      if a.ReconcileStopNext? {
        StopIssues(s, p.stopTodo[0]);
      } else if a.ReconcileStatusNext? {
        assert Issued(s, t, ReadStatus(p.checkTodo[0].id));
      } else {
        assert Issued(s, t, CreateVm(a.id));
      }
    }
  }

  lemma ServiceIssues(cfg: Config, s: System, a: Action)
    requires !OfAgent(a)
    ensures IssuesAtMostOne(s, Next(cfg, s, a))
  {
    if a.StopCurrent? || a.DestroyRequested? {
      OwnerIssues(cfg, s, a);
    } else if Issues(a) {
      ReconcilerIssues(cfg, s, a);
    } else {
      AgentFrame(cfg, s, a);
    }
  }

  lemma TicketsGrow(cfg: Config, s: System, a: Action)
    ensures s.nextTicket <= Next(cfg, s, a).nextTicket
  {
    if OfAgent(a) { AgentFrame(cfg, s, a); } else { ServiceIssues(cfg, s, a); }
  }
}
