/** What every action of the lifecycle keeps, one theme at a time. */
module LifecycleInvariants {
  import opened Basics
  import opened Lifecycle
  import opened LifecycleFrames

  // ---- Rows and their history ----------------------------------------------

  ghost predicate RowOk(cfg: Config, s: System, id: Id)
    requires id in s.rows
  {
    var r := s.rows[id];
    && id in s.creations && s.creations[id] == Creation(r.wallet, r.ip, r.createdAt)
    && r.createdAt <= s.now && r.leaseExpiresAt == r.createdAt + cfg.leaseMs
    && (r.state.Active() <==> r.stoppedAt.None?)
    && (r.stoppedAt.Some? ==> r.createdAt <= r.stoppedAt.value <= s.now)
  }

  /** A creation whose row is gone is older than the retention period. */
  ghost predicate CreationOk(s: System, id: Id)
    requires id in s.creations
  {
    s.creations[id].at <= s.now && (id in s.rows || s.creations[id].at < s.now - RETENTION)
  }

  ghost predicate RowsOk(cfg: Config, s: System) {
    (forall id :: id in s.rows ==> RowOk(cfg, s, id)) &&
    (forall id :: id in s.creations ==> CreationOk(s, id))
  }

  // ---- The state graph -----------------------------------------------------

  /** The edges the lifecycle may take; nothing leaves `Stopped` or `Failed`. */
  predicate Edge(from: RowState, to: RowState) {
    match from
    case Queued => to.Provisioning? || to.Stopping?
    case Provisioning => to.Running? || to.Stopping? || to.Failed?
    case Running => to.Stopping? || to.Failed?
    case Stopping => to.Stopped?
    case Stopped => false
    case Failed => false
  }

  /** What one action may do to a row: nothing, or one edge that stamps the end time
      exactly when it ends the row. Whose row it is never changes. */
  predicate RowMove(now: int, from: Row, to: Row) {
    || from == to
    || (&& Edge(from.state, to.state)
        && to == from.(state := to.state, stoppedAt := if to.state.Active() then from.stoppedAt else Some(now)))
  }

  predicate Ended(row: Row) { row.state.Stopped? || row.state.Failed? }

  /** Everything one action may do to the table of rows: rows start queued under ids
      never used before, move as `RowMove` says, and only ended rows past the
      retention period disappear. */
  ghost predicate RowsStep(cfg: Config, s: System, t: System) {
    && s.now <= t.now
    && (forall id :: id in s.rows && id in t.rows ==> RowMove(s.now, s.rows[id], t.rows[id]))
    && (forall id :: id in t.rows && id !in s.rows ==>
          && id !in s.creations && id in t.creations && s.now == t.now
          && t.rows[id] == Row(t.creations[id].wallet, t.creations[id].ip, Queued, s.now, s.now + cfg.leaseMs, None, t.rows[id].volume)
          && t.creations[id].at == s.now)
    && (forall id :: id in s.rows && id !in t.rows ==> Ended(s.rows[id]) && !Retained(s.rows[id], s.now))
    && (forall id :: id in s.creations ==> id in t.creations && t.creations[id] == s.creations[id])
    && (forall id :: id in t.creations && id !in s.creations ==> id in t.rows && id !in s.rows)
  }

  lemma RequestMovesRow(cfg: Config, s: System, a: Action, id: Id)
    requires (a.Create? || a.StopCurrent? || a.StopReplied? || a.Cleanup?) && id in s.rows && id in s.creations
    requires s.rows[id].state.Active() <==> s.rows[id].stoppedAt.None?
    ensures var t := Next(cfg, s, a);
      if id in t.rows then RowMove(s.now, s.rows[id], t.rows[id])
      else Ended(s.rows[id]) && !Retained(s.rows[id], s.now)
  {
  }

  lemma ReconcilerMovesRow(cfg: Config, s: System, a: Action, id: Id)
    requires Reconciles(a) && id in s.rows
    ensures var t := Next(cfg, s, a);
      id in t.rows && RowMove(s.now, s.rows[id], t.rows[id])
  {
    if !TouchesRows(a) { RowsFrame(cfg, s, a); }
  }

  lemma EveryRowMoves(cfg: Config, s: System, a: Action, id: Id)
    requires RowsOk(cfg, s) && id in s.rows
    ensures var t := Next(cfg, s, a);
      if id in t.rows then RowMove(s.now, s.rows[id], t.rows[id])
      else Ended(s.rows[id]) && !Retained(s.rows[id], s.now)
  {
    assert RowOk(cfg, s, id);
    if !TouchesRows(a) {
      RowsFrame(cfg, s, a);
    } else if Reconciles(a) {
      ReconcilerMovesRow(cfg, s, a, id);
    } else {
      RequestMovesRow(cfg, s, a, id);
    }
  }

  lemma OnlyCreateAddsRows(cfg: Config, s: System, a: Action)
    requires !a.Create?
    ensures var t := Next(cfg, s, a);
      s.now <= t.now && t.creations == s.creations && t.rows.Keys <= s.rows.Keys
  {
    ClockFrame(cfg, s, a);
    CreationsFrame(cfg, s, a);
    if !TouchesRows(a) { RowsFrame(cfg, s, a); }
  }

  lemma CreateAddsOneRow(cfg: Config, s: System, a: Action)
    requires RowsOk(cfg, s) && a.Create?
    ensures RowsStep(cfg, s, Next(cfg, s, a))
  {
    forall id | id in s.rows ensures id in s.creations { assert RowOk(cfg, s, id); }
  }

  lemma EveryActionIsARowsStep(cfg: Config, s: System, a: Action)
    requires RowsOk(cfg, s)
    ensures RowsStep(cfg, s, Next(cfg, s, a))
  {
    if a.Create? {
      CreateAddsOneRow(cfg, s, a);
    } else {
      OnlyCreateAddsRows(cfg, s, a);
      var t := Next(cfg, s, a);
      forall id | id in s.rows
        ensures if id in t.rows then RowMove(s.now, s.rows[id], t.rows[id])
                else Ended(s.rows[id]) && !Retained(s.rows[id], s.now)
      {
        EveryRowMoves(cfg, s, a, id);
      }
    }
  }

  lemma RowsKept(cfg: Config, s: System, t: System)
    requires RowsOk(cfg, s) && RowsStep(cfg, s, t)
    ensures RowsOk(cfg, t)
  {
    forall id | id in t.rows ensures RowOk(cfg, t, id) {
      if id in s.rows { assert RowOk(cfg, s, id); }
    }
    forall id | id in t.creations ensures CreationOk(t, id) {
      if id in s.creations {
        assert CreationOk(s, id);
        if id in s.rows { assert RowOk(cfg, s, id); }
      }
    }
  }

  // ---- The table of stop operations ----------------------------------------

  ghost predicate TableOk(s: System) {
    var m := s.memory;
    && (forall t :: t in m.operations ==>
          t < s.nextTicket && m.operations[t].id in m.stopOperations && m.stopOperations[m.operations[t].id] == t)
    && (forall id :: id in m.stopOperations ==>
          m.stopOperations[id] in m.operations && m.operations[m.stopOperations[id]].id == id)
  }

  lemma StopKeepsTable(s: System, id: Id)
    requires TableOk(s)
    ensures TableOk(StopWorkspace(s, id))
  {
  }

  lemma TableKept(cfg: Config, s: System, a: Action)
    requires TableOk(s)
    ensures TableOk(Next(cfg, s, a))
  {
    if !TouchesOperations(a) {
      OperationsFrame(cfg, s, a);
      TicketsGrow(cfg, s, a);
    } else if Enabled(cfg, s, a) {
      if a.StopCurrent? {
        StopKeepsTable(MarkStopping(s, a.id), a.id);
      } else if a.ReconcileStopNext? {
        StopKeepsTable(s, s.memory.reconciliation.stopTodo[0]);
      }
    }
  }

  /** The action asks for the stop of this row. */
  ghost predicate AsksToStop(cfg: Config, s: System, a: Action, id: Id) {
    Enabled(cfg, s, a) &&
    ((a.StopCurrent? && a.id == id) || (a.ReconcileStopNext? && s.memory.reconciliation.stopTodo[0] == id))
  }

  /** An operation is either old, with its row unchanged, or started by this action. */
  lemma OperationsAreOldOrNew(cfg: Config, s: System, a: Action, k: Ticket)
    requires k in Next(cfg, s, a).memory.operations
    ensures var t := Next(cfg, s, a); var id := t.memory.operations[k].id;
      || (k in s.memory.operations && s.memory.operations[k].id == id)
      || (k == s.nextTicket && Issued(s, t, StopVm(id)) && AsksToStop(cfg, s, a, id))
  {
    if !TouchesOperations(a) { OperationsFrame(cfg, s, a); }
  }

  // ---- Ids that can never be queued again ----------------------------------

  /** The id has been used and its row, if it still exists, is past the queue. */
  predicate PastQueue(s: System, id: Id) {
    id in s.creations && (id in s.rows ==> !s.rows[id].state.Queued?)
  }

  ghost predicate OperationsPastQueue(s: System) {
    forall t :: t in s.memory.operations ==> PastQueue(s, s.memory.operations[t].id)
  }

  ghost predicate ReconcilerPastQueue(s: System) {
    var p := s.memory.reconciliation;
    && (p.StopLoop? || p.StopWait? ==> forall id :: id in p.stopTodo ==> PastQueue(s, id))
    && (p.CheckLoop? || p.CheckWait? ==> forall x :: x in p.checkTodo ==> PastQueue(s, x.id))
    && (p.CheckWait? ==> PastQueue(s, p.checking.id))
  }

  ghost predicate RequestsPastQueue(s: System) {
    forall c :: c in s.agent.queue && (c.request.StopVm? || c.request.ReadStatus?) ==> PastQueue(s, c.request.id)
  }

  ghost predicate ClaimsPastQueue(s: System) {
    forall c :: c in s.claims ==> PastQueue(s, c.id)
  }

  ghost predicate IdsPastQueue(s: System) {
    OperationsPastQueue(s) && ReconcilerPastQueue(s) && RequestsPastQueue(s) && ClaimsPastQueue(s)
  }

  lemma PastQueueStays(cfg: Config, s: System, t: System)
    requires RowsOk(cfg, s) && RowsStep(cfg, s, t)
    ensures forall id :: PastQueue(s, id) ==> PastQueue(t, id)
  {
  }

  lemma StopsArePastQueue(cfg: Config, s: System, a: Action, id: Id)
    requires RowsOk(cfg, s) && RowsStep(cfg, s, Next(cfg, s, a)) && ReconcilerPastQueue(s) && AsksToStop(cfg, s, a, id)
    ensures PastQueue(Next(cfg, s, a), id)
  {
    var t := Next(cfg, s, a);
    if a.StopCurrent? {
      assert RowOk(cfg, s, id);
      assert t.rows[id].state.Stopping?;
    } else {
      assert id in s.memory.reconciliation.stopTodo;
      PastQueueStays(cfg, s, t);
    }
  }

  lemma OperationsPastQueueKept(cfg: Config, s: System, a: Action)
    requires RowsOk(cfg, s) && RowsStep(cfg, s, Next(cfg, s, a)) && IdsPastQueue(s)
    ensures OperationsPastQueue(Next(cfg, s, a))
  {
    var t := Next(cfg, s, a);
    PastQueueStays(cfg, s, t);
    forall k | k in t.memory.operations ensures PastQueue(t, t.memory.operations[k].id) {
      var id := t.memory.operations[k].id;
      OperationsAreOldOrNew(cfg, s, a, k);
      if k in s.memory.operations && s.memory.operations[k].id == id {
        assert PastQueue(s, id);
      } else {
        StopsArePastQueue(cfg, s, a, id);
      }
    }
  }

  lemma ListsArePastQueue(cfg: Config, s: System, a: Action)
    requires RowsOk(cfg, s) && RowsStep(cfg, s, Next(cfg, s, a)) && ReconcilerPastQueue(s)
    requires a.ReconcileStarted? || a.ReconcileListed?
    ensures ReconcilerPastQueue(Next(cfg, s, a))
  {
    var t := Next(cfg, s, a);
    PastQueueStays(cfg, s, t);
    if Enabled(cfg, s, a) {
      forall id | id in s.rows ensures id in t.creations { assert RowOk(cfg, s, id); }
      if a.ReconcileStarted? {
        forall id | id in a.stopping ensures PastQueue(t, id) { assert id in StoppingRows(t.rows); }
      } else {
        forall x | x in a.active ensures PastQueue(t, x.id) { assert x in CheckableRows(s.rows); }
      }
    }
  }

  /** Every other step of the reconciler keeps its lists or takes their first element. */
  lemma StepsArePastQueue(cfg: Config, s: System, a: Action)
    requires RowsOk(cfg, s) && RowsStep(cfg, s, Next(cfg, s, a)) && ReconcilerPastQueue(s)
    requires Reconciles(a) && !a.ReconcileStarted? && !a.ReconcileListed?
    ensures ReconcilerPastQueue(Next(cfg, s, a))
  {
    PastQueueStays(cfg, s, Next(cfg, s, a));
  }

  lemma ReconcilerPastQueueKept(cfg: Config, s: System, a: Action)
    requires RowsOk(cfg, s) && RowsStep(cfg, s, Next(cfg, s, a)) && IdsPastQueue(s)
    ensures ReconcilerPastQueue(Next(cfg, s, a))
  {
    if a.ReconcileStarted? || a.ReconcileListed? {
      ListsArePastQueue(cfg, s, a);
    } else if Reconciles(a) {
      StepsArePastQueue(cfg, s, a);
    } else if !a.Restart? {
      PastQueueStays(cfg, s, Next(cfg, s, a));
      ReconcilerFrame(cfg, s, a);
    }
  }

  /** A waiting stop or status request is either old or sent by this action. */
  lemma RequestsAreOldOrNew(cfg: Config, s: System, a: Action, c: Call)
    requires c in Next(cfg, s, a).agent.queue && (c.request.StopVm? || c.request.ReadStatus?)
    ensures
      || c in s.agent.queue
      || AsksToStop(cfg, s, a, c.request.id)
      || (a.ReconcileStatusNext? && Enabled(cfg, s, a) && c.request.id == s.memory.reconciliation.checkTodo[0].id)
  {
    if !Issues(a) && !OfAgent(a) { AgentFrame(cfg, s, a); }
  }

  lemma RequestsPastQueueKept(cfg: Config, s: System, a: Action)
    requires RowsOk(cfg, s) && RowsStep(cfg, s, Next(cfg, s, a)) && IdsPastQueue(s)
    ensures RequestsPastQueue(Next(cfg, s, a))
  {
    var t := Next(cfg, s, a);
    PastQueueStays(cfg, s, t);
    forall c | c in t.agent.queue && (c.request.StopVm? || c.request.ReadStatus?) ensures PastQueue(t, c.request.id) {
      RequestsAreOldOrNew(cfg, s, a, c);
      if c in s.agent.queue {
        assert PastQueue(s, c.request.id);
      } else if AsksToStop(cfg, s, a, c.request.id) {
        StopsArePastQueue(cfg, s, a, c.request.id);
      } else {
        assert s.memory.reconciliation.checkTodo[0] in s.memory.reconciliation.checkTodo;
      }
    }
  }

  lemma ClaimsPastQueueKept(cfg: Config, s: System, a: Action)
    requires RowsOk(cfg, s) && RowsStep(cfg, s, Next(cfg, s, a)) && IdsPastQueue(s)
    ensures ClaimsPastQueue(Next(cfg, s, a))
  {
    PastQueueStays(cfg, s, Next(cfg, s, a));
    if !a.ReconcileClaimed? {
      ClaimsFrame(cfg, s, a);
    } else if Enabled(cfg, s, a) {
      assert RowOk(cfg, s, a.id);
    }
  }
}
