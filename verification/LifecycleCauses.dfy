/** Why a row of the lifecycle changes: for each state, exactly which message, owner or
    clock puts a row there. The requests a run issues are remembered by ticket, so a reply
    is traced back to the request it answers. */
module LifecycleCauses {
  import opened Basics
  import opened Lifecycle
  import opened LifecycleFrames
  import opened LifecycleInvariants
  import opened LifecycleAgent
  import opened LifecycleTheorems
  import opened LifecycleDisks

  // ---- The requests of a run -----------------------------------------------

  function IssuedBy(s: System, t: System): seq<Request> {
    if t.nextTicket == s.nextTicket || t.agent.queue == [] then []
    else [t.agent.queue[|t.agent.queue| - 1].request]
  }

  /** Every request a run issues, in order: a request's place is its ticket. */
  ghost function Requests(cfg: Config, s: System, run: seq<Action>): seq<Request>
    decreases |run|
  {
    if run == [] then [] else IssuedBy(s, Next(cfg, s, run[0])) + Requests(cfg, Next(cfg, s, run[0]), run[1..])
  }

  ghost predicate QueueRemembered(s: System, sent: seq<Request>) {
    && |sent| == s.nextTicket
    && (forall c :: c in s.agent.queue ==> c.ticket < |sent| && sent[c.ticket] == c.request)
  }

  /** Only a status request is answered with an observation. */
  ghost predicate RepliesRemembered(s: System, sent: seq<Request>) {
    forall k :: k in s.agent.replies ==> k < |sent| && (s.agent.replies[k].Observed? <==> sent[k].ReadStatus?)
  }

  predicate Sent(sent: seq<Request>, k: Ticket, request: Request) { k < |sent| && sent[k] == request }

  ghost predicate OperationsRemembered(m: Memory, sent: seq<Request>) {
    && (forall k :: k in m.operations ==> Sent(sent, k, StopVm(m.operations[k].id)))
    && (forall k :: k in m.destroyCalls ==> Sent(sent, k, DestroyDisk(m.destroyCalls[k].volume)))
  }

  ghost predicate ReconcilerRemembered(p: Progress, sent: seq<Request>) {
    && (p.CheckWait? ==> Sent(sent, p.statusCall, ReadStatus(p.checking.id)))
    && (p.ClaimWait? ==> Sent(sent, p.createCall, CreateVm(p.creating)))
  }

  /** A row listed as running is never provisioning again. */
  predicate SnapshotOk(s: System, x: Snapshot) {
    !x.provisioning ==> x.id in s.creations && (x.id in s.rows ==> !s.rows[x.id].state.Queued? && !s.rows[x.id].state.Provisioning?)
  }

  ghost predicate SnapshotsOk(s: System) {
    var p := s.memory.reconciliation;
    && (p.CheckLoop? || p.CheckWait? ==> forall x :: x in p.checkTodo ==> SnapshotOk(s, x))
    && (p.CheckWait? ==> SnapshotOk(s, p.checking))
  }

  ghost predicate Remembers(s: System, sent: seq<Request>) {
    && QueueRemembered(s, sent) && RepliesRemembered(s, sent)
    && OperationsRemembered(s.memory, sent) && ReconcilerRemembered(s.memory.reconciliation, sent)
    && SnapshotsOk(s)
  }

  lemma IssuedIsOne(s: System, t: System, request: Request)
    requires Issued(s, t, request)
    ensures IssuedBy(s, t) == [request]
  {
  }

  lemma ApplyingRemembers(s: System, index: nat, effect: bool, sent: seq<Request>)
    requires QueueRemembered(s, sent) && RepliesRemembered(s, sent) && index < |s.agent.queue|
    ensures var t := s.(agent := ApplyCall(s.agent, index, effect)); QueueRemembered(t, sent) && RepliesRemembered(t, sent)
  {
    assert s.agent.queue[index] in s.agent.queue;
  }

  lemma IssuingRemembers(s: System, t: System, request: Request, sent: seq<Request>)
    requires QueueRemembered(s, sent) && RepliesRemembered(s, sent) && Issued(s, t, request)
    ensures QueueRemembered(t, sent + [request]) && RepliesRemembered(t, sent + [request])
  {
  }

  lemma QueueStaysRemembered(cfg: Config, s: System, a: Action, sent: seq<Request>)
    requires QueueRemembered(s, sent) && RepliesRemembered(s, sent)
    ensures var t := Next(cfg, s, a); var all := sent + IssuedBy(s, t);
      QueueRemembered(t, all) && RepliesRemembered(t, all)
  {
    var t := Next(cfg, s, a);
    if OfAgent(a) {
      AgentFrame(cfg, s, a);
      if a.AgentApplies? && Enabled(cfg, s, a) { ApplyingRemembers(s, a.index, a.effect, sent); }
      assert sent + IssuedBy(s, t) == sent;
    } else {
      ServiceIssues(cfg, s, a);
      if t.nextTicket == s.nextTicket {
        assert sent + IssuedBy(s, t) == sent;
      } else {
        IssuingRemembers(s, t, t.agent.queue[|s.agent.queue|].request, sent);
      }
    }
  }

  lemma OperationsStayRemembered(cfg: Config, s: System, a: Action, sent: seq<Request>)
    requires OperationsRemembered(s.memory, sent) && |sent| == s.nextTicket
    ensures var t := Next(cfg, s, a); forall k :: k in t.memory.operations ==> Sent(sent + IssuedBy(s, t), k, StopVm(t.memory.operations[k].id))
  {
    var t := Next(cfg, s, a);
    forall k | k in t.memory.operations ensures Sent(sent + IssuedBy(s, t), k, StopVm(t.memory.operations[k].id)) {
      OperationsAreOldOrNew(cfg, s, a, k);
      if !(k in s.memory.operations && s.memory.operations[k].id == t.memory.operations[k].id) {
        IssuedIsOne(s, t, StopVm(t.memory.operations[k].id));
      }
    }
  }

  lemma DestroysStayRemembered(cfg: Config, s: System, a: Action, sent: seq<Request>)
    requires OperationsRemembered(s.memory, sent) && |sent| == s.nextTicket
    ensures var t := Next(cfg, s, a);
      forall k :: k in t.memory.destroyCalls ==> Sent(sent + IssuedBy(s, t), k, DestroyDisk(t.memory.destroyCalls[k].volume))
  {
    var t := Next(cfg, s, a);
    forall k | k in t.memory.destroyCalls ensures Sent(sent + IssuedBy(s, t), k, DestroyDisk(t.memory.destroyCalls[k].volume)) {
      DestroyIsOldOrRequested(cfg, s, a, k);
      if !(k in s.memory.destroyCalls && s.memory.destroyCalls[k] == t.memory.destroyCalls[k]) {
        IssuedIsOne(s, t, DestroyDisk(t.memory.destroyCalls[k].volume));
      }
    }
  }

  lemma OnlyTwoStepsAwaitThese(cfg: Config, s: System, a: Action)
    requires Reconciles(a) && !a.ReconcileStatusNext? && !a.ReconcileClaimed?
    ensures var p := Next(cfg, s, a).memory.reconciliation;
      p == s.memory.reconciliation || !(p.CheckWait? || p.ClaimWait?)
  {
  }

  lemma ReconcilerStaysRemembered(cfg: Config, s: System, a: Action, sent: seq<Request>)
    requires ReconcilerRemembered(s.memory.reconciliation, sent) && |sent| == s.nextTicket
    ensures var t := Next(cfg, s, a); ReconcilerRemembered(t.memory.reconciliation, sent + IssuedBy(s, t))
  {
    var t := Next(cfg, s, a);
    if a.ReconcileStatusNext? && Enabled(cfg, s, a) {
      IssuedIsOne(s, t, ReadStatus(s.memory.reconciliation.checkTodo[0].id));
    } else if a.ReconcileClaimed? && Enabled(cfg, s, a) {
      IssuedIsOne(s, t, CreateVm(a.id));
    } else if Reconciles(a) {
      if !a.ReconcileStatusNext? && !a.ReconcileClaimed? { OnlyTwoStepsAwaitThese(cfg, s, a); }
    } else if !a.Restart? {
      ReconcilerFrame(cfg, s, a);
    }
  }

  lemma SnapshotStays(cfg: Config, s: System, t: System, x: Snapshot)
    requires RowsOk(cfg, s) && RowsStep(cfg, s, t) && SnapshotOk(s, x)
    ensures SnapshotOk(t, x)
  {
    if x.id in s.rows && x.id in t.rows { assert RowMove(s.now, s.rows[x.id], t.rows[x.id]); }
  }

  lemma ListedOk(cfg: Config, s: System, x: Snapshot)
    requires RowsOk(cfg, s) && x in CheckableRows(s.rows)
    ensures SnapshotOk(s, x)
  {
    assert RowOk(cfg, s, x.id);
  }

  /** The reconciler goes through the list it has. */
  lemma ReconcilerKeepsSnapshots(cfg: Config, s: System, a: Action)
    requires Reconciles(a) && !a.ReconcileListed? && SnapshotsOk(s)
    requires forall x :: SnapshotOk(s, x) ==> SnapshotOk(Next(cfg, s, a), x)
    ensures SnapshotsOk(Next(cfg, s, a))
  {
  }

  lemma SnapshotsStay(cfg: Config, s: System, a: Action)
    requires RowsOk(cfg, s) && RowsStep(cfg, s, Next(cfg, s, a)) && SnapshotsOk(s)
    ensures SnapshotsOk(Next(cfg, s, a))
  {
    var t := Next(cfg, s, a);
    forall x | SnapshotOk(s, x) ensures SnapshotOk(t, x) { SnapshotStays(cfg, s, t, x); }
    if a.ReconcileListed? && Enabled(cfg, s, a) {
      forall x | x in a.active ensures SnapshotOk(t, x) { ListedOk(cfg, s, x); }
    } else if Reconciles(a) {
      if !a.ReconcileListed? { ReconcilerKeepsSnapshots(cfg, s, a); }
    } else if !a.Restart? {
      ReconcilerFrame(cfg, s, a);
    }
  }

  lemma MemoryKept(cfg: Config, s: System, a: Action, sent: seq<Request>)
    requires RecordsOk(cfg, s) && Remembers(s, sent)
    ensures Remembers(Next(cfg, s, a), sent + IssuedBy(s, Next(cfg, s, a)))
  {
    EveryActionIsARowsStep(cfg, s, a);
    QueueStaysRemembered(cfg, s, a, sent);
    OperationsStayRemembered(cfg, s, a, sent);
    DestroysStayRemembered(cfg, s, a, sent);
    ReconcilerStaysRemembered(cfg, s, a, sent);
    SnapshotsStay(cfg, s, a);
  }

  lemma {:induction false} MemoryHolds(cfg: Config, s: System, run: seq<Action>, sent: seq<Request>)
    requires RecordsOk(cfg, s) && Remembers(s, sent)
    ensures RecordsOk(cfg, Execute(cfg, s, run)) && Remembers(Execute(cfg, s, run), sent + Requests(cfg, s, run))
    decreases |run|
  {
    if run == [] {
      assert sent + Requests(cfg, s, run) == sent;
    } else {
      var t := Next(cfg, s, run[0]);
      MemoryKept(cfg, s, run[0], sent);
      RecordsKept(cfg, s, run[0]);
      MemoryHolds(cfg, t, run[1..], sent + IssuedBy(s, t));
      Regroup(sent, IssuedBy(s, t), Requests(cfg, t, run[1..]));
    }
  }

  /** After any run each waiting request, reply and registered call belongs to the request
      that was issued under its ticket. */
  lemma RunsRemember(cfg: Config, start: int, run: seq<Action>)
    ensures RecordsOk(cfg, Execute(cfg, Initial(start), run))
    ensures Remembers(Execute(cfg, Initial(start), run), Requests(cfg, Initial(start), run))
  {
    InitiallyOk(cfg, start);
    MemoryHolds(cfg, Initial(start), run, []);
    assert [] + Requests(cfg, Initial(start), run) == Requests(cfg, Initial(start), run);
  }

  // ---- What an action is told ----------------------------------------------

  /** The ticket whose success the action reports to whoever awaits it. */
  function Awaited(m: Memory, a: Action): Option<Ticket> {
    match a
    case StopReplied(k, ok) => if ok && k in m.operations && !m.operations[k].settled then Some(k) else None
    case DestroyReplied(k, ok) => if ok && k in m.destroyCalls then Some(k) else None
    case ReconcileStatusReplied(ok) => if ok && m.reconciliation.CheckWait? then Some(m.reconciliation.statusCall) else None
    case ReconcileCreateReplied(ok) => if ok && m.reconciliation.ClaimWait? then Some(m.reconciliation.createCall) else None
    case _ => None
  }

  /** The action brings the agent's reply to this request. */
  predicate Delivers(s: System, a: Action, sent: seq<Request>, request: Request, reply: Reply) {
    var k := Awaited(s.memory, a);
    k.Some? && k.value in s.agent.replies && s.agent.replies[k.value] == reply && Sent(sent, k.value, request)
  }

  /** The row moves into the state between `s` and `t`. */
  predicate Enters(s: System, t: System, id: Id, state: RowState) {
    id in s.rows && id in t.rows && s.rows[id].state != state && t.rows[id].state == state
  }

  /** A machine was created for the row, or one was seen running for it. */
  predicate ToldRunning(s: System, a: Action, sent: seq<Request>, id: Id) {
    Delivers(s, a, sent, CreateVm(id), Done) || Delivers(s, a, sent, ReadStatus(id), Observed(true))
  }

  predicate ToldGone(s: System, a: Action, sent: seq<Request>, id: Id) {
    Delivers(s, a, sent, ReadStatus(id), Observed(false))
  }

  predicate ToldStopped(s: System, a: Action, sent: seq<Request>, id: Id) { Delivers(s, a, sent, StopVm(id), Done) }

  /** The owner asks to stop the newest workspace that has not ended. */
  predicate OwnerStops(s: System, a: Action, id: Id) {
    && a.StopCurrent? && a.id == id && id in s.rows && a.wallet == s.rows[id].wallet
    && forall other :: other in s.rows && s.rows[other].wallet == a.wallet && s.rows[other].state.Active()
         ==> s.rows[other].createdAt <= s.rows[id].createdAt
  }

  predicate Unexpired(s: System, id: Id) { id in s.rows && s.now < s.rows[id].leaseExpiresAt }

  /** A reconciliation begins after the lease has run out. */
  ghost predicate LeaseEnds(cfg: Config, s: System, a: Action, id: Id) {
    a.ReconcileStarted? && Enabled(cfg, s, a) && !Unexpired(s, id)
  }

  /** The reconciler has a slot left and takes the oldest queued row whose lease runs. */
  predicate SlotGiven(s: System, a: Action, id: Id) {
    && a == ReconcileClaimed(id) && s.memory.reconciliation.ClaimLoop? && s.memory.reconciliation.capacity > 0
    && Unexpired(s, id)
    && forall other :: other in s.rows && s.rows[other].state.Queued? && Unexpired(s, other)
         ==> s.rows[id].createdAt <= s.rows[other].createdAt
  }

  // ---- One step --------------------------------------------------------------

  lemma OthersKeepStates(cfg: Config, s: System, a: Action, id: Id)
    requires !TouchesRows(a) || a.Create? || a.Cleanup?
    requires id in s.rows && id in s.creations && id in Next(cfg, s, a).rows
    ensures Next(cfg, s, a).rows[id].state == s.rows[id].state
  {
    if !TouchesRows(a) { RowsFrame(cfg, s, a); }
  }

  lemma OnlyAwaitedDeliver(cfg: Config, s: System, a: Action, sent: seq<Request>, id: Id)
    requires Remembers(s, sent)
    ensures ToldRunning(s, a, sent, id) ==> Enabled(cfg, s, a) && (a.ReconcileCreateReplied? || a.ReconcileStatusReplied?)
    ensures ToldGone(s, a, sent, id) ==> Enabled(cfg, s, a) && a.ReconcileStatusReplied?
    ensures ToldStopped(s, a, sent, id) ==> Enabled(cfg, s, a) && a.StopReplied?
  {
  }

  lemma CreateReplyMovesRow(cfg: Config, s: System, a: Action, sent: seq<Request>, id: Id)
    requires Remembers(s, sent) && a.ReconcileCreateReplied? && id in s.rows
    ensures id in Next(cfg, s, a).rows
    ensures Next(cfg, s, a).rows[id].state == if s.rows[id].state.Provisioning? && ToldRunning(s, a, sent, id) then Running else s.rows[id].state
  {
  }

  lemma StatusReplyMovesRow(cfg: Config, s: System, a: Action, sent: seq<Request>, id: Id)
    requires Remembers(s, sent) && a.ReconcileStatusReplied? && id in s.rows
    ensures id in Next(cfg, s, a).rows
    ensures Next(cfg, s, a).rows[id].state ==
      if s.rows[id].state.Provisioning? && ToldRunning(s, a, sent, id) then Running
      else if (s.rows[id].state.Provisioning? || s.rows[id].state.Running?) && ToldGone(s, a, sent, id) then Failed
      else s.rows[id].state
  {
  }

  lemma StopReplyMovesRow(cfg: Config, s: System, a: Action, sent: seq<Request>, id: Id)
    requires Remembers(s, sent) && a.StopReplied? && id in s.rows
    ensures id in Next(cfg, s, a).rows
    ensures Next(cfg, s, a).rows[id].state == if s.rows[id].state.Stopping? && ToldStopped(s, a, sent, id) then Stopped else s.rows[id].state
  {
  }

  lemma ClaimMovesRow(cfg: Config, s: System, a: Action, id: Id)
    requires a.ReconcileClaimed? && id in s.rows
    ensures id in Next(cfg, s, a).rows
    ensures Next(cfg, s, a).rows[id].state == if s.rows[id].state.Queued? && SlotGiven(s, a, id) then Provisioning else s.rows[id].state
  {
  }

  lemma OwnerMovesRow(cfg: Config, s: System, a: Action, id: Id)
    requires a.StopCurrent? && id in s.rows
    ensures id in Next(cfg, s, a).rows
    ensures Next(cfg, s, a).rows[id].state == if s.rows[id].state.Active() && OwnerStops(s, a, id) then Stopping else s.rows[id].state
  {
  }

  lemma ExpiryMovesRow(cfg: Config, s: System, a: Action, id: Id)
    requires a.ReconcileStarted? && id in s.rows
    ensures id in Next(cfg, s, a).rows
    ensures Next(cfg, s, a).rows[id].state ==
      if s.rows[id].state.Active() && LeaseEnds(cfg, s, a, id) then Stopping else s.rows[id].state
  {
  }

  /** The state a row has after the action, told by what the action reports. */
  ghost function StateAfter(cfg: Config, s: System, a: Action, sent: seq<Request>, id: Id): RowState
    requires id in s.rows
  {
    var from := s.rows[id].state;
    if from.Active() && (OwnerStops(s, a, id) || LeaseEnds(cfg, s, a, id)) then Stopping
    else match from
      case Queued => if SlotGiven(s, a, id) then Provisioning else Queued
      case Provisioning => if ToldRunning(s, a, sent, id) then Running else if ToldGone(s, a, sent, id) then Failed else Provisioning
      case Running => if ToldGone(s, a, sent, id) then Failed else Running
      case Stopping => if ToldStopped(s, a, sent, id) then Stopped else Stopping
      case Stopped => Stopped
      case Failed => Failed
  }

  lemma AStepMovesRow(cfg: Config, s: System, a: Action, sent: seq<Request>, id: Id)
    requires RowsOk(cfg, s) && Remembers(s, sent) && id in s.rows && id in Next(cfg, s, a).rows
    ensures Next(cfg, s, a).rows[id].state == StateAfter(cfg, s, a, sent, id)
  {
    if a.ReconcileCreateReplied? || a.ReconcileStatusReplied? || a.StopReplied? {
      RepliesMoveRow(cfg, s, a, sent, id);
    } else {
      OthersMoveRow(cfg, s, a, sent, id);
    }
  }

  lemma RepliesMoveRow(cfg: Config, s: System, a: Action, sent: seq<Request>, id: Id)
    requires Remembers(s, sent) && id in s.rows && (a.ReconcileCreateReplied? || a.ReconcileStatusReplied? || a.StopReplied?)
    ensures id in Next(cfg, s, a).rows && Next(cfg, s, a).rows[id].state == StateAfter(cfg, s, a, sent, id)
  {
    OnlyAwaitedDeliver(cfg, s, a, sent, id);
    if a.ReconcileCreateReplied? {
      CreateReplyMovesRow(cfg, s, a, sent, id);
    } else if a.ReconcileStatusReplied? {
      StatusReplyMovesRow(cfg, s, a, sent, id);
    } else {
      StopReplyMovesRow(cfg, s, a, sent, id);
    }
  }

  lemma OthersMoveRow(cfg: Config, s: System, a: Action, sent: seq<Request>, id: Id)
    requires RowsOk(cfg, s) && Remembers(s, sent) && id in s.rows && id in Next(cfg, s, a).rows
    requires !a.ReconcileCreateReplied? && !a.ReconcileStatusReplied? && !a.StopReplied?
    ensures Next(cfg, s, a).rows[id].state == StateAfter(cfg, s, a, sent, id)
  {
    WithoutReports(cfg, s, a, sent, id);
    if a.ReconcileClaimed? {
      ClaimMovesRow(cfg, s, a, id);
    } else if a.StopCurrent? {
      OwnerMovesRow(cfg, s, a, id);
    } else if a.ReconcileStarted? {
      ExpiryMovesRow(cfg, s, a, id);
    } else {
      QuietActions(cfg, s, a, id);
    }
  }

  lemma WithoutReports(cfg: Config, s: System, a: Action, sent: seq<Request>, id: Id)
    requires Remembers(s, sent) && id in s.rows
    requires !a.ReconcileCreateReplied? && !a.ReconcileStatusReplied? && !a.StopReplied?
    ensures StateAfter(cfg, s, a, sent, id) ==
      if a.ReconcileClaimed? && s.rows[id].state.Queued? && SlotGiven(s, a, id) then Provisioning
      else if a.StopCurrent? && s.rows[id].state.Active() && OwnerStops(s, a, id) then Stopping
      else if a.ReconcileStarted? && s.rows[id].state.Active() && LeaseEnds(cfg, s, a, id) then Stopping
      else s.rows[id].state
  {
    OnlyAwaitedDeliver(cfg, s, a, sent, id);
  }

  lemma QuietActions(cfg: Config, s: System, a: Action, id: Id)
    requires RowsOk(cfg, s) && id in s.rows && id in Next(cfg, s, a).rows
    requires !TouchesRows(a) || a.Create? || a.Cleanup?
    ensures Next(cfg, s, a).rows[id].state == s.rows[id].state
  {
    assert RowOk(cfg, s, id);
    OthersKeepStates(cfg, s, a, id);
  }

  lemma ActiveRowsStay(cfg: Config, s: System, a: Action, id: Id)
    requires RowsOk(cfg, s) && id in s.rows && s.rows[id].state.Active()
    ensures id in Next(cfg, s, a).rows
  {
    EveryRowMoves(cfg, s, a, id);
  }

  // ---- Every run -------------------------------------------------------------

  /** After any run, a row enters `Running` exactly when the action delivers to a
      provisioning row the success of its own create or a reading of its own status that
      found the machine running; `Failed` exactly when such a reading found it gone;
      `Stopped` exactly when its own stop is reported done; `Stopping` exactly when its
      owner stops it or its lease has run out as a reconciliation begins; and
      `Provisioning` exactly when it is given a slot. */
  lemma EveryChangeHasItsCause(cfg: Config, start: int, past: seq<Action>, a: Action, id: Id)
    ensures var s := Execute(cfg, Initial(start), past); var t := Next(cfg, s, a);
      id in s.rows ==>
        var sent := Requests(cfg, Initial(start), past);
        var from := s.rows[id].state;
        && (Enters(s, t, id, Running) <==> from.Provisioning? && ToldRunning(s, a, sent, id))
        && (Enters(s, t, id, Failed) <==> (from.Provisioning? || from.Running?) && ToldGone(s, a, sent, id))
        && (Enters(s, t, id, Stopped) <==> from.Stopping? && ToldStopped(s, a, sent, id))
        && (Enters(s, t, id, Stopping) <==>
              from.Active() && !from.Stopping? && (OwnerStops(s, a, id) || LeaseEnds(cfg, s, a, id)))
        && (Enters(s, t, id, Provisioning) <==> from.Queued? && SlotGiven(s, a, id))
        && !Enters(s, t, id, Queued)
  {
    RunsRemember(cfg, start, past);
    var s := Execute(cfg, Initial(start), past);
    if id in s.rows {
      if s.rows[id].state.Active() { ActiveRowsStay(cfg, s, a, id); }
      if id in Next(cfg, s, a).rows { AStepMovesRow(cfg, s, a, Requests(cfg, Initial(start), past), id); }
      CausesOfAMove(cfg, s, Next(cfg, s, a), a, Requests(cfg, Initial(start), past), id);
    }
  }

  lemma CausesOfAMove(cfg: Config, s: System, t: System, a: Action, sent: seq<Request>, id: Id)
    requires Remembers(s, sent) && id in s.rows && (s.rows[id].state.Active() ==> id in t.rows)
    requires id in t.rows ==> t.rows[id].state == StateAfter(cfg, s, a, sent, id)
    ensures var from := s.rows[id].state;
      && (Enters(s, t, id, Running) <==> from.Provisioning? && ToldRunning(s, a, sent, id))
      && (Enters(s, t, id, Failed) <==> (from.Provisioning? || from.Running?) && ToldGone(s, a, sent, id))
      && (Enters(s, t, id, Stopped) <==> from.Stopping? && ToldStopped(s, a, sent, id))
      && (Enters(s, t, id, Stopping) <==>
            from.Active() && !from.Stopping? && (OwnerStops(s, a, id) || LeaseEnds(cfg, s, a, id)))
      && (Enters(s, t, id, Provisioning) <==> from.Queued? && SlotGiven(s, a, id))
      && !Enters(s, t, id, Queued)
  {
    ReportsExclude(cfg, s, a, sent, id);
  }

  /** One action reports one thing. */
  lemma ReportsExclude(cfg: Config, s: System, a: Action, sent: seq<Request>, id: Id)
    requires Remembers(s, sent)
    ensures ToldRunning(s, a, sent, id) ==> !ToldGone(s, a, sent, id)
    ensures ToldRunning(s, a, sent, id) || ToldGone(s, a, sent, id) || ToldStopped(s, a, sent, id) ==>
      !OwnerStops(s, a, id) && !LeaseEnds(cfg, s, a, id) && !SlotGiven(s, a, id)
  {
    OnlyAwaitedDeliver(cfg, s, a, sent, id);
  }

  /** A reply that is a failure leaves every row and every volume as it was. */
  lemma FailuresChangeNoRow(cfg: Config, s: System, a: Action)
    requires a == ReconcileCreateReplied(false) || a == ReconcileStatusReplied(false)
      || (a.StopReplied? && !a.ok) || (a.DestroyReplied? && !a.ok)
    ensures Next(cfg, s, a).rows == s.rows && Next(cfg, s, a).volumes == s.volumes
  {
  }

  /** A row is deleted exactly when a clean-up finds that it ended before the retention
      period. */
  lemma DeletedExactly(cfg: Config, start: int, past: seq<Action>, a: Action, id: Id)
    ensures var s := Execute(cfg, Initial(start), past);
      id in s.rows ==>
        (id !in Next(cfg, s, a).rows <==>
           a.Cleanup? && Ended(s.rows[id]) && s.rows[id].stoppedAt.Some? && s.rows[id].stoppedAt.value + RETENTION < s.now)
  {
    RunsRemember(cfg, start, past);
    var s := Execute(cfg, Initial(start), past);
    if id in s.rows { DeletedByAStep(cfg, s, a, id); }
  }

  lemma DeletedByAStep(cfg: Config, s: System, a: Action, id: Id)
    requires RowsOk(cfg, s) && id in s.rows
    ensures id !in Next(cfg, s, a).rows <==>
      a.Cleanup? && Ended(s.rows[id]) && s.rows[id].stoppedAt.Some? && s.rows[id].stoppedAt.value + RETENTION < s.now
  {
    if s.rows[id].state.Active() {
      ActiveRowsStay(cfg, s, a, id);
    } else if !a.Cleanup? {
      OnlyCleanupDeletes(cfg, s, a, id);
    }
  }

  lemma OnlyCleanupDeletes(cfg: Config, s: System, a: Action, id: Id)
    requires id in s.rows && !a.Cleanup?
    ensures id in Next(cfg, s, a).rows
  {
    if !TouchesRows(a) { RowsFrame(cfg, s, a); }
  }

  /** A volume is marked destroyed exactly when its own destruction is reported done. */
  lemma MarkedDestroyedExactly(cfg: Config, start: int, past: seq<Action>, a: Action, v: VolumeId)
    ensures var s := Execute(cfg, Initial(start), past); var t := Next(cfg, s, a);
      v in s.volumes && s.volumes[v].destroyedAt.None? ==>
        && v in t.volumes
        && (t.volumes[v].destroyedAt.Some? <==> Delivers(s, a, Requests(cfg, Initial(start), past), DestroyDisk(v), Done))
        && (t.volumes[v].destroyedAt.Some? ==> t.volumes[v].destroyedAt == Some(s.now))
  {
    RunsRemember(cfg, start, past);
    MarkedByAStep(cfg, Execute(cfg, Initial(start), past), a, Requests(cfg, Initial(start), past), v);
  }

  lemma MarkedByAStep(cfg: Config, s: System, a: Action, sent: seq<Request>, v: VolumeId)
    requires Remembers(s, sent)
    ensures var t := Next(cfg, s, a);
      v in s.volumes && s.volumes[v].destroyedAt.None? ==>
        && v in t.volumes
        && (t.volumes[v].destroyedAt.Some? <==> Delivers(s, a, sent, DestroyDisk(v), Done))
        && (t.volumes[v].destroyedAt.Some? ==> t.volumes[v].destroyedAt == Some(s.now))
  {
    if !TouchesVolumes(a) { VolumesFrame(cfg, s, a); }
  }

  // ---- Admission -------------------------------------------------------------

  /** Room under the five limits, and nothing that forbids a persistent workspace now. */
  predicate MayEnter(cfg: Config, s: System, wallet: Wallet, ip: IpHash, persistent: bool) {
    && (persistent ==> cfg.persistence && wallet !in s.memory.destroyingVolumes)
    && |ActiveOfWallet(s.rows, wallet)| < cfg.maxActivePerWallet && |ActiveOfIp(s.rows, ip)| < cfg.maxActivePerIp
    && |RecentOfWallet(s.rows, wallet, s.now - DAY)| < cfg.dailyPerWallet
    && |RecentOfIp(s.rows, ip, s.now - DAY)| < cfg.dailyPerIp
    && |QueuedRows(s.rows)| < cfg.maxQueue
  }

  /** A row appears exactly when a create with fresh ids finds room, and it is attached to
      the volume exactly when a persistent workspace was asked for. */
  lemma AdmittedExactly(cfg: Config, s: System, a: Action, id: Id)
    requires id !in s.rows
    ensures id in Next(cfg, s, a).rows <==>
      a.Create? && a.id == id && FreshIds(s, a.wallet, a.persistent, id, a.volume) && MayEnter(cfg, s, a.wallet, a.ip, a.persistent)
    ensures id in Next(cfg, s, a).rows ==>
      Next(cfg, s, a).rows[id] ==
        Row(a.wallet, a.ip, Queued, s.now, s.now + cfg.leaseMs, None, if a.persistent then Some(a.volume) else None)
  {
    if !a.Create? { OnlyCreateAddsRows(cfg, s, a); }
  }

  /** A persistent workspace takes the wallet's volume, or a new one, and marks it as
      attached now; no other volume is touched. */
  lemma AttachedExactly(cfg: Config, s: System, a: Action, v: VolumeId)
    requires a.Create? && Enabled(cfg, s, a)
    ensures var t := Next(cfg, s, a);
      if a.persistent && v == a.volume then
        v in t.volumes && t.volumes[v] ==
          if v in s.volumes then s.volumes[v].(lastAttachedAt := s.now) else Volume(a.wallet, s.now, s.now, None)
      else (v in t.volumes <==> v in s.volumes) && (v in s.volumes ==> t.volumes[v] == s.volumes[v])
  {
  }

  /** The status of a refusal names the first thing that is missing. */
  lemma RefusalTellsWhy(cfg: Config, s: System, wallet: Wallet, ip: IpHash, persistent: bool)
    ensures var refused := Refusal(cfg, s, wallet, ip, persistent);
      && (refused.None? <==> MayEnter(cfg, s, wallet, ip, persistent))
      && (refused == Some(WorkspaceError(501)) <==> persistent && !cfg.persistence)
      && (refused == Some(WorkspaceError(409)) <==>
            && (persistent ==> cfg.persistence)
            && ((persistent && wallet in s.memory.destroyingVolumes) || |ActiveOfWallet(s.rows, wallet)| >= cfg.maxActivePerWallet))
      && (refused == Some(WorkspaceError(503)) <==>
            |QueuedRows(s.rows)| >= cfg.maxQueue && MayEnter(cfg.(maxQueue := |QueuedRows(s.rows)| + 1), s, wallet, ip, persistent))
      && (refused.Some? ==> refused.value.status in {501, 409, 429, 503})
  {
  }

  // ---- Requests --------------------------------------------------------------

  /** The reconciler's list of stops has come to the row. */
  predicate TurnToStop(s: System, a: Action, id: Id) {
    a.ReconcileStopNext? && s.memory.reconciliation.StopLoop? && s.memory.reconciliation.stopTodo != []
      && s.memory.reconciliation.stopTodo[0] == id
  }

  /** The wallet's live volume can be destroyed: nothing active is attached and no other
      destruction is under way. */
  predicate MayDestroy(s: System, wallet: Wallet, v: VolumeId) {
    && v in LiveVolumes(s.volumes, wallet) && wallet !in s.memory.destroyingVolumes
    && forall other :: other in LiveVolumes(s.volumes, wallet) ==> !Attached(s.rows, other)
  }

  /** What the service asks of the agent, and when: a create exactly for the row given a
      slot, a stop exactly when the owner or the reconciler stops a row without a registered
      operation, a reading exactly at the row's turn, a destruction exactly on request. */
  lemma RequestsExactly(cfg: Config, s: System, a: Action, id: Id, v: VolumeId)
    ensures var issued := IssuedBy(s, Next(cfg, s, a));
      && (issued == [CreateVm(id)] <==> id in s.rows && s.rows[id].state.Queued? && SlotGiven(s, a, id))
      && (issued == [StopVm(id)] <==>
            && id !in s.memory.stopOperations
            && (TurnToStop(s, a, id) || (OwnerStops(s, a, id) && s.rows[id].state.Active())))
      && (issued == [ReadStatus(id)] <==>
            && a.ReconcileStatusNext? && s.memory.reconciliation.CheckLoop? && s.memory.reconciliation.checkTodo != []
            && s.memory.reconciliation.checkTodo[0].id == id)
      && (issued == [DestroyDisk(v)] <==> a.DestroyRequested? && a.volume == v && MayDestroy(s, a.wallet, v))
  {
    if !Issues(a) {
      AgentFrame(cfg, s, a);
    } else if a.StopCurrent? || a.ReconcileStopNext? {
      StopsExactly(cfg, s, a, id);
    } else {
      TheRestExactly(cfg, s, a, id, v);
    }
  }

  lemma TheRestExactly(cfg: Config, s: System, a: Action, id: Id, v: VolumeId)
    requires a.ReconcileClaimed? || a.ReconcileStatusNext? || a.DestroyRequested?
    ensures var issued := IssuedBy(s, Next(cfg, s, a));
      && (issued == [CreateVm(id)] <==> id in s.rows && s.rows[id].state.Queued? && SlotGiven(s, a, id))
      && (issued == [ReadStatus(id)] <==>
            && a.ReconcileStatusNext? && s.memory.reconciliation.CheckLoop? && s.memory.reconciliation.checkTodo != []
            && s.memory.reconciliation.checkTodo[0].id == id)
      && (issued == [DestroyDisk(v)] <==> a.DestroyRequested? && a.volume == v && MayDestroy(s, a.wallet, v))
      && issued != [StopVm(id)]
  {
  }

  lemma StopsExactly(cfg: Config, s: System, a: Action, id: Id)
    requires a.StopCurrent? || a.ReconcileStopNext?
    ensures var issued := IssuedBy(s, Next(cfg, s, a));
      && (issued != [] ==> issued[0].StopVm?)
      && (issued == [StopVm(id)] <==>
            && id !in s.memory.stopOperations
            && (TurnToStop(s, a, id) || (OwnerStops(s, a, id) && s.rows[id].state.Active())))
  {
    if a.StopCurrent? && Enabled(cfg, s, a) {
      StopIssues(MarkStopping(s, a.id), a.id);
    } else if a.ReconcileStopNext? && Enabled(cfg, s, a) {
      StopIssues(s, s.memory.reconciliation.stopTodo[0]);
    }
  }
}
