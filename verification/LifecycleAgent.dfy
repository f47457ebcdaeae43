/** The live machines: an agent that applies requests in issue order never runs more
    of them than the configuration allows, and only for rows that hold a slot. */
module LifecycleAgent {
  import opened Lifecycle
  import opened LifecycleFrames
  import opened LifecycleInvariants

  /** No machine runs for the id and none is about to be started. */
  ghost predicate Gone(s: System, id: Id) {
    id !in s.agent.live && forall c :: c in s.agent.queue ==> c.request != CreateVm(id)
  }

  ghost predicate Claimed(s: System, id: Id) {
    exists c :: c in s.claims && c.id == id
  }

  /** The rows that were claimed and have not ended: each may own one machine. */
  ghost function Slots(s: System): set<Id> {
    set id | id in s.rows && s.rows[id].state.Holding() && Claimed(s, id)
  }

  ghost predicate TicketsOk(s: System) {
    && (forall i :: 0 <= i < |s.agent.queue| ==> s.agent.queue[i].ticket < s.nextTicket)
    && (forall i :: 0 <= i < |s.agent.queue| ==> s.agent.queue[i].ticket !in s.agent.replies)
    && (forall i, j :: 0 <= i < j < |s.agent.queue| ==> s.agent.queue[i].ticket != s.agent.queue[j].ticket)
    && (forall t :: t in s.agent.replies ==> t < s.nextTicket)
  }

  ghost predicate MachinesHaveSlots(s: System) {
    forall id :: !Gone(s, id) ==> id in Slots(s)
  }

  /** A create never waits behind a stop or a status request for the same id. */
  ghost predicate CreatesComeFirst(s: System) {
    forall i, j :: 0 <= i < j < |s.agent.queue| && (s.agent.queue[i].request.StopVm? || s.agent.queue[i].request.ReadStatus?)
      ==> s.agent.queue[j].request != CreateVm(s.agent.queue[i].request.id)
  }

  /** A stop of the row that was applied has removed its machine for good. */
  ghost predicate StopIsFinal(s: System, t: Ticket, id: Id) {
    && t < s.nextTicket
    && (t in s.agent.replies ==> Gone(s, id))
    && (forall c :: c in s.agent.queue && c.ticket == t ==> c.request == StopVm(id))
  }

  ghost predicate StopsAreFinal(s: System) {
    forall t :: t in s.memory.operations ==> StopIsFinal(s, t, s.memory.operations[t].id)
  }

  /** So has a status reading that found the machine not running. */
  ghost predicate ReadingsAreFinal(s: System) {
    var p := s.memory.reconciliation;
    p.CheckWait? ==>
      && p.statusCall < s.nextTicket
      && (p.statusCall in s.agent.replies && s.agent.replies[p.statusCall] == Observed(false) ==> Gone(s, p.checking.id))
      && (forall c :: c in s.agent.queue && c.ticket == p.statusCall ==> c.request == ReadStatus(p.checking.id))
  }

  ghost predicate AgentOk(s: System) {
    TicketsOk(s) && MachinesHaveSlots(s) && CreatesComeFirst(s) && StopsAreFinal(s) && ReadingsAreFinal(s)
  }

  predicate InOrder(a: Action) { a.AgentApplies? ==> a.index == 0 }

  lemma ApplyingKeepsTickets(s: System, index: nat, effect: bool)
    requires TicketsOk(s) && index < |s.agent.queue|
    ensures TicketsOk(s.(agent := ApplyCall(s.agent, index, effect)))
  {
  }

  lemma IssuingKeepsTickets(s: System, t: System, request: Request)
    requires TicketsOk(s) && Issued(s, t, request)
    ensures TicketsOk(t)
  {
  }

  lemma TicketsKept(cfg: Config, s: System, a: Action)
    requires TicketsOk(s)
    ensures TicketsOk(Next(cfg, s, a))
  {
    if a.AgentApplies? {
      if Enabled(cfg, s, a) { ApplyingKeepsTickets(s, a.index, a.effect); }
    } else if !a.VmExits? {
      var t := Next(cfg, s, a);
      ServiceIssues(cfg, s, a);
      if t.nextTicket != s.nextTicket { IssuingKeepsTickets(s, t, t.agent.queue[|s.agent.queue|].request); }
    }
  }

  lemma OnlyClaimsCreate(cfg: Config, s: System, a: Action, request: Request)
    requires Issued(s, Next(cfg, s, a), request) && request.CreateVm?
    ensures a == ReconcileClaimed(request.id) && Enabled(cfg, s, a)
  {
    var t := Next(cfg, s, a);
    assert t.agent.queue[|s.agent.queue|] == Call(s.nextTicket, request);
    if !Issues(a) { AgentFrame(cfg, s, a); }
  }

  /** Only the claim that creates it can undo `Gone`. */
  lemma GoneStays(cfg: Config, s: System, a: Action, id: Id)
    requires Gone(s, id) && a != ReconcileClaimed(id)
    ensures Gone(Next(cfg, s, a), id)
  {
    if !OfAgent(a) {
      var t := Next(cfg, s, a);
      ServiceIssues(cfg, s, a);
      if t.nextTicket != s.nextTicket && t.agent.queue[|s.agent.queue|].request.CreateVm? {
        OnlyClaimsCreate(cfg, s, a, t.agent.queue[|s.agent.queue|].request);
      }
    }
  }

  /** Only a reported stop and a status reading end rows. */
  lemma OthersEndNoRow(cfg: Config, s: System, a: Action, id: Id)
    requires !a.StopReplied? && !a.ReconcileStatusReplied?
    requires id in s.rows && s.rows[id].state.Active()
    ensures var t := Next(cfg, s, a); id in t.rows ==> !Ended(t.rows[id])
  {
    if !TouchesRows(a) { RowsFrame(cfg, s, a); }
  }

  /** A row ends only once its machine is gone. */
  lemma OnlyGoneRowsEnd(cfg: Config, s: System, a: Action, id: Id)
    requires StopsAreFinal(s) && ReadingsAreFinal(s)
    requires id in s.rows && s.rows[id].state.Active()
    requires var t := Next(cfg, s, a); id in t.rows && Ended(t.rows[id])
    ensures Gone(s, id)
  {
    if a.StopReplied? {
      if Enabled(cfg, s, a) { assert StopIsFinal(s, a.ticket, s.memory.operations[a.ticket].id); }
    } else if !a.ReconcileStatusReplied? {
      OthersEndNoRow(cfg, s, a, id);
    }
  }

  lemma ClaimsGrow(cfg: Config, s: System, a: Action)
    ensures s.claims <= Next(cfg, s, a).claims
  {
    if !a.ReconcileClaimed? { ClaimsFrame(cfg, s, a); }
  }

  lemma SlotKept(cfg: Config, s: System, t: System, id: Id)
    requires RowsOk(cfg, s) && RowsStep(cfg, s, t) && s.claims <= t.claims
    requires id in Slots(s) && (id in t.rows ==> !Ended(t.rows[id]))
    ensures id in Slots(t)
  {
    var c :| c in s.claims && c.id == id;
    assert c in t.claims;
    assert RowMove(s.now, s.rows[id], t.rows[id]);
  }

  lemma ClaimTakesSlot(cfg: Config, s: System, id: Id)
    requires Enabled(cfg, s, ReconcileClaimed(id))
    ensures id in Slots(Next(cfg, s, ReconcileClaimed(id)))
  {
    var t := Next(cfg, s, ReconcileClaimed(id));
    assert t.claims[|s.claims|] == Claim(id, s.rows[id].createdAt);
  }

  lemma MachinesKeepSlots(cfg: Config, s: System, a: Action)
    requires RowsOk(cfg, s) && RowsStep(cfg, s, Next(cfg, s, a)) && AgentOk(s)
    ensures MachinesHaveSlots(Next(cfg, s, a))
  {
    var t := Next(cfg, s, a);
    forall id | !Gone(t, id) ensures id in Slots(t) {
      if a == ReconcileClaimed(id) && Enabled(cfg, s, a) {
        ClaimTakesSlot(cfg, s, id);
      } else {
        if Gone(s, id) && a != ReconcileClaimed(id) { GoneStays(cfg, s, a, id); }
        assert id in Slots(s);
        ClaimsGrow(cfg, s, a);
        if id in t.rows && Ended(t.rows[id]) { OnlyGoneRowsEnd(cfg, s, a, id); }
        SlotKept(cfg, s, t, id);
      }
    }
  }

  lemma ApplyingKeepsCreatesFirst(s: System, index: nat, effect: bool)
    requires CreatesComeFirst(s) && index < |s.agent.queue|
    ensures CreatesComeFirst(s.(agent := ApplyCall(s.agent, index, effect)))
  {
  }

  lemma IssuingKeepsCreatesFirst(s: System, t: System, request: Request)
    requires CreatesComeFirst(s) && Issued(s, t, request)
    requires request.CreateVm? ==> RequestsPastQueue(s) && !PastQueue(s, request.id)
    ensures CreatesComeFirst(t)
  {
    forall c | c in s.agent.queue && (c.request.StopVm? || c.request.ReadStatus?) && request.CreateVm?
      ensures c.request.id != request.id
    {
      assert PastQueue(s, c.request.id);
    }
  }

  lemma CreatesStayFirst(cfg: Config, s: System, a: Action)
    requires CreatesComeFirst(s) && RequestsPastQueue(s)
    ensures CreatesComeFirst(Next(cfg, s, a))
  {
    var t := Next(cfg, s, a);
    if a.AgentApplies? {
      if Enabled(cfg, s, a) { ApplyingKeepsCreatesFirst(s, a.index, a.effect); }
    } else if !a.VmExits? {
      ServiceIssues(cfg, s, a);
      if t.nextTicket != s.nextTicket {
        var request := t.agent.queue[|s.agent.queue|].request;
        if request.CreateVm? { OnlyClaimsCreate(cfg, s, a, request); }
        IssuingKeepsCreatesFirst(s, t, request);
      }
    }
  }

  lemma AppliedStopIsFinal(s: System, effect: bool, k: Ticket, id: Id)
    requires TicketsOk(s) && CreatesComeFirst(s) && StopIsFinal(s, k, id) && s.agent.queue != []
    ensures StopIsFinal(s.(agent := ApplyCall(s.agent, 0, effect)), k, id)
  {
    assert s.agent.queue[0] in s.agent.queue;
  }

  lemma OldStopStaysFinal(cfg: Config, s: System, a: Action, k: Ticket, id: Id)
    requires TicketsOk(s) && CreatesComeFirst(s) && StopIsFinal(s, k, id) && PastQueue(s, id) && InOrder(a)
    ensures StopIsFinal(Next(cfg, s, a), k, id)
  {
    if a.AgentApplies? {
      if s.agent.queue != [] { AppliedStopIsFinal(s, a.effect, k, id); }
    } else {
      if !a.VmExits? { ServiceIssues(cfg, s, a); }
      if Gone(s, id) && a != ReconcileClaimed(id) { GoneStays(cfg, s, a, id); }
    }
  }

  lemma NewStopIsFinal(s: System, t: System, id: Id)
    requires TicketsOk(s) && Issued(s, t, StopVm(id))
    ensures StopIsFinal(t, s.nextTicket, id)
  {
  }

  lemma StopsStayFinal(cfg: Config, s: System, a: Action)
    requires AgentOk(s) && OperationsPastQueue(s) && InOrder(a)
    ensures StopsAreFinal(Next(cfg, s, a))
  {
    var t := Next(cfg, s, a);
    forall k | k in t.memory.operations ensures StopIsFinal(t, k, t.memory.operations[k].id) {
      var id := t.memory.operations[k].id;
      OperationsAreOldOrNew(cfg, s, a, k);
      if k in s.memory.operations && s.memory.operations[k].id == id {
        OldStopStaysFinal(cfg, s, a, k, id);
      } else {
        NewStopIsFinal(s, t, id);
      }
    }
  }

  lemma AppliedReadingIsFinal(s: System, effect: bool)
    requires AgentOk(s) && s.agent.queue != []
    ensures ReadingsAreFinal(s.(agent := ApplyCall(s.agent, 0, effect)))
  {
    assert s.agent.queue[0] in s.agent.queue;
  }

  lemma IssuingKeepsReadings(s: System, t: System, request: Request)
    requires TicketsOk(s) && ReadingsAreFinal(s) && Issued(s, t, request) && !request.CreateVm?
    requires t.memory.reconciliation == s.memory.reconciliation
    ensures ReadingsAreFinal(t)
  {
  }

  lemma NewReadingIsFinal(cfg: Config, s: System, a: Action)
    requires TicketsOk(s) && Reconciles(a) && ReadingsAreFinal(s)
    ensures ReadingsAreFinal(Next(cfg, s, a))
  {
    if a.ReconcileStatusNext? && Enabled(cfg, s, a) {
      assert Issued(s, Next(cfg, s, a), ReadStatus(s.memory.reconciliation.checkTodo[0].id));
    }
  }

  lemma ReadingsStayFinal(cfg: Config, s: System, a: Action)
    requires AgentOk(s) && InOrder(a)
    ensures ReadingsAreFinal(Next(cfg, s, a))
  {
    var t := Next(cfg, s, a);
    if Reconciles(a) {
      NewReadingIsFinal(cfg, s, a);
    } else if a.AgentApplies? {
      if Enabled(cfg, s, a) { AppliedReadingIsFinal(s, a.effect); }
    } else if !a.VmExits? && !a.Restart? {
      ReconcilerFrame(cfg, s, a);
      ServiceIssues(cfg, s, a);
      if t.nextTicket != s.nextTicket {
        var request := t.agent.queue[|s.agent.queue|].request;
        if request.CreateVm? { OnlyClaimsCreate(cfg, s, a, request); }
        IssuingKeepsReadings(s, t, request);
      }
    }
  }
}
