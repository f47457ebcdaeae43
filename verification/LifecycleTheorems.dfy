/** What holds after every run: any interleaving of admission, owner stops, volume
    destruction, reconciliation, agent failures, machine exits, cleanup and restarts. */
module LifecycleTheorems {
  import opened Basics
  import opened Lifecycle
  import opened LifecycleFrames
  import opened LifecycleInvariants
  import opened LifecycleAgent
  import opened LifecycleAdmission

  /** Needs no assumption about the agent. */
  ghost predicate RecordsOk(cfg: Config, s: System) {
    && RowsOk(cfg, s) && TableOk(s) && IdsPastQueue(s)
    && ClaimsOrdered(s) && AdmissionOk(cfg, s) && VolumesOk(s) && SlotsBounded(cfg, s)
  }

  lemma InitiallyOk(cfg: Config, now: int)
    ensures RecordsOk(cfg, Initial(now)) && AgentOk(Initial(now))
  {
    var s := Initial(now);
    assert Slots(s) == {};
    assert QueuedRows(s.rows) == {};
    forall w ensures WalletWithinLimits(cfg, s, w) {
      assert ActiveOfWallet(s.rows, w) == {};
      forall from ensures |WalletWindow(s, w, from)| == 0 { assert WalletWindow(s, w, from) == {}; }
    }
    forall ip ensures IpWithinLimits(cfg, s, ip) {
      assert ActiveOfIp(s.rows, ip) == {};
      forall from ensures |IpWindow(s, ip, from)| == 0 { assert IpWindow(s, ip, from) == {}; }
    }
  }

  lemma RecordsKept(cfg: Config, s: System, a: Action)
    requires RecordsOk(cfg, s)
    ensures RecordsOk(cfg, Next(cfg, s, a))
  {
    EveryActionIsARowsStep(cfg, s, a);
    RowsKept(cfg, s, Next(cfg, s, a));
    TableKept(cfg, s, a);
    OperationsPastQueueKept(cfg, s, a);
    ReconcilerPastQueueKept(cfg, s, a);
    RequestsPastQueueKept(cfg, s, a);
    ClaimsPastQueueKept(cfg, s, a);
    ClaimsStayOrdered(cfg, s, a);
    AdmissionKept(cfg, s, a);
    VolumesKept(cfg, s, a);
    SlotsStayBounded(cfg, s, a);
  }

  lemma AgentKept(cfg: Config, s: System, a: Action)
    requires RecordsOk(cfg, s) && AgentOk(s) && InOrder(a)
    ensures AgentOk(Next(cfg, s, a))
  {
    EveryActionIsARowsStep(cfg, s, a);
    TicketsKept(cfg, s, a);
    MachinesKeepSlots(cfg, s, a);
    CreatesStayFirst(cfg, s, a);
    StopsStayFinal(cfg, s, a);
    ReadingsStayFinal(cfg, s, a);
  }

  lemma {:induction false} RecordsHold(cfg: Config, s: System, run: seq<Action>)
    requires RecordsOk(cfg, s)
    ensures RecordsOk(cfg, Execute(cfg, s, run))
    decreases |run|
  {
    if run != [] {
      RecordsKept(cfg, s, run[0]);
      RecordsHold(cfg, Next(cfg, s, run[0]), run[1..]);
    }
  }

  lemma {:induction false} AgentHolds(cfg: Config, s: System, run: seq<Action>)
    requires RecordsOk(cfg, s) && AgentOk(s) && InIssueOrder(run)
    ensures AgentOk(Execute(cfg, s, run))
    decreases |run|
  {
    if run != [] {
      RecordsKept(cfg, s, run[0]);
      AgentKept(cfg, s, run[0]);
      AgentHolds(cfg, Next(cfg, s, run[0]), run[1..]);
    }
  }

  /** Every live machine belongs to a provisioning, running or stopping row, and there
      are never more of them than `maxRunning`, whatever replies are lost, whenever the
      control plane restarts, and however many queued rows are stopped. */
  lemma LiveMachinesAreBounded(cfg: Config, start: int, run: seq<Action>)
    requires InIssueOrder(run)
    ensures var s := Execute(cfg, Initial(start), run);
      && (forall id :: id in s.agent.live ==> id in s.rows && s.rows[id].state.Holding())
      && |s.agent.live| <= cfg.maxRunning
  {
    InitiallyOk(cfg, start);
    RecordsHold(cfg, Initial(start), run);
    AgentHolds(cfg, Initial(start), run);
    var s := Execute(cfg, Initial(start), run);
    forall id | id in s.agent.live ensures id in Slots(s) { assert !Gone(s, id); }
    SubsetSize(s.agent.live, Slots(s));
  }

  /** In every closed 24-hour window, and at every moment, admissions stay within the
      configured limits, although old rows are deleted. */
  lemma AdmissionLimitsHold(cfg: Config, start: int, run: seq<Action>, wallet: Wallet, ip: IpHash, from: int)
    ensures var s := Execute(cfg, Initial(start), run);
      && |WalletWindow(s, wallet, from)| <= cfg.dailyPerWallet
      && |IpWindow(s, ip, from)| <= cfg.dailyPerIp
      && |ActiveOfWallet(s.rows, wallet)| <= cfg.maxActivePerWallet
      && |ActiveOfIp(s.rows, ip)| <= cfg.maxActivePerIp
      && |QueuedRows(s.rows)| <= cfg.maxQueue
  {
    InitiallyOk(cfg, start);
    RecordsHold(cfg, Initial(start), run);
    var s := Execute(cfg, Initial(start), run);
    assert WalletWithinLimits(cfg, s, wallet) && IpWithinLimits(cfg, s, ip);
  }

  /** As the database records it: no active workspace references a destroyed volume,
      nothing is attached to a volume whose destruction is awaited, and a wallet has one
      undestroyed volume at most. `LifecycleDisks` says when the disks agree. */
  lemma VolumesAreSafe(cfg: Config, start: int, run: seq<Action>)
    ensures var s := Execute(cfg, Initial(start), run);
      && (forall id :: id in s.rows && s.rows[id].state.Active() && s.rows[id].volume.Some? ==>
            s.rows[id].volume.value in LiveVolumes(s.volumes, s.rows[id].wallet))
      && (forall k :: k in s.memory.destroyCalls ==> !Attached(s.rows, s.memory.destroyCalls[k].volume))
      && (forall wallet :: |LiveVolumes(s.volumes, wallet)| <= 1)
  {
    InitiallyOk(cfg, start);
    RecordsHold(cfg, Initial(start), run);
    var s := Execute(cfg, Initial(start), run);
    forall id | id in s.rows && s.rows[id].state.Active() && s.rows[id].volume.Some?
      ensures s.rows[id].volume.value in LiveVolumes(s.volumes, s.rows[id].wallet)
    {
      assert RowVolumeOk(s, id);
    }
    forall k | k in s.memory.destroyCalls ensures !Attached(s.rows, s.memory.destroyCalls[k].volume) {
      assert DestroyOk(s, k);
    }
    forall wallet ensures |LiveVolumes(s.volumes, wallet)| <= 1 {
      if v :| v in LiveVolumes(s.volumes, wallet) {
        assert LiveVolumes(s.volumes, wallet) == {v};
      }
    }
  }

  /** Claims happen in order of admission over the whole run, each row is claimed at most
      once, and a row has at most one stop request awaiting its reply. */
  lemma ClaimsAndStopsAreSingle(cfg: Config, start: int, run: seq<Action>)
    ensures var s := Execute(cfg, Initial(start), run);
      && (forall i, j :: 0 <= i < j < |s.claims| ==>
            s.claims[i].createdAt <= s.claims[j].createdAt && s.claims[i].id != s.claims[j].id)
      && (forall t1, t2 :: (t1 in s.memory.operations && t2 in s.memory.operations
            && s.memory.operations[t1].id == s.memory.operations[t2].id) ==> t1 == t2)
  {
    InitiallyOk(cfg, start);
    RecordsHold(cfg, Initial(start), run);
  }

  /** The id whose create this action issued, if it did. */
  function CreatedBy(s: System, t: System): seq<Id> {
    if t.nextTicket == s.nextTicket + 1 && |t.agent.queue| == |s.agent.queue| + 1
       && t.agent.queue[|s.agent.queue|].request.CreateVm?
    then [t.agent.queue[|s.agent.queue|].request.id] else []
  }

  /** The ids of all creates a run issues to the agent, in order. */
  ghost function Creates(cfg: Config, s: System, run: seq<Action>): seq<Id>
    decreases |run|
  {
    if run == [] then [] else CreatedBy(s, Next(cfg, s, run[0])) + Creates(cfg, Next(cfg, s, run[0]), run[1..])
  }

  function ClaimedIds(claims: seq<Claim>): seq<Id> { seq(|claims|, i requires 0 <= i < |claims| => claims[i].id) }

  lemma AStepCreatesWhatItClaims(cfg: Config, s: System, a: Action)
    ensures var t := Next(cfg, s, a); ClaimedIds(t.claims) == ClaimedIds(s.claims) + CreatedBy(s, t)
  {
    var t := Next(cfg, s, a);
    if a.ReconcileClaimed? && Enabled(cfg, s, a) {
      assert Issued(s, t, CreateVm(a.id)) && t.claims == s.claims + [Claim(a.id, s.rows[a.id].createdAt)];
    } else {
      if !a.ReconcileClaimed? { ClaimsFrame(cfg, s, a); }
      if OfAgent(a) {
        AgentFrame(cfg, s, a);
      } else {
        ServiceIssues(cfg, s, a);
        if CreatedBy(s, t) != [] { OnlyClaimsCreate(cfg, s, a, t.agent.queue[|s.agent.queue|].request); }
      }
    }
  }

  lemma {:induction false} CreatesAreClaims(cfg: Config, s: System, run: seq<Action>)
    ensures ClaimedIds(Execute(cfg, s, run).claims) == ClaimedIds(s.claims) + Creates(cfg, s, run)
    decreases |run|
  {
    if run != [] {
      var t := Next(cfg, s, run[0]);
      AStepCreatesWhatItClaims(cfg, s, run[0]);
      CreatesAreClaims(cfg, t, run[1..]);
      Regroup(ClaimedIds(s.claims), CreatedBy(s, t), Creates(cfg, t, run[1..]));
    }
  }

  /** A run issues the creates of exactly the claimed rows, in the order of the claims, so
      in order of admission, and never two for the same row. */
  lemma CreatesAreIssuedOnce(cfg: Config, start: int, run: seq<Action>)
    ensures var creates := Creates(cfg, Initial(start), run); var claims := Execute(cfg, Initial(start), run).claims;
      && |creates| == |claims| && (forall i :: 0 <= i < |creates| ==> creates[i] == claims[i].id)
      && (forall i, j :: 0 <= i < j < |creates| ==> creates[i] != creates[j] && claims[i].createdAt <= claims[j].createdAt)
  {
    CreatesAreClaims(cfg, Initial(start), run);
    ClaimsAndStopsAreSingle(cfg, start, run);
    SameIds(Execute(cfg, Initial(start), run).claims, Creates(cfg, Initial(start), run));
  }

  lemma SameIds(claims: seq<Claim>, creates: seq<Id>)
    requires ClaimedIds(claims) == ClaimedIds([]) + creates
    ensures |creates| == |claims| && forall i :: 0 <= i < |creates| ==> creates[i] == claims[i].id
  {
    assert ClaimedIds([]) + creates == creates;
    assert forall i :: 0 <= i < |claims| ==> ClaimedIds(claims)[i] == claims[i].id;
  }

  // ---- Histories -----------------------------------------------------------

  /** The states reachable from one another along the graph. */
  predicate Path(from: RowState, to: RowState) {
    || from == to
    || from.Queued?
    || (from.Provisioning? && !to.Queued?)
    || (from.Running? && !to.Queued? && !to.Provisioning?)
    || (from.Stopping? && to.Stopped?)
  }

  /** How one state's view of an id relates to a later state's. */
  ghost predicate Later(s: System, t: System, id: Id) {
    && (id in s.rows && id in t.rows ==>
          && Path(s.rows[id].state, t.rows[id].state)
          && (Ended(s.rows[id]) ==> t.rows[id] == s.rows[id])
          && t.rows[id].wallet == s.rows[id].wallet && t.rows[id].volume == s.rows[id].volume)
    && (id in s.creations && id !in s.rows ==> id !in t.rows)
    && (id in s.creations ==> id in t.creations)
    && (id in s.rows ==> id in s.creations)
  }

  lemma OneStepLater(cfg: Config, s: System, t: System, id: Id)
    requires RowsOk(cfg, s) && RowsStep(cfg, s, t)
    ensures Later(s, t, id)
  {
    if id in s.rows {
      assert RowOk(cfg, s, id);
      if id in t.rows { assert RowMove(s.now, s.rows[id], t.rows[id]); }
    }
  }

  lemma {:induction false} HistoryFrom(cfg: Config, s: System, run: seq<Action>, id: Id)
    requires RecordsOk(cfg, s)
    ensures Later(s, Execute(cfg, s, run), id)
    decreases |run|
  {
    if run == [] {
      if id in s.rows { assert RowOk(cfg, s, id); }
    } else {
      RecordsKept(cfg, s, run[0]);
      EveryActionIsARowsStep(cfg, s, run[0]);
      OneStepLater(cfg, s, Next(cfg, s, run[0]), id);
      HistoryFrom(cfg, Next(cfg, s, run[0]), run[1..], id);
    }
  }

  /** However a run continues, a row it knows moves only along the graph, an ended row
      stays exactly as it ended until it is deleted, and a deleted id never returns. */
  lemma HistoriesArePaths(cfg: Config, start: int, past: seq<Action>, future: seq<Action>, id: Id)
    ensures var s := Execute(cfg, Initial(start), past); var t := Execute(cfg, s, future);
      && (id in s.rows && id in t.rows ==>
            && Path(s.rows[id].state, t.rows[id].state)
            && (Ended(s.rows[id]) ==> t.rows[id] == s.rows[id]))
      && (id in s.creations && id !in s.rows ==> id !in t.rows)
  {
    InitiallyOk(cfg, start);
    RecordsHold(cfg, Initial(start), past);
    HistoryFrom(cfg, Execute(cfg, Initial(start), past), future, id);
  }

  // ---- Why issue order matters ---------------------------------------------

  /** The create and the stop of one row wait at the agent, in this order, and the stop
      is under way. */
  predicate CreateAndStopWait(s: System, id: Id, waiting: seq<Call>, k: Ticket) {
    && s.agent.queue == waiting + [Call(k, CreateVm(id)), Call(k + 1, StopVm(id))]
    && id in s.rows && s.rows[id].state.Stopping?
    && k + 1 in s.memory.operations && s.memory.operations[k + 1] == StopOperation(id, false)
  }

  /** Wherever a row can be claimed that is the newest active one of its wallet, the claim
      and its owner's stop leave the create and the stop waiting at the agent together. */
  lemma ClaimThenStop(cfg: Config, s: System, id: Id, wallet: Wallet)
    requires RecordsOk(cfg, s) && Enabled(cfg, s, ReconcileClaimed(id)) && NewestActive(s, wallet, id)
    ensures CreateAndStopWait(Next(cfg, Next(cfg, s, ReconcileClaimed(id)), StopCurrent(wallet, id)), id, s.agent.queue, s.nextTicket)
  {
    var s1 := Next(cfg, s, ReconcileClaimed(id));
    ClaimQueuesACreate(cfg, s, id, wallet);
    StopQueuesAStop(cfg, s1, id, wallet);
    assert s.agent.queue + [Call(s.nextTicket, CreateVm(id))] + [Call(s.nextTicket + 1, StopVm(id))]
        == s.agent.queue + [Call(s.nextTicket, CreateVm(id)), Call(s.nextTicket + 1, StopVm(id))];
  }

  lemma ClaimQueuesACreate(cfg: Config, s: System, id: Id, wallet: Wallet)
    requires RecordsOk(cfg, s) && Enabled(cfg, s, ReconcileClaimed(id)) && NewestActive(s, wallet, id)
    ensures var t := Next(cfg, s, ReconcileClaimed(id));
      && NewestActive(t, wallet, id) && t.rows[id].state.Provisioning? && id !in t.memory.stopOperations
      && Issued(s, t, CreateVm(id))
  {
    var t := Next(cfg, s, ReconcileClaimed(id));
    assert OperationsPastQueue(s);
    assert forall k :: k in s.memory.operations ==> PastQueue(s, s.memory.operations[k].id);
    assert ActiveOfWallet(t.rows, wallet) == ActiveOfWallet(s.rows, wallet);
  }

  lemma StopQueuesAStop(cfg: Config, s: System, id: Id, wallet: Wallet)
    requires NewestActive(s, wallet, id) && s.rows[id].state.Provisioning? && id !in s.memory.stopOperations
    ensures var t := Next(cfg, s, StopCurrent(wallet, id));
      && id in t.rows && t.rows[id].state.Stopping? && Issued(s, t, StopVm(id))
      && s.nextTicket in t.memory.operations && t.memory.operations[s.nextTicket] == StopOperation(id, false)
  {
  }

  /** The assumption is needed: when a create and the stop of the same row both wait,
      an agent that takes the stop first ends with a machine for a row that has ended. */
  lemma OvertakingStrandsAMachine(cfg: Config, s: System, id: Id, waiting: seq<Call>, k: Ticket)
    requires CreateAndStopWait(s, id, waiting, k)
    ensures var t := Next(cfg, Next(cfg, Next(cfg, s, AgentApplies(|waiting| + 1, true)), StopReplied(k + 1, true)),
                          AgentApplies(|waiting|, true));
      id in t.agent.live && id in t.rows && t.rows[id].state.Stopped?
  {
    var s1 := Next(cfg, s, AgentApplies(|waiting| + 1, true));
    assert s1.agent.queue == waiting + [Call(k, CreateVm(id))];
    var s2 := Next(cfg, s1, StopReplied(k + 1, true));
    assert s2.rows == EndRow(s.rows, id, Stopped, s.now) && s2.agent == s1.agent;
  }
}
