/** The service object itself: each method is one span of the code between awaits,
    and changes the fields exactly as one action of the lifecycle. */
module WorkspaceService {
  import opened Basics
  import opened Lifecycle
  import opened Texts

  /** A query's rows in some order, each once. */
  method Listing<T(==)>(all: set<T>) returns (list: seq<T>)
    ensures Enumerates(list, all)
  {
    list := [];
    var rest := all;
    while rest != {}
      invariant rest <= all && |list| + |rest| == |all|
      invariant forall x :: x in list ==> x in all
      invariant forall x :: x in all ==> x in rest || x in list
      decreases rest
    {
      var x :| x in rest;
      list := list + [x];
      rest := rest - {x};
    }
  }

  class WorkspaceService {
    const config: Config
    var now: int
    var rows: map<Id, Row>
    var volumes: map<VolumeId, Volume>
    var reconciliation: Progress
    var stopOperations: map<Id, Ticket>
    var operations: map<Ticket, StopOperation>
    var destroyingVolumes: set<Wallet>
    var destroyCalls: map<Ticket, DestroyCall>
    var agent: Agent
    var nextTicket: Ticket
    ghost var creations: map<Id, Creation>
    ghost var claims: seq<Claim>

    ghost function Model(): System
      reads this
    {
      System(now, rows, volumes, Memory(reconciliation, stopOperations, operations, destroyingVolumes, destroyCalls),
             agent, nextTicket, creations, claims)
    }

    constructor (config: Config, now: int)
      ensures Model() == Initial(now) && this.config == config
    {
      this.config, this.now := config, now;
      rows, volumes, reconciliation := map[], map[], Idle;
      stopOperations, operations, destroyingVolumes, destroyCalls := map[], map[], {}, map[];
      agent, nextTicket, creations, claims := Agent([], {}, {}, map[]), 0, map[], [];
    }

    /** Puts a request behind those already issued. */
    method Send(request: Request) returns (ticket: Ticket)
      modifies this`agent, this`nextTicket
      ensures Model() == Issue(old(Model()), request) && ticket == old(nextTicket)
    {
      ticket := nextTicket;
      agent := agent.(queue := agent.queue + [Call(ticket, request)]);
      nextTicket := nextTicket + 1;
    }

    /** The questions `create` asks before it writes anything. */
    method Refuse(owner: Wallet, ip: IpHash, persistent: bool) returns (refusal: Option<WorkspaceError>)
      ensures refusal == Refusal(config, Model(), owner, ip, persistent)
    {
      if persistent && !config.persistence { return Some(WorkspaceError(501)); }
      if persistent && owner in destroyingVolumes { return Some(WorkspaceError(409)); }
      if |ActiveOfWallet(rows, owner)| >= config.maxActivePerWallet { return Some(WorkspaceError(409)); }
      if |ActiveOfIp(rows, ip)| >= config.maxActivePerIp { return Some(WorkspaceError(429)); }
      var since := now - DAY;
      if |RecentOfWallet(rows, owner, since)| >= config.dailyPerWallet { return Some(WorkspaceError(429)); }
      if |RecentOfIp(rows, ip, since)| >= config.dailyPerIp { return Some(WorkspaceError(429)); }
      if |QueuedRows(rows)| >= config.maxQueue { return Some(WorkspaceError(503)); }
      refusal := None;
    }

    /** The wallet's undestroyed volume, or a new one. */
    method GetOrCreateVolume(owner: Wallet, freshVolume: VolumeId) returns (volume: VolumeId)
      requires freshVolume !in volumes
      modifies this`volumes
      ensures if LiveVolumes(old(volumes), owner) == {} then volume == freshVolume else volume in LiveVolumes(old(volumes), owner)
      ensures volumes == AttachVolume(old(Model()), owner, volume)
    {
      var existing := LiveVolumes(volumes, owner);
      if existing != {} {
        volume :| volume in existing;
        volumes := volumes[volume := volumes[volume].(lastAttachedAt := now)];
      } else {
        volume := freshVolume;
        volumes := volumes[volume := Volume(owner, now, now, None)];
      }
    }

    /** Admits the workspace, or refuses it and changes nothing. */
    method Create(wallet: string, ip: IpHash, persistent: bool, freshId: Id, freshVolume: VolumeId)
      returns (result: Result<Id, WorkspaceError>, volume: VolumeId)
      requires freshId !in creations && freshVolume !in volumes
      modifies this`rows, this`volumes, this`creations
      ensures var refusal := Refusal(config, old(Model()), Lower(wallet), ip, persistent);
        if refusal.Some? then result == Err(refusal.value) && Model() == old(Model())
        else && result == Ok(freshId)
             && Enabled(config, old(Model()), Lifecycle.Create(Lower(wallet), ip, persistent, freshId, volume))
             && Model() == Next(config, old(Model()), Lifecycle.Create(Lower(wallet), ip, persistent, freshId, volume))
    {
      var owner := Lower(wallet);
      volume := freshVolume;
      var refusal := Refuse(owner, ip, persistent);
      if refusal.Some? { return Err(refusal.value), volume; }
      if persistent { volume := GetOrCreateVolume(owner, freshVolume); }
      rows := rows[freshId := Row(owner, ip, Queued, now, now + config.leaseMs, None, if persistent then Some(volume) else None)];
      creations := creations[freshId := Creation(owner, ip, now)];
      result := Ok(freshId);
    }

    /** Returns the stop operation of the row, starting one when none is registered. */
    method StopRow(id: Id) returns (operation: Ticket)
      modifies this`agent, this`nextTicket, this`operations, this`stopOperations
      ensures Model() == StopWorkspace(old(Model()), id)
      ensures id in stopOperations && stopOperations[id] == operation
    {
      if id in stopOperations { return stopOperations[id]; }
      operation := Send(StopVm(id));
      operations := operations[operation := StopOperation(id, false)];
      stopOperations := stopOperations[id := operation];
    }

    /** The owner's stop, up to the await: nothing at all when no workspace is active. */
    method StopOwned(wallet: string) returns (stopped: Option<Id>)
      modifies this
      ensures match stopped
        case Some(id) =>
          && Enabled(config, old(Model()), StopCurrent(Lower(wallet), id))
          && Model() == Next(config, old(Model()), StopCurrent(Lower(wallet), id))
        case None => ActiveOfWallet(old(rows), Lower(wallet)) == {} && Model() == old(Model())
    {
      var owned := ActiveOfWallet(rows, Lower(wallet));
      if owned == {} { return None; }
      var id :| id in owned;
      var rest := owned - {id};
      while rest != {}
        invariant id in owned && rest <= owned && Model() == old(Model())
        invariant forall other :: other in owned && other !in rest ==> rows[other].createdAt <= rows[id].createdAt
        decreases rest
      {
        var other :| other in rest;
        rest := rest - {other};
        if rows[other].createdAt > rows[id].createdAt { id := other; }
      }
      if !rows[id].state.Stopping? { rows := rows[id := rows[id].(state := Stopping)]; }
      var operation := StopRow(id);
      stopped := Some(id);
    }

    /** The agent's answer to a stop, or the failure to get one. */
    method StopAnswered(ticket: Ticket, ok: bool)
      requires Enabled(config, Model(), StopReplied(ticket, ok))
      modifies this`rows, this`operations
      ensures Model() == Next(config, old(Model()), StopReplied(ticket, ok))
    {
      var id := operations[ticket].id;
      operations := operations[ticket := operations[ticket].(settled := true)];
      if ok && id in rows && rows[id].state.Stopping? {
        rows := rows[id := rows[id].(state := Stopped, stoppedAt := Some(now))];
      }
    }

    /** The settled operation's clean-up callback. */
    method StopForgotten(ticket: Ticket)
      requires Enabled(config, Model(), StopCleared(ticket))
      modifies this`operations, this`stopOperations
      ensures Model() == Next(config, old(Model()), StopCleared(ticket))
    {
      var id := operations[ticket].id;
      operations := operations - {ticket};
      if id in stopOperations && stopOperations[id] == ticket { stopOperations := stopOperations - {id}; }
    }

    /** Starts destroying the wallet's volume, or refuses and changes nothing. */
    method DestroyVolume(wallet: string) returns (result: Result<VolumeId, WorkspaceError>)
      modifies this
      ensures match result
        case Ok(v) =>
          && Enabled(config, old(Model()), DestroyRequested(Lower(wallet), v))
          && Model() == Next(config, old(Model()), DestroyRequested(Lower(wallet), v))
        case Err(e) => Some(e) == DestroyRefusal(old(Model()), Lower(wallet)) && Model() == old(Model())
    {
      var owner := Lower(wallet);
      var existing := LiveVolumes(volumes, owner);
      if existing == {} { return Err(WorkspaceError(404)); }
      if exists v :: v in existing && Attached(rows, v) { return Err(WorkspaceError(409)); }
      if owner in destroyingVolumes { return Err(WorkspaceError(409)); }
      var volume :| volume in existing;
      destroyingVolumes := destroyingVolumes + {owner};
      var ticket := Send(DestroyDisk(volume));
      destroyCalls := destroyCalls[ticket := DestroyCall(owner, volume)];
      result := Ok(volume);
    }

    /** The rest of the destruction: the volume is marked on success, and the wallet is
        released on success and failure alike. */
    method DestroyAnswered(ticket: Ticket, ok: bool)
      requires Enabled(config, Model(), DestroyReplied(ticket, ok))
      modifies this`volumes, this`destroyingVolumes, this`destroyCalls
      ensures Model() == Next(config, old(Model()), DestroyReplied(ticket, ok))
    {
      var call := destroyCalls[ticket];
      if ok && call.volume in volumes && volumes[call.volume].destroyedAt.None? {
        volumes := volumes[call.volume := volumes[call.volume].(destroyedAt := Some(now))];
      }
      destroyCalls := destroyCalls - {ticket};
      destroyingVolumes := destroyingVolumes - {call.wallet};
    }

    /** Starts a reconciliation unless one is running. */
    method Reconcile() returns (started: bool, stopping: seq<Id>)
      modifies this`rows, this`reconciliation
      ensures started == old(reconciliation.Idle?)
      ensures started ==> Enabled(config, old(Model()), ReconcileStarted(stopping))
      ensures Model() == if started then Next(config, old(Model()), ReconcileStarted(stopping)) else old(Model())
    {
      if !reconciliation.Idle? { return false, []; }
      rows := map id | id in rows :: ExpireRow(rows[id], now);
      stopping := Listing(StoppingRows(rows));
      reconciliation := StopLoop(stopping);
      started := true;
    }

    /** Runs the reconciler from one await to the next loop head. */
    method StopStep()
      requires Enabled(config, Model(), ReconcileStopNext)
      modifies this`agent, this`nextTicket, this`operations, this`stopOperations, this`reconciliation
      ensures Model() == Next(config, old(Model()), ReconcileStopNext)
    {
      var todo := reconciliation.stopTodo;
      var operation := StopRow(todo[0]);
      reconciliation := StopWait(operation, todo[1..]);
    }

    method CheckStart() returns (active: seq<Snapshot>)
      requires reconciliation == StopLoop([])
      modifies this`reconciliation
      ensures Enabled(config, old(Model()), ReconcileListed(active))
      ensures Model() == Next(config, old(Model()), ReconcileListed(active))
    {
      active := Listing(CheckableRows(rows));
      reconciliation := CheckLoop(active);
    }

    method CheckStep()
      requires Enabled(config, Model(), ReconcileStatusNext)
      modifies this`agent, this`nextTicket, this`reconciliation
      ensures Model() == Next(config, old(Model()), ReconcileStatusNext)
    {
      var todo := reconciliation.checkTodo;
      var ticket := Send(ReadStatus(todo[0].id));
      reconciliation := CheckWait(ticket, todo[0], todo[1..]);
    }

    method CheckAnswered(ok: bool)
      requires Enabled(config, Model(), ReconcileStatusReplied(ok))
      modifies this`rows, this`reconciliation
      ensures Model() == Next(config, old(Model()), ReconcileStatusReplied(ok))
    {
      var at := reconciliation.checking;
      if ok && at.id in rows {
        var running := agent.replies[reconciliation.statusCall].running;
        if running && at.provisioning {
          if rows[at.id].state.Provisioning? { rows := rows[at.id := rows[at.id].(state := Running)]; }
        } else if !running {
          if rows[at.id].state.Running? || rows[at.id].state.Provisioning? {
            rows := rows[at.id := rows[at.id].(state := Failed, stoppedAt := Some(now))];
          }
        }
      }
      reconciliation := CheckLoop(reconciliation.checkTodo);
    }

    method CountCapacity()
      requires reconciliation == CheckLoop([])
      modifies this`reconciliation
      ensures Model() == Next(config, old(Model()), ReconcileCounted)
    {
      reconciliation := ClaimLoop(config.maxRunning - |HoldingRows(rows)|);
    }

    /** The claim query: the oldest queued row whose lease has not expired. */
    method OldestQueued() returns (found: Option<Id>)
      ensures match found
        case Some(id) => OldestClaimable(Model(), id)
        case None => forall id :: id in rows ==> !Claimable(Model(), id)
    {
      var candidates := set id | id in rows && rows[id].state.Queued? && rows[id].leaseExpiresAt > now;
      assert forall id :: Claimable(Model(), id) <==> id in candidates;
      if candidates == {} { return None; }
      var oldest :| oldest in candidates;
      var rest := candidates - {oldest};
      while rest != {}
        invariant oldest in candidates && rest <= candidates
        invariant forall other :: other in candidates && other !in rest ==> rows[oldest].createdAt <= rows[other].createdAt
        decreases rest
      {
        var other :| other in rest;
        rest := rest - {other};
        if rows[other].createdAt < rows[oldest].createdAt { oldest := other; }
      }
      found := Some(oldest);
    }

    /** The claim of one row, up to the await of its create. */
    method ClaimRow(id: Id)
      requires Enabled(config, Model(), ReconcileClaimed(id))
      modifies this`rows, this`reconciliation, this`agent, this`nextTicket, this`claims
      ensures Model() == Next(config, old(Model()), ReconcileClaimed(id))
    {
      claims := claims + [Claim(id, rows[id].createdAt)];
      rows := rows[id := rows[id].(state := Provisioning)];
      var ticket := Send(CreateVm(id));
      reconciliation := ClaimWait(ticket, id, reconciliation.capacity - 1);
    }

    /** One turn of the claim loop up to its await: claims the oldest unexpired queued
        row, or ends the reconciliation when capacity or candidates have run out. */
    method ClaimStep() returns (claimed: Option<Id>)
      requires reconciliation.ClaimLoop?
      modifies this`rows, this`reconciliation, this`agent, this`nextTicket, this`claims
      ensures match claimed
        case Some(id) =>
          && Enabled(config, old(Model()), ReconcileClaimed(id))
          && Model() == Next(config, old(Model()), ReconcileClaimed(id))
        case None =>
          && Enabled(config, old(Model()), ReconcileFinished)
          && Model() == Next(config, old(Model()), ReconcileFinished)
    {
      claimed := None;
      if reconciliation.capacity > 0 { claimed := OldestQueued(); }
      if claimed.Some? {
        ClaimRow(claimed.value);
      } else {
        reconciliation := Idle;
      }
    }

    method CreateAnswered(ok: bool)
      requires Enabled(config, Model(), ReconcileCreateReplied(ok))
      modifies this`rows, this`reconciliation
      ensures Model() == Next(config, old(Model()), ReconcileCreateReplied(ok))
    {
      var id := reconciliation.creating;
      if ok && id in rows && rows[id].state.Provisioning? { rows := rows[id := rows[id].(state := Running)]; }
      reconciliation := ClaimLoop(reconciliation.capacity);
    }

    // ---- A whole reconciliation ----------------------------------------------

    /** `run` is an account of what has happened since `s`. */
    ghost predicate Follows(s: System, run: seq<Action>)
      reads this
    {
      Model() == Execute(config, s, run) && InIssueOrder(run)
    }

    lemma Recorded(s: System, run: seq<Action>, t: System, a: Action)
      requires t == Execute(config, s, run) && InIssueOrder(run) && Enabled(config, t, a) && (a.AgentApplies? ==> a.index == 0)
      ensures Next(config, t, a) == Execute(config, s, run + [a]) && InIssueOrder(run + [a])
    {
      ExecuteAppend(config, s, run, [a]);
      assert Execute(config, t, [a]) == Execute(config, Next(config, t, a), []);
    }

    /** What may happen while the reconciler waits, short of a request of an owner: the agent
        takes its next request, a machine exits, a settled stop is cleared, time passes. */
    method Await(ghost s: System, ghost past: seq<Action>) returns (ghost run: seq<Action>)
      requires Follows(s, past)
      modifies this`agent, this`operations, this`stopOperations, this`now
      ensures Follows(s, run) && now >= old(now)
    {
      run := past;
      var steps: nat := *;
      while steps > 0
        invariant Follows(s, run) && now >= old(now)
      {
        var what: nat := *;
        match what {
          case 0 => run := AgentTakesOne(s, run);
          case 1 => run := MachineExits(s, run);
          case 2 => run := StopIsCleared(s, run);
          case _ => run := TimePasses(s, run);
        }
        steps := steps - 1;
      }
    }

    method AgentTakesOne(ghost s: System, ghost past: seq<Action>) returns (ghost run: seq<Action>)
      requires Follows(s, past)
      modifies this`agent
      ensures Follows(s, run)
    {
      run := past;
      if agent.queue != [] {
        var effect := *;
        Recorded(s, past, Model(), AgentApplies(0, effect));
        agent := ApplyCall(agent, 0, effect);
        run := past + [AgentApplies(0, effect)];
      }
    }

    method MachineExits(ghost s: System, ghost past: seq<Action>) returns (ghost run: seq<Action>)
      requires Follows(s, past)
      modifies this`agent
      ensures Follows(s, run)
    {
      run := past;
      if agent.live != {} {
        var id :| id in agent.live;
        Recorded(s, past, Model(), VmExits(id));
        agent := agent.(live := agent.live - {id});
        run := past + [VmExits(id)];
      }
    }

    method StopIsCleared(ghost s: System, ghost past: seq<Action>) returns (ghost run: seq<Action>)
      requires Follows(s, past)
      modifies this`operations, this`stopOperations
      ensures Follows(s, run)
    {
      run := past;
      if ticket :| ticket in operations && operations[ticket].settled {
        Recorded(s, past, Model(), StopCleared(ticket));
        StopForgotten(ticket);
        run := past + [StopCleared(ticket)];
      }
    }

    method TimePasses(ghost s: System, ghost past: seq<Action>) returns (ghost run: seq<Action>)
      requires Follows(s, past)
      modifies this`now
      ensures Follows(s, run) && now >= old(now)
    {
      var later: int := *;
      later := Max(later, now);
      Recorded(s, past, Model(), Tick(later));
      now := later;
      run := past + [Tick(later)];
    }

    /** The end of the awaited stop, which may have been settled before. */
    method StopDone()
      requires Enabled(config, Model(), ReconcileStopDone)
      modifies this`reconciliation
      ensures Model() == Next(config, old(Model()), ReconcileStopDone)
    {
      reconciliation := StopLoop(reconciliation.stopTodo);
    }

    /** Every row whose lease had expired at that time, now past, is stopping or has ended. */
    predicate NoneOverdue(since: int)
      reads this
    {
      && now >= since
      && forall id :: id in rows && rows[id].leaseExpiresAt <= since ==>
           rows[id].state.Stopping? || rows[id].state.Stopped? || rows[id].state.Failed?
    }

    /** What the awaited stop comes to, unless it was settled before. */
    method SettleStop(ghost s: System, ghost past: seq<Action>) returns (ghost run: seq<Action>)
      requires Follows(s, past) && reconciliation.StopWait? && NoneOverdue(s.now)
      modifies this`rows, this`operations
      ensures Follows(s, run) && NoneOverdue(s.now) && Enabled(config, Model(), ReconcileStopDone)
    {
      run := past;
      var operation := reconciliation.operation;
      if operation in operations && !operations[operation].settled {
        var ok := *;
        ok := ok && operation in agent.replies;
        Recorded(s, run, Model(), StopReplied(operation, ok));
        StopAnswered(operation, ok);
        run := run + [StopReplied(operation, ok)];
      }
    }

    method StopTurn(ghost s: System, ghost past: seq<Action>) returns (ghost run: seq<Action>)
      requires Follows(s, past) && reconciliation.StopLoop? && reconciliation.stopTodo != [] && NoneOverdue(s.now)
      modifies this`rows, this`reconciliation, this`agent, this`nextTicket, this`operations, this`stopOperations, this`now
      ensures Follows(s, run) && reconciliation == StopLoop(old(reconciliation.stopTodo)[1..]) && NoneOverdue(s.now)
    {
      run := AskToStop(s, past);
      run := Await(s, run);
      run := SettleStop(s, run);
      run := LeaveStop(s, run);
    }

    method AskToStop(ghost s: System, ghost past: seq<Action>) returns (ghost run: seq<Action>)
      requires Follows(s, past) && reconciliation.StopLoop? && reconciliation.stopTodo != [] && NoneOverdue(s.now)
      modifies this`reconciliation, this`agent, this`nextTicket, this`operations, this`stopOperations
      ensures Follows(s, run) && NoneOverdue(s.now)
      ensures reconciliation.StopWait? && reconciliation.stopTodo == old(reconciliation.stopTodo)[1..]
    {
      Recorded(s, past, Model(), ReconcileStopNext);
      StopStep();
      run := past + [ReconcileStopNext];
    }

    method LeaveStop(ghost s: System, ghost past: seq<Action>) returns (ghost run: seq<Action>)
      requires Follows(s, past) && Enabled(config, Model(), ReconcileStopDone) && NoneOverdue(s.now)
      modifies this`reconciliation
      ensures Follows(s, run) && reconciliation == StopLoop(old(reconciliation.stopTodo)) && NoneOverdue(s.now)
    {
      Recorded(s, past, Model(), ReconcileStopDone);
      StopDone();
      run := past + [ReconcileStopDone];
    }

    /** The stop loop: every row that was stopping is asked to stop, and its stop awaited. */
    method StopAll(ghost s: System, ghost past: seq<Action>) returns (ghost run: seq<Action>)
      requires Follows(s, past) && reconciliation.StopLoop? && NoneOverdue(s.now)
      modifies this`rows, this`reconciliation, this`agent, this`nextTicket, this`operations, this`stopOperations, this`now
      ensures Follows(s, run) && reconciliation == StopLoop([]) && NoneOverdue(s.now)
    {
      run := past;
      while reconciliation.stopTodo != []
        invariant Follows(s, run) && reconciliation.StopLoop? && NoneOverdue(s.now)
        decreases |reconciliation.stopTodo|
      {
        run := StopTurn(s, run);
      }
    }

    /** The status request that was sent is answered, or fails. */
    method SettleCheck(ghost s: System, ghost past: seq<Action>) returns (ghost run: seq<Action>)
      requires Follows(s, past) && reconciliation.CheckWait? && NoneOverdue(s.now)
      modifies this`rows, this`reconciliation
      ensures Follows(s, run) && reconciliation == CheckLoop(old(reconciliation.checkTodo)) && NoneOverdue(s.now)
    {
      var ok := *;
      ok := ok && reconciliation.statusCall in agent.replies && agent.replies[reconciliation.statusCall].Observed?;
      Recorded(s, past, Model(), ReconcileStatusReplied(ok));
      CheckAnswered(ok);
      run := past + [ReconcileStatusReplied(ok)];
    }

    method CheckTurn(ghost s: System, ghost past: seq<Action>) returns (ghost run: seq<Action>)
      requires Follows(s, past) && reconciliation.CheckLoop? && reconciliation.checkTodo != [] && NoneOverdue(s.now)
      modifies this`rows, this`reconciliation, this`agent, this`nextTicket, this`operations, this`stopOperations, this`now
      ensures Follows(s, run) && reconciliation == CheckLoop(old(reconciliation.checkTodo)[1..]) && NoneOverdue(s.now)
    {
      Recorded(s, past, Model(), ReconcileStatusNext);
      CheckStep();
      run := Await(s, past + [ReconcileStatusNext]);
      run := SettleCheck(s, run);
    }

    /** The status loop over the snapshot it starts with. */
    method CheckAll(ghost s: System, ghost past: seq<Action>) returns (ghost run: seq<Action>)
      requires Follows(s, past) && reconciliation == StopLoop([]) && NoneOverdue(s.now)
      modifies this`rows, this`reconciliation, this`agent, this`nextTicket, this`operations, this`stopOperations, this`now
      ensures Follows(s, run) && reconciliation == CheckLoop([]) && NoneOverdue(s.now)
    {
      ghost var before := Model();
      var active := CheckStart();
      Recorded(s, past, before, ReconcileListed(active));
      run := past + [ReconcileListed(active)];
      while reconciliation.checkTodo != []
        invariant Follows(s, run) && reconciliation.CheckLoop? && NoneOverdue(s.now)
        decreases |reconciliation.checkTodo|
      {
        run := CheckTurn(s, run);
      }
    }

    /** No more can be claimed: all slots are taken, or no workspace waits for one. */
    ghost predicate Exhausted()
      reads this
    {
      |HoldingRows(rows)| >= config.maxRunning || forall id :: id in rows ==> !Claimable(Model(), id)
    }

    /** The create that was sent is answered, or fails. */
    method SettleCreate(ghost s: System, ghost past: seq<Action>) returns (ghost run: seq<Action>)
      requires Follows(s, past) && reconciliation.ClaimWait? && NoneOverdue(s.now)
      modifies this`rows, this`reconciliation, this`agent, this`operations, this`stopOperations, this`now
      ensures Follows(s, run) && reconciliation == ClaimLoop(old(reconciliation.capacity)) && NoneOverdue(s.now)
      ensures HoldingRows(rows) == HoldingRows(old(rows))
    {
      run := Await(s, past);
      var ok := *;
      ok := ok && reconciliation.createCall in agent.replies;
      Recorded(s, run, Model(), ReconcileCreateReplied(ok));
      CreateAnswered(ok);
      run := run + [ReconcileCreateReplied(ok)];
    }

    lemma ClaimingTakesASlot(rows: map<Id, Row>, id: Id)
      requires id in rows && rows[id].state.Queued?
      ensures |HoldingRows(SetState(rows, id, Provisioning))| == |HoldingRows(rows)| + 1
    {
      assert HoldingRows(SetState(rows, id, Provisioning)) == HoldingRows(rows) + {id};
    }

    method ClaimTurn(ghost s: System, ghost past: seq<Action>) returns (ghost run: seq<Action>)
      requires Follows(s, past) && reconciliation.ClaimLoop? && NoneOverdue(s.now)
      requires reconciliation.capacity == config.maxRunning - |HoldingRows(rows)|
      modifies this`rows, this`reconciliation, this`agent, this`nextTicket, this`operations, this`stopOperations, this`now, this`claims
      ensures Follows(s, run) && NoneOverdue(s.now)
      ensures match reconciliation
        case Idle => Exhausted()
        case ClaimLoop(capacity) =>
          old(reconciliation.capacity) > 0 && capacity == old(reconciliation.capacity) - 1 == config.maxRunning - |HoldingRows(rows)|
        case _ => false
    {
      ghost var before := Model();
      var claimed := ClaimStep();
      if claimed.None? {
        Recorded(s, past, before, ReconcileFinished);
        run := past + [ReconcileFinished];
      } else {
        Recorded(s, past, before, ReconcileClaimed(claimed.value));
        ClaimingTakesASlot(before.rows, claimed.value);
        run := SettleCreate(s, past + [ReconcileClaimed(claimed.value)]);
      }
    }

    /** Between two turns of the claim loop, and after the last. */
    ghost predicate BetweenClaims()
      reads this
    {
      match reconciliation
      case Idle => Exhausted()
      case ClaimLoop(capacity) => capacity == config.maxRunning - |HoldingRows(rows)|
      case _ => false
    }

    /** The claim loop, with the capacity counted once. */
    method ClaimAll(ghost s: System, ghost past: seq<Action>) returns (ghost run: seq<Action>)
      requires Follows(s, past) && reconciliation.ClaimLoop? && BetweenClaims() && NoneOverdue(s.now)
      modifies this`rows, this`reconciliation, this`agent, this`nextTicket, this`operations, this`stopOperations, this`now, this`claims
      ensures Follows(s, run) && reconciliation.Idle? && NoneOverdue(s.now) && Exhausted()
    {
      run := past;
      while !reconciliation.Idle?
        invariant Follows(s, run) && NoneOverdue(s.now) && BetweenClaims()
        decreases if reconciliation.ClaimLoop? then 1 + Max(reconciliation.capacity, 0) else 0
      {
        run := ClaimTurn(s, run);
      }
    }

    /** A reconciliation that no request of an owner interrupts, whatever the agent does with
        what it is asked, machines exit or time passes: a run of the model, after which no
        row is left running whose lease had expired at its start, and either the slots are
        all taken or no workspace waits for one. */
    method RunReconciliation() returns (ghost run: seq<Action>)
      requires reconciliation.Idle?
      modifies this`rows, this`reconciliation, this`agent, this`nextTicket, this`operations, this`stopOperations, this`now, this`claims
      ensures Follows(old(Model()), run) && reconciliation.Idle? && NoneOverdue(old(now)) && Exhausted()
    {
      ghost var s := Model();
      var started, stopping := Reconcile();
      run := [];
      Recorded(s, run, s, ReconcileStarted(stopping));
      run := StopAll(s, run + [ReconcileStarted(stopping)]);
      run := CheckAll(s, run);
      Recorded(s, run, Model(), ReconcileCounted);
      CountCapacity();
      run := ClaimAll(s, run + [ReconcileCounted]);
    }

    /** The control plane's periodic clean-up of ended rows past the retention period. */
    method Cleanup()
      modifies this`rows
      ensures Model() == Next(config, old(Model()), Lifecycle.Cleanup)
    {
      rows := map id | id in rows && Retained(rows[id], now) :: rows[id];
    }
  }
}
