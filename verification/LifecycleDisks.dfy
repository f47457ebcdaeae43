/** The disks behind the volumes. The rows' `destroyedAt` is what the control plane was
    told; a destruction whose reply failed or was forgotten may still remove the disk. */
module LifecycleDisks {
  import opened Basics
  import opened Lifecycle
  import opened LifecycleFrames
  import opened LifecycleInvariants
  import opened LifecycleAgent
  import opened LifecycleAdmission
  import opened LifecycleTheorems

  /** The disk is gone, or a request that removes it waits at the agent. */
  ghost predicate Doomed(s: System, v: VolumeId) {
    v in s.agent.erased || exists c :: c in s.agent.queue && c.request == DestroyDisk(v)
  }

  /** No active row is attached to a volume whose disk is gone or about to go. */
  ghost predicate DisksIntact(s: System) {
    forall id :: id in s.rows && s.rows[id].state.Active() && s.rows[id].volume.Some? ==> !Doomed(s, s.rows[id].volume.value)
  }

  /** No active row is attached to a volume whose disk is gone. */
  ghost predicate NothingLost(s: System) {
    forall id :: id in s.rows && s.rows[id].state.Active() && s.rows[id].volume.Some? ==> s.rows[id].volume.value !in s.agent.erased
  }

  lemma IntactMeansNothingLost(cfg: Config, s: System, i: nat)
    requires DisksIntact(s)
    ensures NothingLost(s) && NothingLost(Next(cfg, s, AgentApplies(i, true)))
  {
    if i < |s.agent.queue| { assert s.agent.queue[i] in s.agent.queue; }
  }

  /** The disks are intact exactly when none is lost and none would be if the agent took
      any one of the waiting requests now. */
  lemma IntactExactly(cfg: Config, s: System)
    ensures DisksIntact(s) <==> NothingLost(s) && forall i: nat :: NothingLost(Next(cfg, s, AgentApplies(i, true)))
  {
    if DisksIntact(s) {
      forall i: nat ensures NothingLost(Next(cfg, s, AgentApplies(i, true))) { IntactMeansNothingLost(cfg, s, i); }
    } else if NothingLost(s) {
      var id :| id in s.rows && s.rows[id].state.Active() && s.rows[id].volume.Some? && Doomed(s, s.rows[id].volume.value);
      var c :| c in s.agent.queue && c.request == DestroyDisk(s.rows[id].volume.value);
      var i :| 0 <= i < |s.agent.queue| && s.agent.queue[i] == c;
      assert Next(cfg, s, AgentApplies(i, true)).agent == ApplyCall(s.agent, i, true);
      assert !NothingLost(Next(cfg, s, AgentApplies(i, true)));
    }
  }

  ghost predicate Locked(s: System, v: VolumeId) {
    exists k :: k in s.memory.destroyCalls && s.memory.destroyCalls[k].volume == v
  }

  /** A volume that is doomed, while the control plane neither knows nor waits to hear. */
  ghost predicate Abandoned(s: System, v: VolumeId) {
    v in s.volumes && s.volumes[v].destroyedAt.None? && Doomed(s, v) && !Locked(s, v)
  }

  /** The action gives up on a destruction that has taken effect or still may: its reply
      is a failure, or the control plane restarts. */
  ghost predicate Abandons(cfg: Config, s: System, a: Action, v: VolumeId) {
    && Enabled(cfg, s, a) && v in s.volumes && Doomed(s, v)
    && exists k :: k in s.memory.destroyCalls && s.memory.destroyCalls[k].volume == v && (a == DestroyReplied(k, false) || a.Restart?)
  }

  ghost predicate AttachesAbandoned(cfg: Config, s: System, a: Action) {
    a.Create? && a.persistent && Enabled(cfg, s, a) && Abandoned(s, a.volume)
  }

  // ---- Invariants ----------------------------------------------------------

  /** A destruction the agent reports as done has removed the disk. */
  ghost predicate DestroyIsFinal(s: System, k: Ticket, v: VolumeId) {
    && k < s.nextTicket
    && (k in s.agent.replies ==> v in s.agent.erased)
    && (forall c :: c in s.agent.queue && c.ticket == k ==> c.request == DestroyDisk(v))
  }

  ghost predicate DisksOk(s: System) {
    && TicketsOk(s)
    && (forall v :: Doomed(s, v) ==> v in s.volumes)
    && (forall k :: k in s.memory.destroyCalls ==> DestroyIsFinal(s, k, s.memory.destroyCalls[k].volume))
    && (forall v :: v in s.volumes && s.volumes[v].destroyedAt.Some? ==> v in s.agent.erased)
  }

  lemma OnlyRequestsDestroy(cfg: Config, s: System, a: Action, v: VolumeId)
    requires Issued(s, Next(cfg, s, a), DestroyDisk(v))
    ensures a.DestroyRequested? && a.volume == v && Enabled(cfg, s, a)
  {
    assert Next(cfg, s, a).agent.queue[|s.agent.queue|] == Call(s.nextTicket, DestroyDisk(v));
    if !Issues(a) { AgentFrame(cfg, s, a); }
  }

  lemma ApplyingDoomsNothing(s: System, index: nat, effect: bool, v: VolumeId)
    requires index < |s.agent.queue| && Doomed(s.(agent := ApplyCall(s.agent, index, effect)), v)
    ensures Doomed(s, v)
  {
    assert s.agent.queue[index] in s.agent.queue;
  }

  lemma IssuingDoomsItsOwn(s: System, t: System, request: Request, v: VolumeId)
    requires Issued(s, t, request) && Doomed(t, v)
    ensures Doomed(s, v) || request == DestroyDisk(v)
  {
  }

  /** Only a request for it dooms a volume. */
  lemma DoomIsOldOrNew(cfg: Config, s: System, a: Action, v: VolumeId)
    requires Doomed(Next(cfg, s, a), v)
    ensures Doomed(s, v) || (a.DestroyRequested? && a.volume == v && Enabled(cfg, s, a))
  {
    var t := Next(cfg, s, a);
    if a.AgentApplies? {
      if Enabled(cfg, s, a) { ApplyingDoomsNothing(s, a.index, a.effect, v); }
    } else if !a.VmExits? {
      ServiceIssues(cfg, s, a);
      if t.nextTicket != s.nextTicket {
        var request := t.agent.queue[|s.agent.queue|].request;
        IssuingDoomsItsOwn(s, t, request, v);
        if request == DestroyDisk(v) { OnlyRequestsDestroy(cfg, s, a, v); }
      }
    }
  }

  lemma ErasedGrows(cfg: Config, s: System, a: Action)
    ensures s.agent.erased <= Next(cfg, s, a).agent.erased
  {
    if !OfAgent(a) { ServiceIssues(cfg, s, a); }
  }

  lemma AppliedDestroyIsFinal(s: System, index: nat, effect: bool, k: Ticket, v: VolumeId)
    requires TicketsOk(s) && DestroyIsFinal(s, k, v) && index < |s.agent.queue|
    ensures DestroyIsFinal(s.(agent := ApplyCall(s.agent, index, effect)), k, v)
  {
    assert s.agent.queue[index] in s.agent.queue;
  }

  lemma IssuingKeepsDestroyFinal(s: System, t: System, request: Request, k: Ticket, v: VolumeId)
    requires DestroyIsFinal(s, k, v) && Issued(s, t, request)
    ensures DestroyIsFinal(t, k, v)
  {
  }

  lemma OldDestroyStaysFinal(cfg: Config, s: System, a: Action, k: Ticket, v: VolumeId)
    requires TicketsOk(s) && DestroyIsFinal(s, k, v)
    ensures DestroyIsFinal(Next(cfg, s, a), k, v)
  {
    if a.AgentApplies? {
      if Enabled(cfg, s, a) { AppliedDestroyIsFinal(s, a.index, a.effect, k, v); }
    } else if !a.VmExits? {
      var t := Next(cfg, s, a);
      ServiceIssues(cfg, s, a);
      if t.nextTicket != s.nextTicket { IssuingKeepsDestroyFinal(s, t, t.agent.queue[|s.agent.queue|].request, k, v); }
    }
  }

  /** A destruction under way is either old, or this action has just asked for it. */
  lemma DestroyIsOldOrRequested(cfg: Config, s: System, a: Action, k: Ticket)
    requires k in Next(cfg, s, a).memory.destroyCalls
    ensures var t := Next(cfg, s, a);
      || (k in s.memory.destroyCalls && t.memory.destroyCalls[k] == s.memory.destroyCalls[k])
      || (k == s.nextTicket && Issued(s, t, DestroyDisk(t.memory.destroyCalls[k].volume)))
  {
    if !TouchesDestroys(a) { DestroysFrame(cfg, s, a); }
  }

  lemma DestroysStayFinal(cfg: Config, s: System, a: Action, k: Ticket)
    requires DisksOk(s) && k in Next(cfg, s, a).memory.destroyCalls
    ensures var t := Next(cfg, s, a); DestroyIsFinal(t, k, t.memory.destroyCalls[k].volume)
  {
    DestroyIsOldOrRequested(cfg, s, a, k);
    if k in s.memory.destroyCalls && Next(cfg, s, a).memory.destroyCalls[k] == s.memory.destroyCalls[k] {
      OldDestroyStaysFinal(cfg, s, a, k, s.memory.destroyCalls[k].volume);
    } else {
      NewDestroyIsFinal(s, Next(cfg, s, a), Next(cfg, s, a).memory.destroyCalls[k].volume);
    }
  }

  lemma NewDestroyIsFinal(s: System, t: System, v: VolumeId)
    requires TicketsOk(s) && Issued(s, t, DestroyDisk(v))
    ensures DestroyIsFinal(t, s.nextTicket, v)
  {
  }

  lemma MarkedMeansErased(cfg: Config, s: System, a: Action, v: VolumeId)
    requires DisksOk(s) && v in Next(cfg, s, a).volumes && Next(cfg, s, a).volumes[v].destroyedAt.Some?
    ensures v in Next(cfg, s, a).agent.erased
  {
    ErasedGrows(cfg, s, a);
    if !TouchesVolumes(a) {
      VolumesFrame(cfg, s, a);
    } else if a.DestroyReplied? && Enabled(cfg, s, a) {
      assert DestroyIsFinal(s, a.ticket, s.memory.destroyCalls[a.ticket].volume);
    }
  }

  lemma DisksKept(cfg: Config, s: System, a: Action)
    requires VolumesOk(s) && DisksOk(s)
    ensures DisksOk(Next(cfg, s, a))
  {
    var t := Next(cfg, s, a);
    TicketsKept(cfg, s, a);
    EveryActionIsAVolumesStep(cfg, s, a);
    forall v | Doomed(t, v) ensures v in t.volumes { DoomIsOldOrNew(cfg, s, a, v); }
    forall k | k in t.memory.destroyCalls ensures DestroyIsFinal(t, k, t.memory.destroyCalls[k].volume) {
      DestroysStayFinal(cfg, s, a, k);
    }
    forall v | v in t.volumes && t.volumes[v].destroyedAt.Some? ensures v in t.agent.erased {
      MarkedMeansErased(cfg, s, a, v);
    }
  }

  // ---- One step ------------------------------------------------------------

  /** A create attaches to a doomed volume only if that volume is abandoned: while its
      destruction is under way the wallet is refused, and a fresh volume is not doomed. */
  lemma AttachedIsAbandoned(cfg: Config, s: System, a: Action)
    requires VolumesOk(s) && DisksOk(s) && a.Create? && a.persistent && Enabled(cfg, s, a)
    ensures Doomed(s, a.volume) <==> Abandoned(s, a.volume)
  {
    forall k | k in s.memory.destroyCalls ensures s.memory.destroyCalls[k].volume != a.volume {
      assert DestroyOk(s, k);
    }
  }

  /** An active row of the next state is as it was, or has just been created. */
  lemma ActiveIsOldOrNew(cfg: Config, s: System, a: Action, id: Id)
    requires RowsStep(cfg, s, Next(cfg, s, a))
    requires var t := Next(cfg, s, a); id in t.rows && t.rows[id].state.Active()
    ensures var t := Next(cfg, s, a);
      || (id in s.rows && s.rows[id].state.Active() && s.rows[id].volume == t.rows[id].volume)
      || (a.Create? && Enabled(cfg, s, a) && a.id == id && t.rows[id].volume == if a.persistent then Some(a.volume) else None)
  {
    if id in s.rows {
      assert RowMove(s.now, s.rows[id], Next(cfg, s, a).rows[id]);
    } else if !a.Create? {
      CreationsFrame(cfg, s, a);
    }
  }

  lemma IntactKept(cfg: Config, s: System, a: Action)
    requires RowsStep(cfg, s, Next(cfg, s, a)) && VolumesOk(s) && DisksOk(s) && DisksIntact(s)
    requires !AttachesAbandoned(cfg, s, a)
    ensures DisksIntact(Next(cfg, s, a))
  {
    var t := Next(cfg, s, a);
    assert a.DestroyRequested? && Enabled(cfg, s, a) ==> !Attached(s.rows, a.volume);
    if a.Create? && a.persistent && Enabled(cfg, s, a) { AttachedIsAbandoned(cfg, s, a); }
    forall id | id in t.rows && t.rows[id].state.Active() && t.rows[id].volume.Some?
      ensures !Doomed(t, t.rows[id].volume.value)
    {
      ActiveIsOldOrNew(cfg, s, a, id);
      if Doomed(t, t.rows[id].volume.value) { DoomIsOldOrNew(cfg, s, a, t.rows[id].volume.value); }
    }
  }

  lemma AttachingBreaks(cfg: Config, s: System, a: Action)
    requires AttachesAbandoned(cfg, s, a)
    ensures !DisksIntact(Next(cfg, s, a))
  {
    var t := Next(cfg, s, a);
    assert t.agent == s.agent && t.rows[a.id].volume == Some(a.volume);
    assert Doomed(t, a.volume);
  }

  /** Two destructions under way are of different volumes. */
  lemma OneLockPerVolume(s: System, j: Ticket, k: Ticket)
    requires VolumesOk(s) && j in s.memory.destroyCalls && k in s.memory.destroyCalls
    requires s.memory.destroyCalls[j].volume == s.memory.destroyCalls[k].volume
    ensures j == k
  {
    assert DestroyOk(s, j) && DestroyOk(s, k);
  }

  lemma GivingUpAbandons(cfg: Config, s: System, a: Action, v: VolumeId)
    requires VolumesOk(s) && Abandons(cfg, s, a, v)
    ensures Abandoned(Next(cfg, s, a), v) && !Abandoned(s, v)
  {
    var t := Next(cfg, s, a);
    var k :| k in s.memory.destroyCalls && s.memory.destroyCalls[k].volume == v && (a == DestroyReplied(k, false) || a.Restart?);
    assert DestroyOk(s, k);
    assert t.volumes == s.volumes && t.agent == s.agent;
    forall j | j in t.memory.destroyCalls ensures t.memory.destroyCalls[j].volume != v {
      if s.memory.destroyCalls[j].volume == v { OneLockPerVolume(s, j, k); }
    }
    assert Doomed(t, v);
  }

  /** Only these steps release the lock of a volume that stays undestroyed. */
  lemma OnlyGivingUpUnlocks(cfg: Config, s: System, a: Action, v: VolumeId)
    requires VolumesOk(s) && Locked(s, v) && !Locked(Next(cfg, s, a), v)
    ensures Enabled(cfg, s, a)
    ensures a.Restart? || (a.DestroyReplied? && a.ticket in s.memory.destroyCalls && s.memory.destroyCalls[a.ticket].volume == v)
  {
    var k :| k in s.memory.destroyCalls && s.memory.destroyCalls[k].volume == v;
    var m := Next(cfg, s, a).memory;
    assert DestroyOk(s, k);
    if !TouchesDestroys(a) { DestroysFrame(cfg, s, a); }
    assert k in m.destroyCalls ==> m.destroyCalls[k].volume != v;
  }

  lemma RequestLocks(cfg: Config, s: System, a: Action)
    requires a.DestroyRequested? && Enabled(cfg, s, a)
    ensures Locked(Next(cfg, s, a), a.volume)
  {
    assert Next(cfg, s, a).memory.destroyCalls[s.nextTicket].volume == a.volume;
  }

  lemma OnlyGivingUpAbandons(cfg: Config, s: System, a: Action, v: VolumeId)
    requires VolumesOk(s) && DisksOk(s) && Abandoned(Next(cfg, s, a), v) && !Abandoned(s, v)
    ensures Abandons(cfg, s, a, v)
  {
    var t := Next(cfg, s, a);
    DoomIsOldOrNew(cfg, s, a, v);
    EveryActionIsAVolumesStep(cfg, s, a);
    if a.DestroyRequested? && Enabled(cfg, s, a) { RequestLocks(cfg, s, a); }
    assert Doomed(s, v) && v in s.volumes && s.volumes[v].destroyedAt.None? && Locked(s, v);
    OnlyGivingUpUnlocks(cfg, s, a, v);
  }

  // ---- Runs ----------------------------------------------------------------

  ghost predicate DiskRecordsOk(cfg: Config, s: System) {
    RecordsOk(cfg, s) && DisksOk(s)
  }

  lemma DiskRecordsKept(cfg: Config, s: System, a: Action)
    requires DiskRecordsOk(cfg, s)
    ensures DiskRecordsOk(cfg, Next(cfg, s, a)) && RowsStep(cfg, s, Next(cfg, s, a))
  {
    RecordsKept(cfg, s, a);
    EveryActionIsARowsStep(cfg, s, a);
    DisksKept(cfg, s, a);
  }

  lemma {:induction false} DiskRecordsHold(cfg: Config, s: System, run: seq<Action>)
    requires DiskRecordsOk(cfg, s)
    ensures DiskRecordsOk(cfg, Execute(cfg, s, run))
    decreases |run|
  {
    if run != [] {
      DiskRecordsKept(cfg, s, run[0]);
      DiskRecordsHold(cfg, Next(cfg, s, run[0]), run[1..]);
    }
  }

  /** Nothing is attached to a doomed volume, at any point of the run. */
  ghost predicate AlwaysIntact(cfg: Config, s: System, run: seq<Action>)
    decreases |run|
  {
    DisksIntact(s) && (run != [] ==> AlwaysIntact(cfg, Next(cfg, s, run[0]), run[1..]))
  }

  lemma {:induction false} IntactAtTheEnd(cfg: Config, s: System, run: seq<Action>)
    requires AlwaysIntact(cfg, s, run)
    ensures DisksIntact(Execute(cfg, s, run))
    decreases |run|
  {
    if run != [] { IntactAtTheEnd(cfg, Next(cfg, s, run[0]), run[1..]); }
  }

  ghost predicate NeverAttachesAbandoned(cfg: Config, s: System, run: seq<Action>)
    decreases |run|
  {
    run != [] ==> !AttachesAbandoned(cfg, s, run[0]) && NeverAttachesAbandoned(cfg, Next(cfg, s, run[0]), run[1..])
  }

  /** No destruction fails or is forgotten once it has taken effect or still may. */
  ghost predicate NeverAbandons(cfg: Config, s: System, run: seq<Action>)
    decreases |run|
  {
    run != [] ==>
      (forall v :: !Abandons(cfg, s, run[0], v)) && NeverAbandons(cfg, Next(cfg, s, run[0]), run[1..])
  }

  lemma {:induction false} IntactFrom(cfg: Config, s: System, run: seq<Action>)
    requires DiskRecordsOk(cfg, s) && DisksIntact(s)
    ensures AlwaysIntact(cfg, s, run) <==> NeverAttachesAbandoned(cfg, s, run)
    decreases |run|
  {
    if run != [] {
      var t := Next(cfg, s, run[0]);
      DiskRecordsKept(cfg, s, run[0]);
      if AttachesAbandoned(cfg, s, run[0]) {
        AttachingBreaks(cfg, s, run[0]);
      } else {
        IntactKept(cfg, s, run[0]);
        IntactFrom(cfg, t, run[1..]);
      }
    }
  }

  lemma {:induction false} NothingAbandonedFrom(cfg: Config, s: System, run: seq<Action>)
    requires DiskRecordsOk(cfg, s) && NeverAbandons(cfg, s, run) && forall v :: !Abandoned(s, v)
    ensures NeverAttachesAbandoned(cfg, s, run)
    ensures forall v :: !Abandoned(Execute(cfg, s, run), v)
    decreases |run|
  {
    if run != [] {
      var t := Next(cfg, s, run[0]);
      DiskRecordsKept(cfg, s, run[0]);
      forall v ensures !Abandoned(t, v) {
        if Abandoned(t, v) { OnlyGivingUpAbandons(cfg, s, run[0], v); }
      }
      NothingAbandonedFrom(cfg, t, run[1..]);
    }
  }

  lemma DisksInitially(cfg: Config, now: int)
    ensures DiskRecordsOk(cfg, Initial(now)) && DisksIntact(Initial(now)) && forall v :: !Abandoned(Initial(now), v)
  {
    InitiallyOk(cfg, now);
  }

  /** A run keeps every active row's disk exactly when it never attaches an abandoned
      volume. */
  lemma DisksAreSafeExactly(cfg: Config, start: int, run: seq<Action>)
    ensures AlwaysIntact(cfg, Initial(start), run) <==> NeverAttachesAbandoned(cfg, Initial(start), run)
  {
    DisksInitially(cfg, start);
    IntactFrom(cfg, Initial(start), run);
  }

  /** A volume becomes abandoned in exactly one way: the control plane gives up on its
      destruction although that has taken effect or still may. */
  lemma AbandonedExactlyByGivingUp(cfg: Config, start: int, past: seq<Action>, a: Action, v: VolumeId)
    ensures var s := Execute(cfg, Initial(start), past);
      Abandoned(Next(cfg, s, a), v) && !Abandoned(s, v) <==> Abandons(cfg, s, a, v)
  {
    var s := Execute(cfg, Initial(start), past);
    DisksInitially(cfg, start);
    DiskRecordsHold(cfg, Initial(start), past);
    if Abandons(cfg, s, a, v) {
      GivingUpAbandons(cfg, s, a, v);
    } else if Abandoned(Next(cfg, s, a), v) && !Abandoned(s, v) {
      OnlyGivingUpAbandons(cfg, s, a, v);
    }
  }

  /** So a run in which that never happens keeps the disk of every active row. */
  lemma DisksAreSafe(cfg: Config, start: int, run: seq<Action>)
    requires NeverAbandons(cfg, Initial(start), run)
    ensures AlwaysIntact(cfg, Initial(start), run) && NothingLost(Execute(cfg, Initial(start), run))
    ensures forall v :: !Abandoned(Execute(cfg, Initial(start), run), v)
  {
    DisksInitially(cfg, start);
    NothingAbandonedFrom(cfg, Initial(start), run);
    IntactFrom(cfg, Initial(start), run);
    IntactAtTheEnd(cfg, Initial(start), run);
  }

  /** Whatever fails, a volume recorded as destroyed has lost its disk. */
  lemma DestroyedMeansErased(cfg: Config, start: int, run: seq<Action>, v: VolumeId)
    ensures var s := Execute(cfg, Initial(start), run);
      v in s.volumes && s.volumes[v].destroyedAt.Some? ==> v in s.agent.erased
  {
    DisksInitially(cfg, start);
    DiskRecordsHold(cfg, Initial(start), run);
  }

  // ---- A run that loses a disk ---------------------------------------------

  /** After giving up everything is as before, but the request waits at the agent. */
  lemma GivingUpForgets(cfg: Config, s: System, wallet: Wallet, v: VolumeId, giveUp: Action)
    requires Enabled(cfg, s, DestroyRequested(wallet, v))
    requires giveUp == DestroyReplied(s.nextTicket, false) || giveUp == Restart
    ensures var t := Next(cfg, Next(cfg, s, DestroyRequested(wallet, v)), giveUp);
      && Issued(s, t, DestroyDisk(v)) && wallet !in t.memory.destroyingVolumes
      && t.(agent := s.agent, nextTicket := s.nextTicket, memory := s.memory) == s
  {
    var s1 := Next(cfg, s, DestroyRequested(wallet, v));
    assert Issued(s, s1, DestroyDisk(v));
    var t := Next(cfg, s1, giveUp);
    assert t.agent == s1.agent;
  }

  /** An active row's volume is recorded as undestroyed, and its disk is gone. */
  ghost predicate Lost(s: System, id: Id, wallet: Wallet, v: VolumeId) {
    && id in s.rows && s.rows[id].state.Active() && s.rows[id].volume == Some(v)
    && v in LiveVolumes(s.volumes, wallet) && v in s.agent.erased
  }

  lemma AttachedThenErased(cfg: Config, s: System, wallet: Wallet, ip: IpHash, id: Id, v: VolumeId, waiting: seq<Call>)
    requires Enabled(cfg, s, Create(wallet, ip, true, id, v)) && v in LiveVolumes(s.volumes, wallet)
    requires |s.agent.queue| == |waiting| + 1 && s.agent.queue[|waiting|].request == DestroyDisk(v)
    ensures Lost(Next(cfg, Next(cfg, s, Create(wallet, ip, true, id, v)), AgentApplies(|waiting|, true)), id, wallet, v)
  {
    var s1 := Next(cfg, s, Create(wallet, ip, true, id, v));
    assert s1 == Admit(cfg, s, wallet, ip, true, id, v);
  }

  /** Whenever a destruction can be requested and the wallet could be admitted: giving up
      on the request lets the wallet attach the volume again, and the disk goes under it. */
  lemma GivingUpLosesADisk(cfg: Config, s: System, wallet: Wallet, ip: IpHash, id: Id, v: VolumeId, giveUp: Action)
    requires Enabled(cfg, s, DestroyRequested(wallet, v)) && Refusal(cfg, s, wallet, ip, true).None? && id !in s.creations
    requires giveUp == DestroyReplied(s.nextTicket, false) || giveUp == Restart
    ensures var s2 := Next(cfg, Next(cfg, s, DestroyRequested(wallet, v)), giveUp);
      Lost(Next(cfg, Next(cfg, s2, Create(wallet, ip, true, id, v)), AgentApplies(|s.agent.queue|, true)), id, wallet, v)
  {
    GivingUpForgets(cfg, s, wallet, v, giveUp);
    AttachedThenErased(cfg, Next(cfg, Next(cfg, s, DestroyRequested(wallet, v)), giveUp), wallet, ip, id, v, s.agent.queue);
  }

  // A concrete run: a workspace with a volume is created and stopped; the destruction of
  // its volume is requested and reported as failed; the next workspace attaches the
  // volume; then the agent takes the request.

  const EXAMPLE_CONFIG: Config := Config(1, 1, 2, 2, 1, 1, 60_000, true)
  const STOPPING_RUN: seq<Action> := [
    Create("w", "h", true, 0, 0), StopCurrent("w", 0), AgentApplies(0, true), StopReplied(0, true)]
  const LOSING_RUN: seq<Action> := [
    DestroyRequested("w", 0), DestroyReplied(1, false), Create("w", "h", true, 1, 0), AgentApplies(0, true)]

  function ExampleRow(state: RowState, stoppedAt: Option<int>): map<Id, Row> {
    map[0 := Row("w", "h", state, 0, 60_000, stoppedAt, Some(0))]
  }

  function ExampleState(rows: map<Id, Row>, memory: Memory, agent: Agent, tickets: nat): System {
    System(0, rows, map[0 := Volume("w", 0, 0, None)], memory, agent, tickets, map[0 := Creation("w", "h", 0)], [])
  }

  function ExampleMemory(settled: bool): Memory {
    Memory(Idle, map[0 := 0], map[0 := StopOperation(0, settled)], {}, map[])
  }

  function ExampleQueued(): System {
    ExampleState(ExampleRow(Queued, None), EMPTY_MEMORY, Agent([], {}, {}, map[]), 0)
  }

  function ExampleStopping(): System {
    ExampleState(ExampleRow(Stopping, None), ExampleMemory(false), Agent([Call(0, StopVm(0))], {}, {}, map[]), 1)
  }

  function ExampleStopped(): System {
    ExampleState(ExampleRow(Stopped, Some(0)), ExampleMemory(true), Agent([], {}, {}, map[0 := Done]), 1)
  }

  lemma ExampleIsQueued()
    ensures Next(EXAMPLE_CONFIG, Initial(0), STOPPING_RUN[0]) == ExampleQueued()
  {
    var s := Initial(0);
    assert ActiveOfWallet(s.rows, "w") == {} && ActiveOfIp(s.rows, "h") == {} && QueuedRows(s.rows) == {};
    assert RecentOfWallet(s.rows, "w", -DAY) == {} && RecentOfIp(s.rows, "h", -DAY) == {};
    assert LiveVolumes(s.volumes, "w") == {};
    assert Enabled(EXAMPLE_CONFIG, s, STOPPING_RUN[0]);
    assert Admit(EXAMPLE_CONFIG, s, "w", "h", true, 0, 0).rows == ExampleQueued().rows;
  }

  lemma ExampleIsStopping()
    ensures Next(EXAMPLE_CONFIG, ExampleQueued(), STOPPING_RUN[1]) == ExampleStopping()
  {
    var s := ExampleQueued();
    assert Enabled(EXAMPLE_CONFIG, s, STOPPING_RUN[1]);
    assert MarkStopping(s, 0).rows == ExampleStopping().rows;
    assert StopWorkspace(MarkStopping(s, 0), 0).agent == ExampleStopping().agent;
  }

  lemma ExampleIsStopped()
    ensures Next(EXAMPLE_CONFIG, Next(EXAMPLE_CONFIG, ExampleStopping(), STOPPING_RUN[2]), STOPPING_RUN[3]) == ExampleStopped()
  {
    var s := ExampleStopping();
    var s1 := s.(agent := ApplyCall(s.agent, 0, true));
    assert s1.agent == Agent([], {}, {}, map[0 := Done]);
    assert Next(EXAMPLE_CONFIG, s, STOPPING_RUN[2]) == s1;
    assert FinishStop(s1, 0, true) == ExampleStopped();
  }

  lemma ExecuteTwo(cfg: Config, s: System, run: seq<Action>)
    requires |run| >= 2
    ensures Execute(cfg, s, run) == Execute(cfg, Next(cfg, Next(cfg, s, run[0]), run[1]), run[2..])
  {
    assert run[1..][1..] == run[2..];
  }

  lemma ExecuteFour(cfg: Config, s: System, run: seq<Action>)
    requires |run| == 4
    ensures Execute(cfg, s, run) == Next(cfg, Next(cfg, Next(cfg, Next(cfg, s, run[0]), run[1]), run[2]), run[3])
  {
    ExecuteTwo(cfg, s, run);
    ExecuteTwo(cfg, Next(cfg, Next(cfg, s, run[0]), run[1]), run[2..]);
    assert run[2..][2..] == [];
  }

  lemma ExampleStops()
    ensures Execute(EXAMPLE_CONFIG, Initial(0), STOPPING_RUN) == ExampleStopped()
  {
    ExampleIsQueued();
    ExampleIsStopping();
    ExampleIsStopped();
    ExecuteFour(EXAMPLE_CONFIG, Initial(0), STOPPING_RUN);
  }

  lemma ExampleCanLose()
    ensures var s := ExampleStopped();
      && Enabled(EXAMPLE_CONFIG, s, DestroyRequested("w", 0))
      && Refusal(EXAMPLE_CONFIG, s, "w", "h", true).None? && 1 !in s.creations
  {
    var s := ExampleStopped();
    assert ActiveOfWallet(s.rows, "w") == {} && ActiveOfIp(s.rows, "h") == {} && QueuedRows(s.rows) == {};
    assert RecentOfWallet(s.rows, "w", -DAY) <= {0} && RecentOfIp(s.rows, "h", -DAY) <= {0};
    SubsetSize(RecentOfWallet(s.rows, "w", -DAY), {0});
    SubsetSize(RecentOfIp(s.rows, "h", -DAY), {0});
  }

  lemma ExampleLoses()
    ensures Lost(Execute(EXAMPLE_CONFIG, ExampleStopped(), LOSING_RUN), 1, "w", 0)
  {
    ExampleCanLose();
    ExecuteFour(EXAMPLE_CONFIG, ExampleStopped(), LOSING_RUN);
    GivingUpLosesADisk(EXAMPLE_CONFIG, ExampleStopped(), "w", "h", 1, 0, DestroyReplied(1, false));
  }

  /** In the end row 1 is active on volume 0, whose disk is gone, although the agent took
      every request in the order it was issued. */
  lemma AnExampleLosesADisk()
    ensures InIssueOrder(STOPPING_RUN) && InIssueOrder(LOSING_RUN)
    ensures Lost(Execute(EXAMPLE_CONFIG, Execute(EXAMPLE_CONFIG, Initial(0), STOPPING_RUN), LOSING_RUN), 1, "w", 0)
  {
    ExampleStops();
    ExampleLoses();
  }

  // ---- What issue order gives ----------------------------------------------

  /** No machine that runs, or whose create waits earlier, uses a disk whose removal waits. */
  ghost predicate DestroysAreClear(s: System) {
    forall i :: 0 <= i < |s.agent.queue| && s.agent.queue[i].request.DestroyDisk? ==>
      ClearBefore(s, i, s.agent.queue[i].request.volume)
  }

  ghost predicate Uses(s: System, id: Id, v: VolumeId) { id in s.rows && s.rows[id].volume == Some(v) }

  ghost predicate ClearBefore(s: System, i: nat, v: VolumeId)
    requires i <= |s.agent.queue|
  {
    && (forall id :: id in s.agent.live ==> !Uses(s, id, v))
    && (forall j :: 0 <= j < i && s.agent.queue[j].request.CreateVm? ==> !Uses(s, s.agent.queue[j].request.id, v))
  }

  lemma ApplyingShiftsClear(s: System, effect: bool, i: nat, v: VolumeId)
    requires i + 1 < |s.agent.queue| && ClearBefore(s, i + 1, v)
    ensures ClearBefore(s.(agent := ApplyCall(s.agent, 0, effect)), i, v)
  {
    var t := s.(agent := ApplyCall(s.agent, 0, effect));
    assert forall j :: 0 <= j < i ==> t.agent.queue[j] == s.agent.queue[j + 1];
  }

  lemma ApplyingKeepsClear(s: System, effect: bool)
    requires DestroysAreClear(s) && s.agent.queue != []
    ensures DestroysAreClear(s.(agent := ApplyCall(s.agent, 0, effect)))
  {
    var t := s.(agent := ApplyCall(s.agent, 0, effect));
    forall i | 0 <= i < |t.agent.queue| && t.agent.queue[i].request.DestroyDisk?
      ensures ClearBefore(t, i, t.agent.queue[i].request.volume)
    {
      assert s.agent.queue[i + 1] == t.agent.queue[i];
      ApplyingShiftsClear(s, effect, i, t.agent.queue[i].request.volume);
    }
  }

  /** Machines, and creates on their way, have the rows they had. */
  lemma UsesStay(cfg: Config, s: System, t: System, id: Id, v: VolumeId)
    requires RowsStep(cfg, s, t) && MachinesHaveSlots(s) && !Gone(s, id) && Uses(t, id, v)
    ensures Uses(s, id, v)
  {
    assert id in Slots(s);
    assert RowMove(s.now, s.rows[id], t.rows[id]);
  }

  lemma IssuingKeepsClear(cfg: Config, s: System, t: System, request: Request)
    requires RowsStep(cfg, s, t) && MachinesHaveSlots(s) && DestroysAreClear(s) && Issued(s, t, request)
    requires request.DestroyDisk? ==> !Attached(s.rows, request.volume)
    ensures DestroysAreClear(t)
  {
    var q := s.agent.queue;
    forall i | 0 <= i <= |q| && t.agent.queue[i].request.DestroyDisk?
      ensures ClearBefore(t, i, t.agent.queue[i].request.volume)
    {
      var v := t.agent.queue[i].request.volume;
      forall id | !Gone(s, id) && Uses(t, id, v) ensures i < |q| && Uses(s, id, v) {
        UsesStay(cfg, s, t, id, v);
        assert id in Slots(s);
      }
      if i < |q| { assert ClearBefore(s, i, v); }
    }
  }

  lemma RowsKeepClear(cfg: Config, s: System, t: System)
    requires RowsStep(cfg, s, t) && MachinesHaveSlots(s) && DestroysAreClear(s)
    requires t.agent.queue == s.agent.queue && t.agent.live <= s.agent.live
    ensures DestroysAreClear(t)
  {
    var q := s.agent.queue;
    forall i | 0 <= i < |q| && q[i].request.DestroyDisk? ensures ClearBefore(t, i, q[i].request.volume) {
      var v := q[i].request.volume;
      assert ClearBefore(s, i, v);
      forall id | !Gone(s, id) && Uses(t, id, v) ensures Uses(s, id, v) { UsesStay(cfg, s, t, id, v); }
    }
  }

  lemma ClearKept(cfg: Config, s: System, a: Action)
    requires RowsStep(cfg, s, Next(cfg, s, a)) && MachinesHaveSlots(s) && DestroysAreClear(s) && InOrder(a)
    ensures DestroysAreClear(Next(cfg, s, a))
  {
    var t := Next(cfg, s, a);
    if a.AgentApplies? {
      if Enabled(cfg, s, a) { ApplyingKeepsClear(s, a.effect); }
    } else {
      if !a.VmExits? { ServiceIssues(cfg, s, a); }
      if t.nextTicket == s.nextTicket {
        RowsKeepClear(cfg, s, t);
      } else {
        var request := t.agent.queue[|s.agent.queue|].request;
        if request.DestroyDisk? { OnlyRequestsDestroy(cfg, s, a, request.volume); }
        IssuingKeepsClear(cfg, s, t, request);
      }
    }
  }

  lemma {:induction false} ClearHolds(cfg: Config, s: System, run: seq<Action>)
    requires RecordsOk(cfg, s) && AgentOk(s) && DestroysAreClear(s) && InIssueOrder(run)
    ensures DestroysAreClear(Execute(cfg, s, run))
    decreases |run|
  {
    if run != [] {
      EveryActionIsARowsStep(cfg, s, run[0]);
      RecordsKept(cfg, s, run[0]);
      AgentKept(cfg, s, run[0]);
      ClearKept(cfg, s, run[0]);
      ClearHolds(cfg, Next(cfg, s, run[0]), run[1..]);
    }
  }

  /** In issue order the agent is never asked to remove the disk of a running machine,
      given up or not: what is lost is lost between two machines. */
  lemma DestroysSpareMachines(cfg: Config, start: int, run: seq<Action>, v: VolumeId)
    requires InIssueOrder(run)
    ensures var s := Execute(cfg, Initial(start), run);
      s.agent.queue != [] && s.agent.queue[0].request == DestroyDisk(v) ==>
        forall id :: id in s.agent.live ==> id in s.rows && s.rows[id].volume != Some(v)
  {
    InitiallyOk(cfg, start);
    ClearHolds(cfg, Initial(start), run);
    LiveMachinesAreBounded(cfg, start, run);
    var s := Execute(cfg, Initial(start), run);
    if s.agent.queue != [] && s.agent.queue[0].request == DestroyDisk(v) {
      assert ClearBefore(s, 0, v);
    }
  }
}
