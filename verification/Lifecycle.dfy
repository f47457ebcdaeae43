/** The workspace lifecycle as a transition system: the control plane's rows and
    volumes, the service object's in-memory bookkeeping, and a node agent that
    takes requests in issue order. Every action is one span between two awaits
    (or a piece of one), so any list of actions is an interleaving. */
module Lifecycle {
  import opened Basics

  type Id = nat
  type VolumeId = nat
  type Ticket = nat
  type Wallet = string
  type IpHash = string

  const DAY: int := 24 * 60 * 60_000
  const RETENTION: int := 30 * 24 * 60 * 60_000

  datatype Config = Config(
    maxActivePerWallet: nat, maxActivePerIp: nat, dailyPerWallet: nat, dailyPerIp: nat,
    maxQueue: nat, maxRunning: nat, leaseMs: int, persistence: bool)

  datatype RowState = Queued | Provisioning | Running | Stopping | Stopped | Failed
  {
    predicate Active() { Queued? || Provisioning? || Running? || Stopping? }
    predicate Holding() { Provisioning? || Running? || Stopping? }
  }

  datatype Row = Row(
    wallet: Wallet, ip: IpHash, state: RowState, createdAt: int, leaseExpiresAt: int,
    stoppedAt: Option<int>, volume: Option<VolumeId>)

  datatype Volume = Volume(wallet: Wallet, createdAt: int, lastAttachedAt: int, destroyedAt: Option<int>)

  datatype Request = CreateVm(id: Id) | StopVm(id: Id) | ReadStatus(id: Id) | DestroyDisk(volume: VolumeId)

  datatype Call = Call(ticket: Ticket, request: Request)

  datatype Reply = Done | Observed(running: bool)

  /** Requests wait in `queue` until the agent applies them. `erased` holds the volumes
      whose disk has been removed: what was on it is lost, whatever is made later. */
  datatype Agent = Agent(queue: seq<Call>, live: set<Id>, erased: set<VolumeId>, replies: map<Ticket, Reply>)

  datatype Snapshot = Snapshot(id: Id, provisioning: bool)

  /** Where the single-flight reconciler stands. The `...Wait` values are its awaits. */
  datatype Progress =
    | Idle
    | StopLoop(stopTodo: seq<Id>)
    | StopWait(operation: Ticket, stopTodo: seq<Id>)
    | CheckLoop(checkTodo: seq<Snapshot>)
    | CheckWait(statusCall: Ticket, checking: Snapshot, checkTodo: seq<Snapshot>)
    | ClaimLoop(capacity: int)
    | ClaimWait(createCall: Ticket, creating: Id, capacity: int)

  datatype StopOperation = StopOperation(id: Id, settled: bool)

  datatype DestroyCall = DestroyCall(wallet: Wallet, volume: VolumeId)

  /** The fields of the service object; all of it is lost in a restart. */
  datatype Memory = Memory(
    reconciliation: Progress,
    stopOperations: map<Id, Ticket>,
    operations: map<Ticket, StopOperation>,
    destroyingVolumes: set<Wallet>,
    destroyCalls: map<Ticket, DestroyCall>)

  datatype Creation = Creation(wallet: Wallet, ip: IpHash, at: int)

  datatype Claim = Claim(id: Id, createdAt: int)

  /** `creations` and `claims` record the whole past; nothing in the code reads them. */
  datatype System = System(
    now: int, rows: map<Id, Row>, volumes: map<VolumeId, Volume>, memory: Memory,
    agent: Agent, nextTicket: Ticket, creations: map<Id, Creation>, claims: seq<Claim>)

  const EMPTY_MEMORY: Memory := Memory(Idle, map[], map[], {}, map[])

  function Initial(now: int): System {
    System(now, map[], map[], EMPTY_MEMORY, Agent([], {}, {}, map[]), 0, map[], [])
  }

  datatype Action =
    | Tick(to: int)
    | Create(wallet: Wallet, ip: IpHash, persistent: bool, id: Id, volume: VolumeId)
    | StopCurrent(wallet: Wallet, id: Id)
    | StopReplied(ticket: Ticket, ok: bool)
    | StopCleared(ticket: Ticket)
    | DestroyRequested(wallet: Wallet, volume: VolumeId)
    | DestroyReplied(ticket: Ticket, ok: bool)
    | ReconcileStarted(stopping: seq<Id>)
    | ReconcileStopNext
    | ReconcileStopDone
    | ReconcileListed(active: seq<Snapshot>)
    | ReconcileStatusNext
    | ReconcileStatusReplied(ok: bool)
    | ReconcileCounted
    | ReconcileClaimed(id: Id)
    | ReconcileCreateReplied(ok: bool)
    | ReconcileFinished
    | Cleanup
    | Restart
    | AgentApplies(index: nat, effect: bool)
    | VmExits(id: Id)

  // ---- Queries -------------------------------------------------------------

  function ActiveOfWallet(rows: map<Id, Row>, wallet: Wallet): set<Id> {
    set id | id in rows && rows[id].wallet == wallet && rows[id].state.Active()
  }

  function ActiveOfIp(rows: map<Id, Row>, ip: IpHash): set<Id> {
    set id | id in rows && rows[id].ip == ip && rows[id].state.Active()
  }

  function RecentOfWallet(rows: map<Id, Row>, wallet: Wallet, since: int): set<Id> {
    set id | id in rows && rows[id].wallet == wallet && rows[id].createdAt >= since
  }

  function RecentOfIp(rows: map<Id, Row>, ip: IpHash, since: int): set<Id> {
    set id | id in rows && rows[id].ip == ip && rows[id].createdAt >= since
  }

  function QueuedRows(rows: map<Id, Row>): set<Id> {
    set id | id in rows && rows[id].state.Queued?
  }

  function HoldingRows(rows: map<Id, Row>): set<Id> {
    set id | id in rows && rows[id].state.Holding()
  }

  function LiveVolumes(volumes: map<VolumeId, Volume>, wallet: Wallet): set<VolumeId> {
    set v | v in volumes && volumes[v].wallet == wallet && volumes[v].destroyedAt.None?
  }

  predicate Attached(rows: map<Id, Row>, volume: VolumeId) {
    exists id :: id in rows && rows[id].volume == Some(volume) && rows[id].state.Active()
  }

  predicate Claimable(s: System, id: Id) {
    id in s.rows && s.rows[id].state.Queued? && s.rows[id].leaseExpiresAt > s.now
  }

  /** `id` is a row the claim query may return first: claimable, and none older is. */
  predicate OldestClaimable(s: System, id: Id) {
    Claimable(s, id) &&
    forall other :: other in s.rows && Claimable(s, other) ==> s.rows[id].createdAt <= s.rows[other].createdAt
  }

  /** `id` is a row the owner's stop query may return first. */
  predicate NewestActive(s: System, wallet: Wallet, id: Id) {
    id in ActiveOfWallet(s.rows, wallet) &&
    forall other :: other in ActiveOfWallet(s.rows, wallet) ==> s.rows[other].createdAt <= s.rows[id].createdAt
  }

  predicate Enumerates<T(==)>(list: seq<T>, all: set<T>) {
    (forall x :: x in list ==> x in all) && (forall x :: x in all ==> x in list)
      && |list| == |all|
  }

  function CheckableRows(rows: map<Id, Row>): set<Snapshot> {
    set id | id in rows && (rows[id].state.Running? || rows[id].state.Provisioning?)
      :: Snapshot(id, rows[id].state.Provisioning?)
  }

  function StoppingRows(rows: map<Id, Row>): set<Id> {
    set id | id in rows && rows[id].state.Stopping?
  }

  // ---- Row updates ---------------------------------------------------------

  function SetState(rows: map<Id, Row>, id: Id, state: RowState): map<Id, Row>
    requires id in rows
  {
    rows[id := rows[id].(state := state)]
  }

  function EndRow(rows: map<Id, Row>, id: Id, state: RowState, at: int): map<Id, Row>
    requires id in rows
  {
    rows[id := rows[id].(state := state, stoppedAt := Some(at))]
  }

  function ExpireRow(row: Row, now: int): Row {
    if (row.state.Queued? || row.state.Provisioning? || row.state.Running?) && row.leaseExpiresAt <= now
    then row.(state := Stopping) else row
  }

  function Expire(rows: map<Id, Row>, now: int): map<Id, Row> {
    map id | id in rows :: ExpireRow(rows[id], now)
  }

  predicate Retained(row: Row, now: int) {
    !((row.state.Stopped? || row.state.Failed?) && row.stoppedAt.Some? && row.stoppedAt.value < now - RETENTION)
  }

  // ---- Requests ------------------------------------------------------------

  function Issue(s: System, request: Request): System {
    s.(agent := s.agent.(queue := s.agent.queue + [Call(s.nextTicket, request)]), nextTicket := s.nextTicket + 1)
  }

  /** Joins the stop operation already registered for the row, or starts one. */
  function StopWorkspace(s: System, id: Id): System {
    if id in s.memory.stopOperations then s
    else
      Issue(s, StopVm(id)).(memory := s.memory.(
        operations := s.memory.operations[s.nextTicket := StopOperation(id, false)],
        stopOperations := s.memory.stopOperations[id := s.nextTicket]))
  }

  // ---- Admission -----------------------------------------------------------

  datatype WorkspaceError = WorkspaceError(status: nat)

  /** Why `create` refuses, in the order the code asks. */
  function Refusal(cfg: Config, s: System, wallet: Wallet, ip: IpHash, persistent: bool): Option<WorkspaceError> {
    if persistent && !cfg.persistence then Some(WorkspaceError(501))
    else if persistent && wallet in s.memory.destroyingVolumes then Some(WorkspaceError(409))
    else if |ActiveOfWallet(s.rows, wallet)| >= cfg.maxActivePerWallet then Some(WorkspaceError(409))
    else if |ActiveOfIp(s.rows, ip)| >= cfg.maxActivePerIp then Some(WorkspaceError(429))
    else if |RecentOfWallet(s.rows, wallet, s.now - DAY)| >= cfg.dailyPerWallet then Some(WorkspaceError(429))
    else if |RecentOfIp(s.rows, ip, s.now - DAY)| >= cfg.dailyPerIp then Some(WorkspaceError(429))
    else if |QueuedRows(s.rows)| >= cfg.maxQueue then Some(WorkspaceError(503))
    else None
  }

  /** The ids a create draws: a row id never used before, and the wallet's live
      volume when it has one, else a volume id never used before. */
  predicate FreshIds(s: System, wallet: Wallet, persistent: bool, id: Id, volume: VolumeId) {
    id !in s.creations &&
    (persistent ==>
      if LiveVolumes(s.volumes, wallet) == {} then volume !in s.volumes
      else volume in LiveVolumes(s.volumes, wallet))
  }

  function AttachVolume(s: System, wallet: Wallet, volume: VolumeId): map<VolumeId, Volume> {
    s.volumes[volume :=
      if volume in s.volumes then s.volumes[volume].(lastAttachedAt := s.now)
      else Volume(wallet, s.now, s.now, None)]
  }

  function Admit(cfg: Config, s: System, wallet: Wallet, ip: IpHash, persistent: bool, id: Id, volume: VolumeId): System {
    s.(volumes := if persistent then AttachVolume(s, wallet, volume) else s.volumes,
       rows := s.rows[id := Row(wallet, ip, Queued, s.now, s.now + cfg.leaseMs, None, if persistent then Some(volume) else None)],
       creations := s.creations[id := Creation(wallet, ip, s.now)])
  }

  // ---- Owner requests ------------------------------------------------------

  function MarkStopping(s: System, id: Id): System
    requires id in s.rows
  {
    if s.rows[id].state.Stopping? then s else s.(rows := SetState(s.rows, id, Stopping))
  }

  function FinishStop(s: System, ticket: Ticket, ok: bool): System
    requires ticket in s.memory.operations
  {
    var op := s.memory.operations[ticket];
    s.(memory := s.memory.(operations := s.memory.operations[ticket := op.(settled := true)]),
       rows := if ok && op.id in s.rows && s.rows[op.id].state.Stopping?
               then EndRow(s.rows, op.id, Stopped, s.now) else s.rows)
  }

  function ClearStop(s: System, ticket: Ticket): System
    requires ticket in s.memory.operations
  {
    var id := s.memory.operations[ticket].id;
    s.(memory := s.memory.(
      operations := s.memory.operations - {ticket},
      stopOperations :=
        if id in s.memory.stopOperations && s.memory.stopOperations[id] == ticket
        then s.memory.stopOperations - {id} else s.memory.stopOperations))
  }

  function DestroyRefusal(s: System, wallet: Wallet): Option<WorkspaceError> {
    if LiveVolumes(s.volumes, wallet) == {} then Some(WorkspaceError(404))
    else if exists v :: v in LiveVolumes(s.volumes, wallet) && Attached(s.rows, v) then Some(WorkspaceError(409))
    else if wallet in s.memory.destroyingVolumes then Some(WorkspaceError(409))
    else None
  }

  function BeginDestroy(s: System, wallet: Wallet, volume: VolumeId): System {
    Issue(s, DestroyDisk(volume)).(memory := s.memory.(
      destroyingVolumes := s.memory.destroyingVolumes + {wallet},
      destroyCalls := s.memory.destroyCalls[s.nextTicket := DestroyCall(wallet, volume)]))
  }

  function FinishDestroy(s: System, ticket: Ticket, ok: bool): System
    requires ticket in s.memory.destroyCalls
  {
    var call := s.memory.destroyCalls[ticket];
    s.(memory := s.memory.(
         destroyCalls := s.memory.destroyCalls - {ticket},
         destroyingVolumes := s.memory.destroyingVolumes - {call.wallet}),
       volumes :=
         if ok && call.volume in s.volumes && s.volumes[call.volume].destroyedAt.None?
         then s.volumes[call.volume := s.volumes[call.volume].(destroyedAt := Some(s.now))]
         else s.volumes)
  }

  // ---- Reconciliation ------------------------------------------------------

  function WithProgress(s: System, progress: Progress): System {
    s.(memory := s.memory.(reconciliation := progress))
  }

  function StopNext(s: System): System
    requires s.memory.reconciliation.StopLoop? && s.memory.reconciliation.stopTodo != []
  {
    var todo := s.memory.reconciliation.stopTodo;
    var started := StopWorkspace(s, todo[0]);
    WithProgress(started, StopWait(started.memory.stopOperations[todo[0]], todo[1..]))
  }

  function StatusNext(s: System): System
    requires s.memory.reconciliation.CheckLoop? && s.memory.reconciliation.checkTodo != []
  {
    var todo := s.memory.reconciliation.checkTodo;
    WithProgress(Issue(s, ReadStatus(todo[0].id)), CheckWait(s.nextTicket, todo[0], todo[1..]))
  }

  /** What a status reply does to the row it is about. */
  function StatusRows(s: System, at: Snapshot, running: bool): map<Id, Row> {
    if at.id !in s.rows then s.rows
    else if running && at.provisioning then
      if s.rows[at.id].state.Provisioning? then SetState(s.rows, at.id, Running) else s.rows
    else if !running then
      if s.rows[at.id].state.Running? || s.rows[at.id].state.Provisioning?
      then EndRow(s.rows, at.id, Failed, s.now) else s.rows
    else s.rows
  }

  function ClaimRow(s: System, id: Id): System
    requires s.memory.reconciliation.ClaimLoop? && id in s.rows
  {
    WithProgress(Issue(s.(rows := SetState(s.rows, id, Provisioning),
                          claims := s.claims + [Claim(id, s.rows[id].createdAt)]), CreateVm(id)),
                 ClaimWait(s.nextTicket, id, s.memory.reconciliation.capacity - 1))
  }

  function CreateReplied(s: System, ok: bool): System
    requires s.memory.reconciliation.ClaimWait?
  {
    var id := s.memory.reconciliation.creating;
    WithProgress(s.(rows := if ok && id in s.rows && s.rows[id].state.Provisioning?
                            then SetState(s.rows, id, Running) else s.rows),
                 ClaimLoop(s.memory.reconciliation.capacity))
  }

  // ---- The agent -----------------------------------------------------------

  /** Applies one queued request. Without effect it is refused or lost, and no
      success is ever reported for it. */
  function ApplyCall(agent: Agent, index: nat, effect: bool): Agent
    requires index < |agent.queue|
  {
    var call := agent.queue[index];
    var rest := agent.(queue := agent.queue[..index] + agent.queue[index + 1..]);
    if !effect then rest
    else match call.request
      case CreateVm(id) => rest.(live := agent.live + {id}, replies := agent.replies[call.ticket := Done])
      case StopVm(id) => rest.(live := agent.live - {id}, replies := agent.replies[call.ticket := Done])
      case ReadStatus(id) => rest.(replies := agent.replies[call.ticket := Observed(id in agent.live)])
      case DestroyDisk(v) => rest.(erased := agent.erased + {v}, replies := agent.replies[call.ticket := Done])
  }

  // ---- The transition function ---------------------------------------------

  /** May the action happen now? A success is delivered only for an applied request;
      a failure may be reported at any time. `AgentApplies` takes any queued request:
      `InIssueOrder` below is the assumption that it takes the first. */
  ghost predicate Enabled(cfg: Config, s: System, a: Action) {
    var m := s.memory;
    match a
    case Tick(to) => to >= s.now
    case Create(wallet, ip, persistent, id, volume) =>
      Refusal(cfg, s, wallet, ip, persistent).None? && FreshIds(s, wallet, persistent, id, volume)
    case StopCurrent(wallet, id) => NewestActive(s, wallet, id)
    case StopReplied(t, ok) => t in m.operations && !m.operations[t].settled && (ok ==> t in s.agent.replies)
    case StopCleared(t) => t in m.operations && m.operations[t].settled
    case DestroyRequested(wallet, volume) =>
      volume in LiveVolumes(s.volumes, wallet) && DestroyRefusal(s, wallet).None?
    case DestroyReplied(t, ok) => t in m.destroyCalls && (ok ==> t in s.agent.replies)
    case ReconcileStarted(stopping) => m.reconciliation.Idle? && Enumerates(stopping, StoppingRows(Expire(s.rows, s.now)))
    case ReconcileStopNext => m.reconciliation.StopLoop? && m.reconciliation.stopTodo != []
    case ReconcileStopDone =>
      m.reconciliation.StopWait? &&
      (m.reconciliation.operation in m.operations ==> m.operations[m.reconciliation.operation].settled)
    case ReconcileListed(active) =>
      m.reconciliation.StopLoop? && m.reconciliation.stopTodo == [] && Enumerates(active, CheckableRows(s.rows))
    case ReconcileStatusNext => m.reconciliation.CheckLoop? && m.reconciliation.checkTodo != []
    case ReconcileStatusReplied(ok) =>
      m.reconciliation.CheckWait? &&
      (ok ==> m.reconciliation.statusCall in s.agent.replies && s.agent.replies[m.reconciliation.statusCall].Observed?)
    case ReconcileCounted => m.reconciliation.CheckLoop? && m.reconciliation.checkTodo == []
    case ReconcileClaimed(id) => m.reconciliation.ClaimLoop? && m.reconciliation.capacity > 0 && OldestClaimable(s, id)
    case ReconcileCreateReplied(ok) =>
      m.reconciliation.ClaimWait? && (ok ==> m.reconciliation.createCall in s.agent.replies)
    case ReconcileFinished =>
      m.reconciliation.ClaimLoop? && (m.reconciliation.capacity <= 0 || forall id :: id in s.rows ==> !Claimable(s, id))
    case Cleanup => true
    case Restart => true
    case AgentApplies(index, _) => index < |s.agent.queue|
    case VmExits(id) => id in s.agent.live
  }

  ghost function Perform(cfg: Config, s: System, a: Action): System
    requires Enabled(cfg, s, a)
  {
    var m := s.memory;
    match a
    case Tick(to) => s.(now := to)
    case Create(wallet, ip, persistent, id, volume) => Admit(cfg, s, wallet, ip, persistent, id, volume)
    case StopCurrent(_, id) => StopWorkspace(MarkStopping(s, id), id)
    case StopReplied(t, ok) => FinishStop(s, t, ok)
    case StopCleared(t) => ClearStop(s, t)
    case DestroyRequested(wallet, volume) => BeginDestroy(s, wallet, volume)
    case DestroyReplied(t, ok) => FinishDestroy(s, t, ok)
    case ReconcileStarted(stopping) => WithProgress(s.(rows := Expire(s.rows, s.now)), StopLoop(stopping))
    case ReconcileStopNext => StopNext(s)
    case ReconcileStopDone => WithProgress(s, StopLoop(m.reconciliation.stopTodo))
    case ReconcileListed(active) => WithProgress(s, CheckLoop(active))
    case ReconcileStatusNext => StatusNext(s)
    case ReconcileStatusReplied(ok) =>
      WithProgress(
        if ok then s.(rows := StatusRows(s, m.reconciliation.checking, s.agent.replies[m.reconciliation.statusCall].running)) else s,
        CheckLoop(m.reconciliation.checkTodo))
    case ReconcileCounted => WithProgress(s, ClaimLoop(cfg.maxRunning - |HoldingRows(s.rows)|))
    case ReconcileClaimed(id) => ClaimRow(s, id)
    case ReconcileCreateReplied(ok) => CreateReplied(s, ok)
    case ReconcileFinished => WithProgress(s, Idle)
    case Cleanup => s.(rows := map id | id in s.rows && Retained(s.rows[id], s.now) :: s.rows[id])
    case Restart => s.(memory := EMPTY_MEMORY)
    case AgentApplies(index, effect) => s.(agent := ApplyCall(s.agent, index, effect))
    case VmExits(id) => s.(agent := s.agent.(live := s.agent.live - {id}))
  }

  /** An action that is not enabled leaves everything as it is. */
  ghost function Next(cfg: Config, s: System, a: Action): System {
    if Enabled(cfg, s, a) then Perform(cfg, s, a) else s
  }

  ghost function Execute(cfg: Config, s: System, run: seq<Action>): System
    decreases |run|
  {
    if run == [] then s else Execute(cfg, Next(cfg, s, run[0]), run[1..])
  }

  lemma {:induction false} ExecuteAppend(cfg: Config, s: System, past: seq<Action>, future: seq<Action>)
    ensures Execute(cfg, s, past + future) == Execute(cfg, Execute(cfg, s, past), future)
    decreases |past|
  {
    if past == [] {
      assert past + future == future;
    } else {
      assert (past + future)[0] == past[0] && (past + future)[1..] == past[1..] + future;
      ExecuteAppend(cfg, Next(cfg, s, past[0]), past[1..], future);
    }
  }

  /** The assumption about the agent: it takes requests in the order they were issued. */
  predicate InIssueOrder(run: seq<Action>) {
    forall i :: 0 <= i < |run| && run[i].AgentApplies? ==> run[i].index == 0
  }
}
