/** The reconciler gets on: it stops, asks for and claims exactly what it listed and
    counted, in order; something can always happen next; and every step brings its end
    nearer. */
module LifecycleProgress {
  import opened Basics
  import opened Lifecycle
  import opened LifecycleFrames
  import opened LifecycleInvariants
  import opened LifecycleTheorems
  import opened LifecycleCauses

  // ---- What is left to do ----------------------------------------------------

  function StopsLeft(p: Progress): seq<Id> { if p.StopLoop? || p.StopWait? then p.stopTodo else [] }

  function ChecksLeft(p: Progress): seq<Snapshot> { if p.CheckLoop? || p.CheckWait? then p.checkTodo else [] }

  function SlotsLeft(p: Progress): int { if p.ClaimLoop? || p.ClaimWait? then p.capacity else 0 }

  /** The row whose stop the action awaits, if it does. */
  ghost function StoppedBy(cfg: Config, s: System, a: Action): seq<Id> {
    if a.ReconcileStopNext? && Enabled(cfg, s, a) then [s.memory.reconciliation.stopTodo[0]] else []
  }

  ghost function CheckedBy(cfg: Config, s: System, a: Action): seq<Snapshot> {
    if a.ReconcileStatusNext? && Enabled(cfg, s, a) then [s.memory.reconciliation.checkTodo[0]] else []
  }

  ghost function ClaimedBy(cfg: Config, s: System, a: Action): nat {
    if a.ReconcileClaimed? && Enabled(cfg, s, a) then 1 else 0
  }

  lemma AStepStopsTheNext(cfg: Config, s: System, a: Action)
    requires !a.ReconcileStarted? && !a.Restart?
    ensures StopsLeft(s.memory.reconciliation) == StoppedBy(cfg, s, a) + StopsLeft(Next(cfg, s, a).memory.reconciliation)
  {
    if !Reconciles(a) { ReconcilerFrame(cfg, s, a); }
  }

  lemma AStepChecksTheNext(cfg: Config, s: System, a: Action)
    requires !a.ReconcileListed? && !a.Restart?
    ensures ChecksLeft(s.memory.reconciliation) == CheckedBy(cfg, s, a) + ChecksLeft(Next(cfg, s, a).memory.reconciliation)
  {
    if !Reconciles(a) { ReconcilerFrame(cfg, s, a); }
  }

  lemma AStepTakesASlot(cfg: Config, s: System, a: Action)
    requires !a.ReconcileCounted? && !a.ReconcileFinished? && !a.Restart?
    ensures SlotsLeft(s.memory.reconciliation) == ClaimedBy(cfg, s, a) + SlotsLeft(Next(cfg, s, a).memory.reconciliation)
  {
    if !Reconciles(a) { ReconcilerFrame(cfg, s, a); }
  }

  // ---- A whole reconciliation ------------------------------------------------

  ghost function StoppedIn(cfg: Config, s: System, run: seq<Action>): seq<Id>
    decreases |run|
  {
    if run == [] then [] else StoppedBy(cfg, s, run[0]) + StoppedIn(cfg, Next(cfg, s, run[0]), run[1..])
  }

  ghost function CheckedIn(cfg: Config, s: System, run: seq<Action>): seq<Snapshot>
    decreases |run|
  {
    if run == [] then [] else CheckedBy(cfg, s, run[0]) + CheckedIn(cfg, Next(cfg, s, run[0]), run[1..])
  }

  ghost function ClaimedIn(cfg: Config, s: System, run: seq<Action>): nat
    decreases |run|
  {
    if run == [] then 0 else ClaimedBy(cfg, s, run[0]) + ClaimedIn(cfg, Next(cfg, s, run[0]), run[1..])
  }

  lemma {:induction false} StopsInOrder(cfg: Config, s: System, run: seq<Action>)
    requires forall a :: a in run ==> !a.ReconcileStarted? && !a.Restart?
    ensures StopsLeft(s.memory.reconciliation)
         == StoppedIn(cfg, s, run) + StopsLeft(Execute(cfg, s, run).memory.reconciliation)
    decreases |run|
  {
    if run != [] {
      var t := Next(cfg, s, run[0]);
      AStepStopsTheNext(cfg, s, run[0]);
      StopsInOrder(cfg, t, run[1..]);
      Regroup(StoppedBy(cfg, s, run[0]), StoppedIn(cfg, t, run[1..]), StopsLeft(Execute(cfg, t, run[1..]).memory.reconciliation));
    }
  }

  lemma {:induction false} ChecksInOrder(cfg: Config, s: System, run: seq<Action>)
    requires forall a :: a in run ==> !a.ReconcileListed? && !a.Restart?
    ensures ChecksLeft(s.memory.reconciliation)
         == CheckedIn(cfg, s, run) + ChecksLeft(Execute(cfg, s, run).memory.reconciliation)
    decreases |run|
  {
    if run != [] {
      var t := Next(cfg, s, run[0]);
      AStepChecksTheNext(cfg, s, run[0]);
      ChecksInOrder(cfg, t, run[1..]);
      Regroup(CheckedBy(cfg, s, run[0]), CheckedIn(cfg, t, run[1..]), ChecksLeft(Execute(cfg, t, run[1..]).memory.reconciliation));
    }
  }

  lemma {:induction false} SlotsAddUp(cfg: Config, s: System, run: seq<Action>)
    requires forall a :: a in run ==> !a.ReconcileCounted? && !a.ReconcileFinished? && !a.Restart?
    ensures SlotsLeft(s.memory.reconciliation)
         == ClaimedIn(cfg, s, run) + SlotsLeft(Execute(cfg, s, run).memory.reconciliation)
    decreases |run|
  {
    if run != [] {
      AStepTakesASlot(cfg, s, run[0]);
      SlotsAddUp(cfg, Next(cfg, s, run[0]), run[1..]);
    }
  }

  /** A reconciliation begins with a list of exactly the rows that are stopping then, and
      once it has left its stop loop it has stopped each of them, in that order. */
  lemma EveryListedRowIsStopped(cfg: Config, s: System, stopping: seq<Id>, run: seq<Action>)
    requires Enabled(cfg, s, ReconcileStarted(stopping)) && forall a :: a in run ==> !a.ReconcileStarted? && !a.Restart?
    ensures var t := Next(cfg, s, ReconcileStarted(stopping)); var p := Execute(cfg, t, run).memory.reconciliation;
      && (forall id :: id in stopping <==> id in t.rows && t.rows[id].state.Stopping?)
      && StoppedIn(cfg, t, run) <= stopping
      && (!p.StopLoop? && !p.StopWait? ==> StoppedIn(cfg, t, run) == stopping)
  {
    StopsInOrder(cfg, Next(cfg, s, ReconcileStarted(stopping)), run);
  }

  /** It lists exactly the rows that are running or provisioning then, and once it has left
      its status loop it has asked for each of their machines, in that order. */
  lemma EveryListedMachineIsChecked(cfg: Config, s: System, active: seq<Snapshot>, run: seq<Action>)
    requires Enabled(cfg, s, ReconcileListed(active)) && forall a :: a in run ==> !a.ReconcileListed? && !a.Restart?
    ensures var t := Next(cfg, s, ReconcileListed(active)); var p := Execute(cfg, t, run).memory.reconciliation;
      && (forall x :: x in active <==> x.id in t.rows && t.rows[x.id].state == if x.provisioning then Provisioning else Running)
      && CheckedIn(cfg, t, run) <= active
      && (!p.CheckLoop? && !p.CheckWait? ==> CheckedIn(cfg, t, run) == active)
  {
    ChecksInOrder(cfg, Next(cfg, s, ReconcileListed(active)), run);
  }

  /** It claims until the slots that were free when it counted are used up, or until no
      queued row with a running lease is left: only then can it end. */
  lemma EveryFreeSlotIsGiven(cfg: Config, s: System, run: seq<Action>)
    requires Enabled(cfg, s, ReconcileCounted)
    requires forall a :: a in run ==> !a.ReconcileCounted? && !a.ReconcileFinished? && !a.Restart?
    ensures var t := Next(cfg, s, ReconcileCounted); var u := Execute(cfg, t, run);
      var free := cfg.maxRunning - |HoldingRows(t.rows)|;
      && (free >= 0 ==> ClaimedIn(cfg, t, run) <= free)
      && (Enabled(cfg, u, ReconcileFinished) ==>
            || ClaimedIn(cfg, t, run) >= free
            || forall id :: id in u.rows && u.rows[id].state.Queued? ==> u.rows[id].leaseExpiresAt <= u.now)
  {
    var t := Next(cfg, s, ReconcileCounted);
    SlotsAddUp(cfg, t, run);
    if SlotsLeft(t.memory.reconciliation) >= 0 { ClaimsNeverOverdraw(cfg, t, run); }
    var u := Execute(cfg, t, run);
    forall id | id in u.rows && u.rows[id].state.Queued? && !Claimable(u, id) ensures u.rows[id].leaseExpiresAt <= u.now {}
  }

  /** A claim needs a slot. */
  lemma {:induction false} ClaimsNeverOverdraw(cfg: Config, s: System, run: seq<Action>)
    requires forall a :: a in run ==> !a.ReconcileCounted? && !a.ReconcileFinished? && !a.Restart?
    requires SlotsLeft(s.memory.reconciliation) >= 0
    ensures SlotsLeft(Execute(cfg, s, run).memory.reconciliation) >= 0
    decreases |run|
  {
    if run != [] {
      AStepTakesASlot(cfg, s, run[0]);
      ClaimsNeverOverdraw(cfg, Next(cfg, s, run[0]), run[1..]);
    }
  }

  // ---- It comes to an end ----------------------------------------------------

  /** The reconciler's own steps still ahead in its phase. */
  function StepsLeft(p: Progress): int {
    match p
    case Idle => 0
    case StopLoop(todo) => 2 * |todo|
    case StopWait(_, todo) => 2 * |todo| + 1
    case CheckLoop(todo) => 2 * |todo|
    case CheckWait(_, _, todo) => 2 * |todo| + 1
    case ClaimLoop(capacity) => 2 * Max(capacity, 0)
    case ClaimWait(_, _, capacity) => 2 * Max(capacity, 0) + 1
  }

  function PhasesLeft(p: Progress): nat {
    match p
    case Idle => 0
    case StopLoop(_) => 3
    case StopWait(_, _) => 3
    case CheckLoop(_) => 2
    case CheckWait(_, _, _) => 2
    case ClaimLoop(_) => 1
    case ClaimWait(_, _, _) => 1
  }

  /** Every step of the reconciler but the start leaves fewer phases, or as many and fewer
      steps: a reconciliation whose calls are answered ends. */
  lemma EveryStepAdvances(cfg: Config, s: System, a: Action)
    requires Reconciles(a) && !a.ReconcileStarted? && Enabled(cfg, s, a)
    ensures var p, q := s.memory.reconciliation, Next(cfg, s, a).memory.reconciliation;
      0 <= StepsLeft(q) && (PhasesLeft(q) < PhasesLeft(p) || (PhasesLeft(q) == PhasesLeft(p) && StepsLeft(q) < StepsLeft(p)))
  {
  }

  /** Nothing but its own steps and a restart moves the reconciler. */
  lemma OthersLeaveItWaiting(cfg: Config, s: System, a: Action)
    requires !Reconciles(a) && !a.Restart?
    ensures Next(cfg, s, a).memory.reconciliation == s.memory.reconciliation
  {
    ReconcilerFrame(cfg, s, a);
  }

  // ---- It is never stuck -----------------------------------------------------

  /** It goes on from a stop exactly when that is settled, or settled and cleared. */
  lemma ItsStopIsAwaited(cfg: Config, s: System, k: Ticket, todo: seq<Id>)
    requires s.memory.reconciliation == StopWait(k, todo)
    ensures Next(cfg, s, ReconcileStopDone).memory.reconciliation ==
      if k in s.memory.operations && !s.memory.operations[k].settled then StopWait(k, todo) else StopLoop(todo)
  {
  }

  /** A reply to a stop settles its operation, whatever it says, until it is cleared. */
  lemma EveryReplySettles(cfg: Config, s: System, k: Ticket, ok: bool)
    requires Enabled(cfg, s, StopReplied(k, ok))
    ensures var t := Next(cfg, s, StopReplied(k, ok));
      k in t.memory.operations && t.memory.operations[k] == StopOperation(s.memory.operations[k].id, true)
      && Enabled(cfg, t, StopCleared(k)) && k !in Next(cfg, t, StopCleared(k)).memory.operations
  {
  }

  lemma RowsHaveAnEnumeration(rows: map<Id, Row>) returns (list: seq<Snapshot>)
    ensures Enumerates(list, CheckableRows(rows))
  {
    list := Listed(CheckableRows(rows));
  }

  lemma {:induction false} Listed<T>(all: set<T>) returns (list: seq<T>)
    ensures Enumerates(list, all)
    decreases all
  {
    list := [];
    if all != {} {
      var x :| x in all;
      var rest := Listed(all - {x});
      list := [x] + rest;
    }
  }

  lemma {:induction false} OldestAmong(s: System, ids: set<Id>) returns (id: Id)
    requires ids != {} && ids <= s.rows.Keys
    ensures id in ids && forall other :: other in ids ==> s.rows[id].createdAt <= s.rows[other].createdAt
    decreases ids
  {
    var one :| one in ids;
    var rest := ids - {one};
    assert forall other :: other in ids <==> other == one || other in rest;
    id := one;
    if rest != {} {
      var best := OldestAmong(s, rest);
      if s.rows[best].createdAt < s.rows[one].createdAt { id := best; }
    }
  }

  /** Whatever has happened, a reconciliation under way can take a step: one of its own, a
      failure of the call it awaits, or such a failure of the stop it awaits followed by one
      of its own. */
  lemma TheReconcilerIsNeverStuck(cfg: Config, s: System) returns (a: Action)
    requires !s.memory.reconciliation.Idle?
    ensures Enabled(cfg, s, a)
    ensures Reconciles(a) ||
      (a.StopReplied? && !a.ok && s.memory.reconciliation.StopWait? && Enabled(cfg, Next(cfg, s, a), ReconcileStopDone))
  {
    var p := s.memory.reconciliation;
    match p
    case StopLoop(todo) =>
      if todo != [] { a := ReconcileStopNext; } else { var active := RowsHaveAnEnumeration(s.rows); a := ReconcileListed(active); }
    case StopWait(k, _) =>
      if k in s.memory.operations && !s.memory.operations[k].settled { a := StopReplied(k, false); } else { a := ReconcileStopDone; }
    case CheckLoop(todo) => a := if todo != [] then ReconcileStatusNext else ReconcileCounted;
    case CheckWait(_, _, _) => a := ReconcileStatusReplied(false);
    case ClaimLoop(_) => a := SomeClaimOrTheEnd(cfg, s);
    case ClaimWait(_, _, _) => a := ReconcileCreateReplied(false);
  }

  lemma SomeClaimOrTheEnd(cfg: Config, s: System) returns (a: Action)
    requires s.memory.reconciliation.ClaimLoop?
    ensures Enabled(cfg, s, a) && Reconciles(a)
  {
    var ids := set id | id in s.rows && Claimable(s, id);
    if ids == {} {
      a := ReconcileFinished;
      forall id | id in s.rows ensures !Claimable(s, id) { assert id !in ids; }
    } else if s.memory.reconciliation.capacity <= 0 {
      a := ReconcileFinished;
    } else {
      var id := OldestAmong(s, ids);
      a := ReconcileClaimed(id);
      forall other | other in s.rows && Claimable(s, other) ensures s.rows[id].createdAt <= s.rows[other].createdAt { assert other in ids; }
    }
  }
}
