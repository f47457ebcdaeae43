/** What becomes of a job, read off the run alone: when it was started, what it wrote, how
    its process ended, and whether a cancellation came before its wait thread decided. */
module JobOutcomes {
  import opened Basics
  import opened Jobs

  datatype Ending = Ending(timedOut: bool, status: WaitStatus)

  /** What a run has told about the job last entered under an id. `cancelled` is about
      requests before the decision. */
  datatype Facts = Facts(
    launched: bool, enteredAt: nat, timeoutMs: nat, written: bytes, cancelled: bool, ending: Option<Ending>, decided: bool, recordedAt: Option<nat>)

  const NOTHING: Facts := Facts(false, 0, 0, [], false, None, false, None)

  /** The action happens, and concerns the job. */
  predicate Concerns(e: Engine, a: Action, id: JobId) {
    Enabled(e, a) &&
    match a
    case StartLaunches(_) => e.starting.id == id
    case StartFailsToLaunch(_, _) => e.starting.id == id
    case Writes(x, _) => x == id
    case Drains(x, _, _) => x == id
    case Decides(x) => x == id
    case Records(x) => x == id
    case Cancels(x) => x == id
    case _ => false
  }

  function Told(e: Engine, a: Action, id: JobId, f: Facts): Facts {
    if !Concerns(e, a, id) then f
    else match a
      case StartLaunches(timeoutMs) => NOTHING.(launched := true, enteredAt := e.now, timeoutMs := timeoutMs)
      case StartFailsToLaunch(timeoutMs, message) => NOTHING.(enteredAt := e.now, timeoutMs := timeoutMs, written := message)
      case Writes(_, chunk) => f.(written := f.written + chunk)
      case Drains(_, timedOut, status) => f.(ending := Some(Ending(timedOut, status)))
      case Decides(_) => f.(decided := true)
      case Records(_) => f.(recordedAt := Some(e.now))
      case Cancels(_) => if f.decided then f else f.(cancelled := true)
      case _ => f
  }

  function FactsOf(e: Engine, run: seq<Action>, id: JobId, f: Facts): Facts
    decreases |run|
  {
    if run == [] then f else FactsOf(Next(e, run[0]), run[1..], id, Told(e, run[0], id, f))
  }

  /** The state and the numbers a job must end with: cancelled if that was asked in time,
      else timed out if it was, else as its process ended. */
  predicate Deserved(state: JobState, exitCode: Option<int>, signal: Option<nat>, cancelled: bool, ending: Ending) {
    var byItself := !cancelled && !ending.timedOut;
    && (state.Cancelled? <==> cancelled)
    && (state.TimedOut? <==> !cancelled && ending.timedOut)
    && (state.Succeeded? <==> byItself && ending.status == Exited(0))
    && (state.Failed? <==> byItself && ending.status != Exited(0))
    && exitCode == (if byItself && ending.status.Exited? then Some(ending.status.code) else None)
    && signal == (if byItself && ending.status.Signaled? then Some(ending.status.number) else None)
  }

  /** A job that never started: failed at once, without a number. */
  predicate NeverStarted(job: Job, f: Facts) {
    && job.state.Failed? && job.worker.Gone? && job.startedAt.None? && job.finishedAt == Some(f.enteredAt)
    && job.exitCode.None? && job.signal.None?
  }

  /** The job was launched and its record says how far it has come. */
  predicate ComesAlong(job: Job, f: Facts) {
    && job.startedAt == Some(f.enteredAt) && job.finishedAt == f.recordedAt
    && (!f.decided ==> job.cancelRequested == f.cancelled)
    && (f.decided ==> f.ending.Some?)
    && (f.recordedAt.None? ==> job.state.Running? && job.exitCode.None? && job.signal.None?)
    && match job.worker
       case Streaming => f.ending.None? && !f.decided && f.recordedAt.None?
       case Drained(timedOut, status) => f.ending == Some(Ending(timedOut, status)) && !f.decided && f.recordedAt.None?
       case Decided(o) => f.decided && f.recordedAt.None? && Deserved(o.state, o.exitCode, o.signal, f.cancelled, f.ending.value)
       case Gone => f.decided && f.recordedAt.Some? && Deserved(job.state, job.exitCode, job.signal, f.cancelled, f.ending.value)
  }

  predicate Fits(job: Job, f: Facts) {
    job.timeoutMs == f.timeoutMs && if f.launched then ComesAlong(job, f) else NeverStarted(job, f)
  }

  ghost predicate FactsFit(e: Engine, id: JobId, f: Facts) {
    id in e.jobs ==> Fits(e.jobs[id], f) && OutputOf(e, id) == f.written
  }

  lemma DecisionIsDeserved(timedOut: bool, cancelled: bool, status: WaitStatus)
    ensures var o := Decide(timedOut, cancelled, status);
      Deserved(o.state, o.exitCode, o.signal, cancelled, Ending(timedOut, status))
  {
  }

  lemma OthersLeaveTheJob(e: Engine, a: Action, id: JobId)
    requires EngineOk(e) && !Concerns(e, a, id) && id in Next(e, a).jobs
    ensures id in e.jobs && Next(e, a).jobs[id] == e.jobs[id] && OutputOf(Next(e, a), id) == OutputOf(e, id)
  {
    StepKeeps(e, a);
  }

  lemma EntryFits(e: Engine, a: Action, id: JobId, f: Facts)
    requires Concerns(e, a, id) && (a.StartLaunches? || a.StartFailsToLaunch?)
    ensures FactsFit(Next(e, a), id, Told(e, a, id, f))
  {
  }

  lemma StepFits(e: Engine, a: Action, id: JobId, f: Facts)
    requires Concerns(e, a, id) && !a.StartLaunches? && !a.StartFailsToLaunch? && FactsFit(e, id, f)
    ensures FactsFit(Next(e, a), id, Told(e, a, id, f))
  {
    if a.Decides? { DecisionIsDeserved(e.jobs[id].worker.timedOut, e.jobs[id].cancelRequested, e.jobs[id].worker.status); }
  }

  lemma {:induction false} FactsKept(e: Engine, run: seq<Action>, id: JobId, f: Facts)
    requires EngineOk(e) && FactsFit(e, id, f)
    ensures FactsFit(Execute(e, run), id, FactsOf(e, run, id, f))
    decreases |run|
  {
    if run != [] {
      var a := run[0];
      StepKeeps(e, a);
      if Concerns(e, a, id) {
        if a.StartLaunches? || a.StartFailsToLaunch? { EntryFits(e, a, id, f); } else { StepFits(e, a, id, f); }
      } else if id in Next(e, a).jobs {
        OthersLeaveTheJob(e, a, id);
      }
      FactsKept(Next(e, a), run[1..], id, Told(e, a, id, f));
    }
  }

  /** After every run, a launched job of the table has ended exactly if its thread has
      recorded it, and then as it deserves: `Cancelled` if and only if that was asked before
      the thread decided, else `TimedOut` if and only if it timed out, else `Succeeded` if
      and only if it exited with zero, else `Failed`, with the exit code or the signal of a
      job that ended by itself and no number otherwise. A job that could not be launched is
      failed from the start. The log is what was written. */
  lemma OutcomesAreDeserved(start: nat, run: seq<Action>, id: JobId)
    requires id in Execute(Empty(start), run).jobs
    ensures var job := Execute(Empty(start), run).jobs[id]; var f := FactsOf(Empty(start), run, id, NOTHING);
      && (f.launched && f.recordedAt.Some? ==>
            f.ending.Some? && Deserved(job.state, job.exitCode, job.signal, f.cancelled, f.ending.value)
            && job.finishedAt == f.recordedAt)
      && (f.launched && f.recordedAt.None? ==> job.state.Running? && job.finishedAt.None?)
      && (f.launched ==> job.startedAt == Some(f.enteredAt)) && job.timeoutMs == f.timeoutMs
      && (!f.launched ==> NeverStarted(job, f))
      && OutputOf(Execute(Empty(start), run), id) == f.written
  {
    assert ActiveJobs(Empty(start).jobs) == {};
    FactsKept(Empty(start), run, id, NOTHING);
  }

  // ---- Starting --------------------------------------------------------------

  /** A start call is admitted exactly when its id is new and fewer than two jobs are
      active, and is told which of the two fails. */
  lemma AdmittedExactly(e: Engine, id: JobId)
    requires e.starting.Idle?
    ensures Next(e, StartChecks(id)).starting == if id !in e.jobs && |ActiveJobs(e.jobs)| < MAX_ACTIVE_JOBS then Checked(id) else Idle
    ensures CheckRefusal(e, id) == Some(Conflict) <==> id in e.jobs
    ensures CheckRefusal(e, id) == Some(TooManyActive) <==> id !in e.jobs && |ActiveJobs(e.jobs)| >= MAX_ACTIVE_JOBS
  {
  }

  /** A start call under way comes to its end: it prunes or passes the second check, which
      it passes unless the table is full, then gives up or launches, and then is over. */
  lemma StartsComeToAnEnd(e: Engine, timeoutMs: nat)
    requires EngineOk(e)
    ensures e.starting.Checked? ==>
      if |e.jobs| >= MAX_RETAINED_JOBS then Enabled(e, StartPrunes) && |Next(e, StartPrunes).jobs| < |e.jobs|
      else Next(e, StartRechecks).starting == Ready(e.starting.id)
    ensures e.starting.Ready? ==>
      Next(e, StartAborts) == e.(starting := Idle) && Next(e, StartLaunches(timeoutMs)).starting == Inserted(e.starting.id)
    ensures e.starting.Inserted? ==> Next(e, StartOrders).starting.Idle?
  {
    if e.starting.Checked? && |e.jobs| >= MAX_RETAINED_JOBS {
      FullTableCanPrune(e);
      OnlyTerminalPruned(e);
    }
  }

  /** When the job of the id entered the table: when it was launched, or failed to be. */
  function EntryTime(jobs: map<JobId, Job>, id: JobId): nat {
    if id !in jobs then 0
    else if jobs[id].startedAt.Some? then jobs[id].startedAt.value
    else if jobs[id].finishedAt.Some? then jobs[id].finishedAt.value
    else 0
  }

  predicate Sorted(jobs: map<JobId, Job>, order: seq<JobId>) {
    forall i, j :: 0 <= i < j < |order| ==> EntryTime(jobs, order[i]) <= EntryTime(jobs, order[j])
  }

  /** No job enters in the future, and one that is still being started is the last. */
  ghost predicate EnteredInTime(e: Engine) {
    && (forall id :: EntryTime(e.jobs, id) <= e.now)
    && (e.starting.Inserted? ==> forall id :: EntryTime(e.jobs, id) <= EntryTime(e.jobs, e.starting.id))
  }

  /** The order lists the jobs as they entered. */
  ghost predicate InEntryOrder(e: Engine) { Sorted(e.jobs, e.order) && EnteredInTime(e) }

  lemma {:induction false} WithoutSorted(jobs: map<JobId, Job>, order: seq<JobId>, id: JobId)
    requires Sorted(jobs, order)
    ensures Sorted(jobs, Without(order, id))
    decreases |order|
  {
    if order != [] {
      var rest := Without(order[1..], id);
      assert Sorted(jobs, order[1..]) by {
        forall i, j | 0 <= i < j < |order[1..]| ensures EntryTime(jobs, order[1..][i]) <= EntryTime(jobs, order[1..][j]) {
          assert EntryTime(jobs, order[i + 1]) <= EntryTime(jobs, order[j + 1]);
        }
      }
      WithoutSorted(jobs, order[1..], id);
      forall x | x in rest ensures EntryTime(jobs, order[0]) <= EntryTime(jobs, x) {
        var k :| 0 <= k < |order[1..]| && order[1..][k] == x;
        assert order[k + 1] == x;
      }
      SortedWithFirst(jobs, order[0], rest);
    }
  }

  lemma SortedWithFirst(jobs: map<JobId, Job>, first: JobId, rest: seq<JobId>)
    requires Sorted(jobs, rest) && forall x :: x in rest ==> EntryTime(jobs, first) <= EntryTime(jobs, x)
    ensures Sorted(jobs, [first] + rest)
  {
  }

  lemma SameTimesSorted(jobs: map<JobId, Job>, others: map<JobId, Job>, order: seq<JobId>)
    requires Sorted(jobs, order) && forall id :: id in order ==> EntryTime(others, id) == EntryTime(jobs, id)
    ensures Sorted(others, order)
  {
  }

  lemma PruneKeepsEntryOrder(e: Engine)
    requires InEntryOrder(e) && CanPrune(e) && e.starting.Checked?
    ensures InEntryOrder(PruneOne(e))
  {
    var id := e.order[OldestTerminal(e.jobs, e.order)];
    WithoutSorted(e.jobs, e.order, id);
    forall x | x in Without(e.order, id) ensures EntryTime(e.jobs - {id}, x) == EntryTime(e.jobs, x) {}
    SameTimesSorted(e.jobs, e.jobs - {id}, Without(e.order, id));
    forall x ensures EntryTime(PruneOne(e).jobs, x) <= e.now { assert EntryTime(e.jobs, x) <= e.now; }
  }

  lemma TimesStay(e: Engine, a: Action, id: JobId)
    requires EngineOk(e) && !a.StartLaunches? && !a.StartFailsToLaunch? && !a.StartPrunes?
    ensures EntryTime(Next(e, a).jobs, id) == EntryTime(e.jobs, id)
  {
    if id in e.jobs { assert JobOk(e.jobs[id]); }
  }

  lemma EntryKeepsOrder(e: Engine, a: Action)
    requires EngineOk(e) && InEntryOrder(e) && Enabled(e, a) && (a.StartLaunches? || a.StartFailsToLaunch?)
    ensures InEntryOrder(Next(e, a))
  {
    SameTimesSorted(e.jobs, Next(e, a).jobs, e.order);
  }

  lemma AppendKeepsOrder(e: Engine)
    requires InEntryOrder(e) && e.starting.Inserted?
    ensures InEntryOrder(Next(e, StartOrders))
  {
  }

  lemma OthersKeepOrder(e: Engine, f: Engine)
    requires InEntryOrder(e) && f.order == e.order && e.now <= f.now && (f.starting.Inserted? ==> f.starting == e.starting)
    requires forall id :: EntryTime(f.jobs, id) == EntryTime(e.jobs, id)
    ensures InEntryOrder(f)
  {
  }

  lemma EntryOrderStep(e: Engine, a: Action)
    requires EngineOk(e) && InEntryOrder(e) && Enabled(e, a)
    ensures InEntryOrder(Next(e, a))
  {
    if a.StartPrunes? {
      PruneKeepsEntryOrder(e);
    } else if a.StartLaunches? || a.StartFailsToLaunch? {
      EntryKeepsOrder(e, a);
    } else if a.StartOrders? {
      AppendKeepsOrder(e);
    } else {
      forall id ensures EntryTime(Next(e, a).jobs, id) == EntryTime(e.jobs, id) { TimesStay(e, a, id); }
      OthersKeepOrder(e, Next(e, a));
    }
  }

  lemma {:induction false} EntryOrderHolds(e: Engine, run: seq<Action>)
    requires EngineOk(e) && InEntryOrder(e)
    ensures InEntryOrder(Execute(e, run))
    decreases |run|
  {
    if run != [] {
      StepKeeps(e, run[0]);
      if Enabled(e, run[0]) { EntryOrderStep(e, run[0]); }
      EntryOrderHolds(Next(e, run[0]), run[1..]);
    }
  }

  /** After every run the order that pruning goes by is the order of entry. */
  lemma TheOrderIsOfEntry(start: nat, run: seq<Action>)
    ensures var e := Execute(Empty(start), run); Sorted(e.jobs, e.order)
  {
    assert ActiveJobs(Empty(start).jobs) == {};
    EntryOrderHolds(Empty(start), run);
  }
}
