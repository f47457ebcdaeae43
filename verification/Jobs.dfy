/** The guest's job table: one start call at a time, worker threads that stream output
    and record an outcome whenever they get to it, and pruning of finished jobs. */
module Jobs {
  import opened Basics
  import opened LogRing

  type JobId = string

  const MAX_ACTIVE_JOBS: nat := 2
  const MAX_RETAINED_JOBS: nat := 64

  datatype JobState = Queued | Running | Succeeded | Failed | Cancelled | TimedOut
  {
    predicate Terminal() { Succeeded? || Failed? || Cancelled? || TimedOut? }
  }

  datatype WaitStatus = Exited(code: int) | Signaled(number: nat) | OtherStatus

  datatype Outcome = Outcome(state: JobState, exitCode: Option<int>, signal: Option<nat>)

  /** How the worker turns what it saw into an outcome. */
  function Decide(timedOut: bool, cancelRequested: bool, status: WaitStatus): Outcome {
    if timedOut && !cancelRequested then Outcome(TimedOut, None, None)
    else if cancelRequested then Outcome(Cancelled, None, None)
    else match status
      case Exited(code) => if code == 0 then Outcome(Succeeded, Some(code), None) else Outcome(Failed, Some(code), None)
      case Signaled(number) => Outcome(Failed, None, Some(number))
      case OtherStatus => Outcome(Failed, None, None)
  }

  /** The worker streams, drains the pipes, reads the cancel flag, then records. */
  datatype Worker = Streaming | Drained(timedOut: bool, status: WaitStatus) | Decided(outcome: Outcome) | Gone

  datatype Job = Job(
    timeoutMs: nat, state: JobState, startedAt: Option<nat>, finishedAt: Option<nat>, exitCode: Option<int>,
    signal: Option<nat>, cancelRequested: bool, worker: Worker)

  /** Where the start call in progress stands. */
  datatype Starting = Idle | Checked(id: JobId) | Ready(id: JobId) | Inserted(id: JobId)

  /** `outputs` is all that each job of the table has written; the code keeps only the end
      of it, in the job's ring. */
  datatype Engine = Engine(
    now: nat, jobs: map<JobId, Job>, outputs: map<JobId, bytes>, order: seq<JobId>, starting: Starting)

  datatype JobError = Conflict | TooManyActive | TooManyRetained | NoDirectory | NotStarted | NotFound

  function Empty(now: nat): Engine { Engine(now, map[], map[], [], Idle) }

  function ActiveJobs(jobs: map<JobId, Job>): set<JobId> {
    set id | id in jobs && !jobs[id].state.Terminal()
  }

  // ---- Starting ------------------------------------------------------------

  function CheckRefusal(e: Engine, id: JobId): Option<JobError> {
    if id in e.jobs then Some(Conflict)
    else if |ActiveJobs(e.jobs)| >= MAX_ACTIVE_JOBS then Some(TooManyActive)
    else None
  }

  /** Index of the oldest terminal job in the order, or its length. */
  function OldestTerminal(jobs: map<JobId, Job>, order: seq<JobId>): (i: nat)
    ensures i <= |order|
    ensures i < |order| ==> order[i] in jobs && jobs[order[i]].state.Terminal()
    ensures forall k :: 0 <= k < i ==> order[k] in jobs ==> !jobs[order[k]].state.Terminal()
  {
    if order == [] then 0
    else if order[0] in jobs && jobs[order[0]].state.Terminal() then 0
    else 1 + OldestTerminal(jobs, order[1..])
  }

  predicate CanPrune(e: Engine) {
    |e.jobs| >= MAX_RETAINED_JOBS && OldestTerminal(e.jobs, e.order) < |e.order|
  }

  function Without(order: seq<JobId>, id: JobId): (rest: seq<JobId>)
    ensures forall x :: x in rest <==> x in order && x != id
  {
    if order == [] then []
    else if order[0] == id then Without(order[1..], id)
    else [order[0]] + Without(order[1..], id)
  }

  function Drop(e: Engine, id: JobId): Engine {
    e.(jobs := e.jobs - {id}, outputs := e.outputs - {id}, order := Without(e.order, id))
  }

  function PruneOne(e: Engine): Engine
    requires CanPrune(e)
  {
    Drop(e, e.order[OldestTerminal(e.jobs, e.order)])
  }

  /** The pruning loop to its end. */
  function Prune(e: Engine): Engine
    decreases |e.jobs|
  {
    if CanPrune(e) then Prune(PruneOne(e)) else e
  }

  function Launched(now: nat, timeoutMs: nat): Job {
    Job(timeoutMs, Running, Some(now), None, None, None, false, Streaming)
  }

  /** A job whose process could not be spawned: finished, but never started. */
  function FailedLaunch(now: nat, timeoutMs: nat): Job {
    Job(timeoutMs, Failed, None, Some(now), None, None, false, Gone)
  }

  /** A job enters the table with what it has written so far. */
  function Insert(e: Engine, job: Job, output: bytes): Engine
    requires e.starting.Ready?
  {
    var id := e.starting.id;
    e.(jobs := e.jobs[id := job], outputs := e.outputs[id := output], starting := Inserted(id))
  }

  // ---- Running -------------------------------------------------------------

  function OutputOf(e: Engine, id: JobId): bytes { if id in e.outputs then e.outputs[id] else [] }

  function Record(job: Job, now: nat): Job
    requires job.worker.Decided?
  {
    var o := job.worker.outcome;
    var done := job.(finishedAt := Some(now), state := o.state, worker := Gone);
    if o.signal.Some? then done.(signal := o.signal) else done.(exitCode := o.exitCode)
  }

  datatype Action =
    | Tick(to: nat)
    | StartChecks(id: JobId)
    | StartPrunes
    | StartRechecks
    | StartAborts
    | StartLaunches(timeoutMs: nat)
    | StartFailsToLaunch(timeoutMs: nat, message: bytes)
    | StartOrders
    | Writes(id: JobId, chunk: bytes)
    | Drains(id: JobId, timedOut: bool, status: WaitStatus)
    | Decides(id: JobId)
    | Records(id: JobId)
    | Cancels(id: JobId)

  predicate Enabled(e: Engine, a: Action) {
    match a
    case Tick(to) => to >= e.now
    case StartChecks(id) => e.starting.Idle? && CheckRefusal(e, id).None?
    case StartPrunes => e.starting.Checked? && CanPrune(e)
    case StartRechecks => e.starting.Checked? && !CanPrune(e)
    case StartAborts => e.starting.Ready?
    case StartLaunches(_) => e.starting.Ready?
    case StartFailsToLaunch(_, _) => e.starting.Ready?
    case StartOrders => e.starting.Inserted?
    case Writes(id, _) => id in e.jobs && e.jobs[id].worker.Streaming? && e.starting != Inserted(id)
    case Drains(id, _, _) => id in e.jobs && e.jobs[id].worker.Streaming? && e.starting != Inserted(id)
    case Decides(id) => id in e.jobs && e.jobs[id].worker.Drained?
    case Records(id) => id in e.jobs && e.jobs[id].worker.Decided?
    case Cancels(id) => id in e.jobs && !e.jobs[id].state.Terminal() && e.jobs[id].startedAt.Some?
  }

  function Perform(e: Engine, a: Action): Engine
    requires Enabled(e, a)
  {
    match a
    case Tick(to) => e.(now := to)
    case StartChecks(id) => e.(starting := Checked(id))
    case StartPrunes => PruneOne(e)
    case StartRechecks => e.(starting := if |e.jobs| >= MAX_RETAINED_JOBS then Idle else Ready(e.starting.id))
    case StartAborts => e.(starting := Idle)
    case StartLaunches(timeoutMs) => Insert(e, Launched(e.now, timeoutMs), [])
    case StartFailsToLaunch(timeoutMs, message) => Insert(e, FailedLaunch(e.now, timeoutMs), message)
    case StartOrders => e.(order := e.order + [e.starting.id], starting := Idle)
    case Writes(id, chunk) => e.(outputs := e.outputs[id := OutputOf(e, id) + chunk])
    case Drains(id, timedOut, status) => e.(jobs := e.jobs[id := e.jobs[id].(worker := Drained(timedOut, status))])
    case Decides(id) =>
      var job := e.jobs[id];
      e.(jobs := e.jobs[id := job.(worker := Decided(Decide(job.worker.timedOut, job.cancelRequested, job.worker.status)))])
    case Records(id) => e.(jobs := e.jobs[id := Record(e.jobs[id], e.now)])
    case Cancels(id) => e.(jobs := e.jobs[id := e.jobs[id].(cancelRequested := true)])
  }

  function Next(e: Engine, a: Action): Engine { if Enabled(e, a) then Perform(e, a) else e }

  function Execute(e: Engine, run: seq<Action>): Engine
    decreases |run|
  {
    if run == [] then e else Execute(Next(e, run[0]), run[1..])
  }

  // ---- What every run keeps --------------------------------------------------

  /** A job is terminal exactly when its worker is gone; a recorded success exited zero. */
  predicate JobOk(job: Job) {
    && (job.state.Terminal() <==> job.worker.Gone?)
    && (job.state.Terminal() <==> job.finishedAt.Some?)
    && (!job.state.Terminal() ==> job.state.Running? && job.startedAt.Some?)
    && (job.state.Succeeded? ==> job.exitCode == Some(0))
    && (job.worker.Decided? ==>
          job.worker.outcome.state.Terminal()
          && (job.worker.outcome.state.Succeeded? ==> job.worker.outcome.exitCode == Some(0) && job.worker.outcome.signal.None?))
  }

  predicate Distinct(order: seq<JobId>) {
    forall i, j :: 0 <= i < j < |order| ==> order[i] != order[j]
  }

  /** Every key of the table is in the order, except the one a start has just inserted. */
  ghost predicate OrderOk(e: Engine) {
    && Distinct(e.order)
    && (forall id :: id in e.order ==> id in e.jobs && e.starting != Inserted(id))
    && (forall id :: id in e.jobs ==> id in e.order || e.starting == Inserted(id))
  }

  ghost predicate StartingOk(e: Engine) {
    match e.starting
    case Idle => true
    case Checked(id) => id !in e.jobs
    case Ready(id) => id !in e.jobs && |e.jobs| < MAX_RETAINED_JOBS
    case Inserted(id) => id in e.jobs
  }

  function Reserved(s: Starting): nat { if s.Checked? || s.Ready? then 1 else 0 }

  ghost predicate EngineOk(e: Engine) {
    && (forall id :: id in e.jobs ==> JobOk(e.jobs[id]))
    && OrderOk(e) && StartingOk(e) && e.outputs.Keys == e.jobs.Keys
    && |e.jobs| <= MAX_RETAINED_JOBS
    && |ActiveJobs(e.jobs)| + Reserved(e.starting) <= MAX_ACTIVE_JOBS
  }

  lemma OnlyTerminalPruned(e: Engine)
    requires CanPrune(e) && EngineOk(e)
    ensures EngineOk(PruneOne(e)) && |PruneOne(e).jobs| == |e.jobs| - 1
    ensures ActiveJobs(PruneOne(e).jobs) == ActiveJobs(e.jobs)
  {
    var id := e.order[OldestTerminal(e.jobs, e.order)];
    TerminalForgotten(e, PruneOne(e), id);
  }

  /** Forgetting one terminal job of the order. */
  lemma TerminalForgotten(e: Engine, f: Engine, id: JobId)
    requires EngineOk(e) && id in e.order && id in e.jobs && e.jobs[id].state.Terminal()
    requires f == Drop(e, id)
    ensures EngineOk(f) && |f.jobs| == |e.jobs| - 1 && ActiveJobs(f.jobs) == ActiveJobs(e.jobs)
  {
    TableForgets(e.jobs, id);
    OrderForgets(e, f, id);
    assert f.outputs.Keys == e.outputs.Keys - {id} && f.jobs.Keys == e.jobs.Keys - {id};
    assert StartingOk(f);
  }

  lemma TableForgets(jobs: map<JobId, Job>, id: JobId)
    requires id in jobs && jobs[id].state.Terminal()
    ensures |jobs - {id}| == |jobs| - 1 && ActiveJobs(jobs - {id}) == ActiveJobs(jobs)
  {
    var rest := jobs - {id};
    assert rest.Keys == jobs.Keys - {id};
    assert |rest| == |rest.Keys| && |jobs| == |jobs.Keys|;
  }

  lemma OrderForgets(e: Engine, f: Engine, id: JobId)
    requires OrderOk(e) && id in e.order
    requires f == Drop(e, id)
    ensures OrderOk(f) && e.starting != Inserted(id)
  {
    WithoutDistinct(e.order, id);
    forall x | x in f.order ensures x in f.jobs && f.starting != Inserted(x) {
      assert x in e.order;
    }
  }

  lemma {:induction false} WithoutDistinct(order: seq<JobId>, id: JobId)
    requires Distinct(order)
    ensures Distinct(Without(order, id))
  {
    if order != [] {
      assert Distinct(order[1..]) by {
        forall i, j | 0 <= i < j < |order[1..]| ensures order[1..][i] != order[1..][j] {
          assert order[i + 1] != order[j + 1];
        }
      }
      WithoutDistinct(order[1..], id);
      if order[0] != id {
        forall j | 0 <= j < |Without(order[1..], id)| ensures Without(order[1..], id)[j] != order[0] {
          assert Without(order[1..], id)[j] in order[1..];
          var k :| 0 <= k < |order[1..]| && order[1..][k] == Without(order[1..], id)[j];
          assert order[k + 1] != order[0];
        }
      }
    }
  }

  lemma NoTerminalMeansAllActive(e: Engine)
    requires EngineOk(e) && e.starting.Checked?
    ensures OldestTerminal(e.jobs, e.order) == |e.order| ==> |ActiveJobs(e.jobs)| == |e.jobs|
  {
    if OldestTerminal(e.jobs, e.order) == |e.order| {
      forall id | id in e.jobs ensures id in ActiveJobs(e.jobs) {
        var k :| 0 <= k < |e.order| && e.order[k] == id;
      }
      assert ActiveJobs(e.jobs) == e.jobs.Keys;
    }
  }

  /** While a start has been admitted there is always a terminal job to prune once the
      table is full: at most one job is active. */
  lemma FullTableCanPrune(e: Engine)
    requires EngineOk(e) && e.starting.Checked? && |e.jobs| >= MAX_RETAINED_JOBS
    ensures CanPrune(e)
  {
    NoTerminalMeansAllActive(e);
  }

  lemma UpdateKeeps(e: Engine, f: Engine, id: JobId, job: Job)
    requires EngineOk(e) && id in e.jobs && f == e.(jobs := e.jobs[id := job]) && JobOk(job)
    requires e.jobs[id].state.Terminal() ==> job.state.Terminal()
    ensures EngineOk(f)
  {
    assert f.jobs.Keys == e.jobs.Keys;
    assert |f.jobs| == |f.jobs.Keys| && |e.jobs| == |e.jobs.Keys|;
    SubsetSize(ActiveJobs(f.jobs), ActiveJobs(e.jobs));
  }

  lemma InsertKeeps(e: Engine, f: Engine, job: Job, output: bytes)
    requires EngineOk(e) && e.starting.Ready? && JobOk(job) && f == Insert(e, job, output)
    ensures EngineOk(f)
  {
    var id := e.starting.id;
    assert f.jobs.Keys == e.jobs.Keys + {id};
    assert |f.jobs| == |f.jobs.Keys| && |e.jobs| == |e.jobs.Keys|;
    SubsetSize(ActiveJobs(f.jobs), ActiveJobs(e.jobs) + {id});
  }

  lemma WriteKeeps(e: Engine, id: JobId, output: bytes)
    requires EngineOk(e) && id in e.jobs
    ensures EngineOk(e.(outputs := e.outputs[id := output]))
  {
    assert e.outputs[id := output].Keys == e.outputs.Keys;
  }

  lemma PlainKeeps(e: Engine, a: Action)
    requires EngineOk(e) && Enabled(e, a) && (a.StartChecks? || a.StartRechecks? || a.StartAborts?)
    ensures EngineOk(Perform(e, a))
  {
    assert OrderOk(Perform(e, a));
  }

  lemma OrderKeeps(e: Engine)
    requires EngineOk(e) && e.starting.Inserted?
    ensures EngineOk(Perform(e, StartOrders))
  {
    assert OrderOk(Perform(e, StartOrders));
  }

  lemma UpdateStepKeeps(e: Engine, a: Action, id: JobId)
    requires EngineOk(e) && Enabled(e, a)
    requires a.Drains? || a.Decides? || a.Records? || a.Cancels?
    requires a.id == id
    ensures EngineOk(Perform(e, a))
  {
    assert JobOk(e.jobs[id]);
    UpdatedJobOk(e, a);
    UpdateKeeps(e, Perform(e, a), id, Perform(e, a).jobs[id]);
  }

  lemma UpdatedJobOk(e: Engine, a: Action)
    requires Enabled(e, a) && (a.Drains? || a.Decides? || a.Records? || a.Cancels?) && JobOk(e.jobs[a.id])
    ensures JobOk(Perform(e, a).jobs[a.id]) && (e.jobs[a.id].state.Terminal() ==> Perform(e, a).jobs[a.id].state.Terminal())
    ensures Perform(e, a) == e.(jobs := e.jobs[a.id := Perform(e, a).jobs[a.id]])
  {
  }

  lemma StepKeeps(e: Engine, a: Action)
    requires EngineOk(e)
    ensures EngineOk(Next(e, a))
  {
    if !Enabled(e, a) { return; }
    match a
    case Tick(_) =>
    case StartChecks(_) => PlainKeeps(e, a);
    case StartPrunes => OnlyTerminalPruned(e);
    case StartRechecks => PlainKeeps(e, a);
    case StartAborts => PlainKeeps(e, a);
    case StartLaunches(timeoutMs) => InsertKeeps(e, Next(e, a), Launched(e.now, timeoutMs), []);
    case StartFailsToLaunch(timeoutMs, message) => InsertKeeps(e, Next(e, a), FailedLaunch(e.now, timeoutMs), message);
    case StartOrders => OrderKeeps(e);
    case Writes(id, chunk) => WriteKeeps(e, id, OutputOf(e, id) + chunk);
    case Drains(id, _, _) => UpdateStepKeeps(e, a, id);
    case Decides(id) => UpdateStepKeeps(e, a, id);
    case Records(id) => UpdateStepKeeps(e, a, id);
    case Cancels(id) => UpdateStepKeeps(e, a, id);
  }

  lemma {:induction false} RunKeeps(e: Engine, run: seq<Action>)
    requires EngineOk(e)
    ensures EngineOk(Execute(e, run))
    decreases |run|
  {
    if run != [] {
      StepKeeps(e, run[0]);
      RunKeeps(Next(e, run[0]), run[1..]);
    }
  }

  /** After every run: at most two jobs that are not terminal, at most 64 retained, and
      the order lists every key once (bar one still being inserted). */
  lemma TableStaysBounded(start: nat, run: seq<Action>)
    ensures var e := Execute(Empty(start), run);
      |ActiveJobs(e.jobs)| <= MAX_ACTIVE_JOBS && |e.jobs| <= MAX_RETAINED_JOBS && OrderOk(e)
  {
    assert ActiveJobs(Empty(start).jobs) == {};
    RunKeeps(Empty(start), run);
  }

  /** The refusal for too many retained jobs is unreachable: when pruning stops, there is
      room. */
  lemma PruningAlwaysMakesRoom(start: nat, run: seq<Action>)
    requires var e := Execute(Empty(start), run); e.starting.Checked? && !CanPrune(e)
    ensures |Execute(Empty(start), run).jobs| < MAX_RETAINED_JOBS
  {
    assert ActiveJobs(Empty(start).jobs) == {};
    RunKeeps(Empty(start), run);
    var e := Execute(Empty(start), run);
    if |e.jobs| >= MAX_RETAINED_JOBS { FullTableCanPrune(e); }
  }

  /** `x` stands before `y` in the order. */
  ghost predicate Before(order: seq<JobId>, x: JobId, y: JobId) {
    exists i, j :: 0 <= i < j < |order| && order[i] == x && order[j] == y
  }

  lemma {:induction false} WithoutKeepsOrder(order: seq<JobId>, id: JobId, x: JobId, y: JobId)
    requires Before(order, x, y) && x != id && y != id
    ensures Before(Without(order, id), x, y)
  {
    var i, j :| 0 <= i < j < |order| && order[i] == x && order[j] == y;
    var rest := Without(order[1..], id);
    if i > 0 {
      assert order[1..][i - 1] == x && order[1..][j - 1] == y;
      WithoutKeepsOrder(order[1..], id, x, y);
      var k, l :| 0 <= k < l < |rest| && rest[k] == x && rest[l] == y;
      if order[0] != id { assert ([order[0]] + rest)[k + 1] == x && ([order[0]] + rest)[l + 1] == y; }
    } else {
      assert order[1..][j - 1] == y;
      assert y in rest;
      var l :| 0 <= l < |rest| && rest[l] == y;
      assert ([order[0]] + rest)[0] == x && ([order[0]] + rest)[l + 1] == y;
    }
  }

  /** The pruning loop keeps every active job unchanged, drops only terminal ones, never
      more than the new job needs, and always makes room for the job being started. */
  lemma {:induction false} PruneKeepsActive(e: Engine)
    requires EngineOk(e)
    ensures var f := Prune(e);
      && EngineOk(f) && f.starting == e.starting && !CanPrune(f)
      && (forall id :: id in f.jobs ==> id in e.jobs && f.jobs[id] == e.jobs[id])
      && (forall id :: id in e.jobs && id !in f.jobs ==> e.jobs[id].state.Terminal())
      && (e.starting.Checked? ==> |f.jobs| < MAX_RETAINED_JOBS)
      && |f.jobs| >= Min(|e.jobs|, MAX_RETAINED_JOBS - 1)
    decreases |e.jobs|
  {
    if CanPrune(e) {
      OnlyTerminalPruned(e);
      PruneKeepsActive(PruneOne(e));
    } else if e.starting.Checked? && |e.jobs| >= MAX_RETAINED_JOBS {
      FullTableCanPrune(e);
    }
  }

  /** It drops the oldest first: of two terminal jobs, the older never outlives the
      younger. */
  lemma {:induction false} PruneIsOldestFirst(e: Engine, x: JobId, y: JobId)
    requires EngineOk(e) && Before(e.order, x, y) && e.jobs[x].state.Terminal()
    requires x in Prune(e).jobs
    ensures y in Prune(e).jobs
    decreases |e.jobs|
  {
    if CanPrune(e) {
      OnlyTerminalPruned(e);
      PruneKeepsActive(PruneOne(e));
      PruneOneKeepsOrder(e, x, y);
      PruneIsOldestFirst(PruneOne(e), x, y);
    } else {
      assert exists j :: 0 <= j < |e.order| && e.order[j] == y;
    }
  }

  lemma OldestIsFirst(jobs: map<JobId, Job>, order: seq<JobId>, i: nat)
    requires i < |order| && order[i] in jobs && jobs[order[i]].state.Terminal()
    ensures OldestTerminal(jobs, order) <= i
  {
  }

  /** While the older of two jobs is not pruned, neither is the younger. */
  lemma PruneOneKeepsOrder(e: Engine, x: JobId, y: JobId)
    requires EngineOk(e) && CanPrune(e) && Before(e.order, x, y) && e.jobs[x].state.Terminal()
    requires x in PruneOne(e).jobs
    ensures Before(PruneOne(e).order, x, y) && y in PruneOne(e).jobs && PruneOne(e).jobs[x] == e.jobs[x]
  {
    var first := OldestTerminal(e.jobs, e.order);
    var i, j :| 0 <= i < j < |e.order| && e.order[i] == x && e.order[j] == y;
    OldestIsFirst(e.jobs, e.order, i);
    assert x != e.order[first] && y != e.order[first];
    WithoutKeepsOrder(e.order, e.order[first], x, y);
  }

  // ---- Terminal states -------------------------------------------------------

  /** The transitions the shared model allows. */
  predicate ValidTransition(from: JobState, to: JobState) {
    || from == to
    || (from.Queued? && (to.Running? || to.Failed? || to.Cancelled?))
    || (from.Running? && to.Terminal())
  }

  lemma StepsAreValidTransitions(e: Engine, a: Action, id: JobId)
    requires EngineOk(e) && id in e.jobs && id in Next(e, a).jobs
    ensures ValidTransition(e.jobs[id].state, Next(e, a).jobs[id].state)
    ensures e.jobs[id].state.Terminal() ==> Next(e, a).jobs[id] == e.jobs[id] && Next(e, a).outputs[id] == e.outputs[id]
  {
    assert JobOk(e.jobs[id]);
    StepKeeps(e, a);
  }

  /** The job stays in the table throughout the run. */
  ghost predicate Retained(e: Engine, run: seq<Action>, id: JobId)
    decreases |run|
  {
    id in e.jobs && (run != [] ==> Retained(Next(e, run[0]), run[1..], id))
  }

  /** A terminal job is written once: while it is retained, its state, outcome and whole
      output never change again. So a log chunk that says eof is the last. */
  lemma {:induction false} TerminalIsFinal(e: Engine, run: seq<Action>, id: JobId)
    requires EngineOk(e) && Retained(e, run, id) && e.jobs[id].state.Terminal()
    ensures var f := Execute(e, run);
      id in f.jobs && f.jobs[id] == e.jobs[id] && OutputOf(f, id) == OutputOf(e, id)
    decreases |run|
  {
    if run != [] {
      StepKeeps(e, run[0]);
      assert id in Next(e, run[0]).jobs;
      StepsAreValidTransitions(e, run[0], id);
      TerminalIsFinal(Next(e, run[0]), run[1..], id);
    }
  }

  // ---- Status replies --------------------------------------------------------

  /** The cross-field rules the control plane checks a job status against. */
  predicate JobStatus(job: Job) {
    && (job.state.Terminal() <==> job.finishedAt.Some?)
    && (job.state.Queued? <==> job.startedAt.None?)
    && (job.state.Succeeded? ==> job.exitCode == Some(0))
  }

  /** The action enters a job under this id. */
  predicate Enters(e: Engine, a: Action, id: JobId) {
    Enabled(e, a) && (a.StartLaunches? || a.StartFailsToLaunch?) && e.starting.id == id
  }

  /** Was the id's last entry in the run a launch, and not a failure to launch? */
  function LaunchedIn(e: Engine, run: seq<Action>, id: JobId, before: bool): bool
    decreases |run|
  {
    if run == [] then before
    else LaunchedIn(Next(e, run[0]), run[1..], id, if Enters(e, run[0], id) then run[0].StartLaunches? else before)
  }

  lemma StepKeepsStart(e: Engine, a: Action, id: JobId)
    requires id in Next(e, a).jobs
    ensures var job := Next(e, a).jobs[id];
      if Enters(e, a, id) then job.startedAt.Some? <==> a.StartLaunches?
      else id in e.jobs && job.startedAt == e.jobs[id].startedAt
  {
  }

  lemma {:induction false} StartMeansLaunched(e: Engine, run: seq<Action>, id: JobId, before: bool)
    requires id in e.jobs ==> (e.jobs[id].startedAt.Some? <==> before)
    ensures var f := Execute(e, run);
      id in f.jobs ==> (f.jobs[id].startedAt.Some? <==> LaunchedIn(e, run, id, before))
    decreases |run|
  {
    if run != [] {
      var a := run[0];
      if id in Next(e, a).jobs { StepKeepsStart(e, a, id); }
      StartMeansLaunched(Next(e, a), run[1..], id, if Enters(e, a, id) then a.StartLaunches? else before);
    }
  }

  /** The status of a job of the table satisfies the rules exactly when the run entered it
      by a launch: a failed launch reports a finish without a start. */
  lemma StatusRulesMeanLaunched(start: nat, run: seq<Action>, id: JobId)
    requires id in Execute(Empty(start), run).jobs
    ensures JobStatus(Execute(Empty(start), run).jobs[id]) <==> LaunchedIn(Empty(start), run, id, false)
  {
    assert ActiveJobs(Empty(start).jobs) == {};
    RunKeeps(Empty(start), run);
    assert JobOk(Execute(Empty(start), run).jobs[id]);
    StartMeansLaunched(Empty(start), run, id, false);
  }

  const FAILING_START: seq<Action> :=
    [StartChecks("j"), StartRechecks, StartFailsToLaunch(1000, []), StartOrders]

  /** A run of one failed start: its status breaks the rules. */
  lemma AnExampleOfARefusedStatus()
    ensures var e := Execute(Empty(0), FAILING_START);
      "j" in e.jobs && e.jobs["j"].state.Failed? && !JobStatus(e.jobs["j"])
  {
    var e0 := Empty(0);
    assert ActiveJobs(e0.jobs) == {};
    var e1 := Next(e0, FAILING_START[0]);
    assert e1 == e0.(starting := Checked("j"));
    var e2 := Next(e1, FAILING_START[1]);
    assert e2 == e0.(starting := Ready("j"));
    var e3 := Next(e2, FAILING_START[2]);
    assert e3.jobs["j"] == FailedLaunch(0, 1000) && e3.starting == Inserted("j");
    assert FAILING_START[1..][1..] == FAILING_START[2..] && FAILING_START[2..][1..] == FAILING_START[3..] && FAILING_START[3..][1..] == [];
    assert Execute(e0, FAILING_START) == Execute(e2, FAILING_START[2..]);
    assert Execute(e2, FAILING_START[2..]) == Next(e3, FAILING_START[3]);
  }

  /** A log reply of a job is at eof only if the job is terminal and all was read. */
  lemma EofMeansTerminal(start: nat, run: seq<Action>, later: seq<Action>, id: JobId, offset: nat, maximum: nat)
    requires var e := Execute(Empty(start), run);
      id in e.jobs && offset <= |OutputOf(e, id)| && Retained(e, later, id)
      && Slice(OutputOf(e, id), offset, maximum, e.jobs[id].state.Terminal()).value.eof
    ensures var e := Execute(Empty(start), run); var f := Execute(e, later);
      id in f.jobs && OutputOf(f, id) == OutputOf(e, id)
      && Slice(OutputOf(e, id), offset, maximum, true).value.nextOffset == |OutputOf(f, id)|
  {
    assert ActiveJobs(Empty(start).jobs) == {};
    RunKeeps(Empty(start), run);
    TerminalIsFinal(Execute(Empty(start), run), later, id);
  }
}
