/** The engine object: the job table, the order vector and the methods that change them. */
module JobEngine {
  import opened Basics
  import opened LogRing
  import opened Jobs
  import opened JobOutcomes

  /** Every log is a ring of its own that has taken all of its job's output. */
  ghost predicate Rings(logs: map<JobId, Ring>, outputs: map<JobId, bytes>)
    reads logs.Values
  {
    && logs.Keys == outputs.Keys
    && (forall id :: id in logs ==> logs[id].Written() == Some(outputs[id]))
    && (forall x, y :: x in logs && y in logs && x != y ==> logs[x] != logs[y])
  }

  lemma RingsWithout(logs: map<JobId, Ring>, outputs: map<JobId, bytes>, id: JobId)
    requires Rings(logs, outputs)
    ensures Rings(logs - {id}, outputs - {id}) && (logs - {id}).Keys == logs.Keys - {id}
  {
  }

  lemma RemovalShrinks<T>(table: map<JobId, T>, id: JobId)
    requires id in table
    ensures (table - {id}).Keys == table.Keys - {id} && |table - {id}| < |table|
  {
    assert |(table - {id}).Keys| < |table.Keys|;
  }

  lemma RingsWith(logs: map<JobId, Ring>, outputs: map<JobId, bytes>, id: JobId, log: Ring)
    requires Rings(logs, outputs) && log.Valid() && log !in logs.Values
    ensures Rings(logs[id := log], outputs[id := log.output]) && logs[id := log].Keys == logs.Keys + {id}
  {
    forall x | x in logs ensures logs[x] != log { assert logs[x] in logs.Values; }
  }

  class JobEngine {
    var now: nat
    var jobs: map<JobId, Job>
    var logs: map<JobId, Ring>
    var order: seq<JobId>
    var starting: Starting
    ghost var outputs: map<JobId, bytes>

    ghost function Model(): Engine
      reads this
    {
      Engine(now, jobs, outputs, order, starting)
    }

    ghost predicate Valid()
      reads this, logs.Values
    {
      logs.Keys == jobs.Keys && Rings(logs, outputs)
    }

    constructor (now: nat)
      ensures Valid() && Model() == Empty(now)
    {
      this.now, jobs, logs, order, starting, outputs := now, map[], map[], [], Idle, map[];
    }

    /** The limit check of a start call: refuses, or admits the id and changes nothing else. */
    method CheckLimits(id: JobId) returns (refusal: Option<JobError>)
      requires Valid() && starting.Idle?
      modifies this`starting
      ensures Valid()
      ensures refusal == CheckRefusal(old(Model()), id)
      ensures Model() == Next(old(Model()), StartChecks(id))
    {
      if id in jobs { return Some(Conflict); }
      if |ActiveJobs(jobs)| >= MAX_ACTIVE_JOBS { return Some(TooManyActive); }
      starting := Checked(id);
      refusal := None;
    }

    /** The first terminal job in the order, or the order's length. */
    method FindTerminal() returns (index: nat)
      ensures index == OldestTerminal(jobs, order)
    {
      index := 0;
      assert order[0..] == order;
      while index < |order| && !(order[index] in jobs && jobs[order[index]].state.Terminal())
        invariant index <= |order|
        invariant index + OldestTerminal(jobs, order[index..]) == OldestTerminal(jobs, order)
      {
        assert order[index..][1..] == order[index + 1..];
        index := index + 1;
      }
    }

    /** Keeps the order's other ids, in place. */
    method Forget(id: JobId)
      modifies this`order
      ensures order == Without(old(order), id)
    {
      var kept: seq<JobId> := [];
      var i := 0;
      assert order[0..] == order;
      while i < |order|
        invariant i <= |order| && order == old(order)
        invariant kept + Without(order[i..], id) == Without(order, id)
      {
        assert order[i..][1..] == order[i + 1..];
        if order[i] != id { kept := kept + [order[i]]; }
        i := i + 1;
      }
      order := kept;
    }

    /** Removes terminal jobs, oldest first, until the table has room. */
    method PruneTerminalJobs()
      requires Valid()
      modifies this`jobs, this`logs, this`outputs, this`order
      ensures Valid() && Model() == Prune(old(Model()))
    {
      while |jobs| >= MAX_RETAINED_JOBS
        invariant Valid() && Prune(Model()) == Prune(old(Model()))
        decreases |jobs|
      {
        var index := FindTerminal();
        if index == |order| { return; }
        DropJob(order[index]);
      }
    }

    method RemoveJob(id: JobId)
      modifies this`jobs, this`logs, this`outputs
      ensures jobs == old(jobs) - {id} && logs == old(logs) - {id} && outputs == old(outputs) - {id}
    {
      jobs, logs, outputs := jobs - {id}, logs - {id}, outputs - {id};
    }

    /** One job leaves the table, its ring and the order. */
    method DropJob(id: JobId)
      requires Valid() && id in jobs
      modifies this`jobs, this`logs, this`outputs, this`order
      ensures Valid() && Model() == Drop(old(Model()), id) && |jobs| < |old(jobs)|
    {
      RemovalShrinks(jobs, id);
      RingsWithout(logs, outputs, id);
      RemoveJob(id);
      Forget(id);
    }

    /** The second limit check, after pruning. */
    method RecheckRetained() returns (refusal: Option<JobError>)
      requires Valid() && starting.Checked? && !CanPrune(Model())
      modifies this`starting
      ensures Valid()
      ensures refusal == if |jobs| >= MAX_RETAINED_JOBS then Some(TooManyRetained) else None
      ensures Model() == Next(old(Model()), StartRechecks)
    {
      if |jobs| >= MAX_RETAINED_JOBS { starting := Idle; return Some(TooManyRetained); }
      starting := Ready(starting.id);
      refusal := None;
    }

    /** The start call's job enters the table with its log. */
    method InsertJob(job: Job, log: Ring)
      requires Valid() && starting.Ready? && log.Valid() && log !in logs.Values
      modifies this`jobs, this`logs, this`outputs, this`starting
      ensures Valid() && Model() == Insert(old(Model()), job, log.output)
    {
      RingsWith(logs, outputs, starting.id, log);
      assert jobs[starting.id := job].Keys == jobs.Keys + {starting.id};
      jobs, logs, outputs, starting :=
        jobs[starting.id := job], logs[starting.id := log], outputs[starting.id := log.output], Inserted(starting.id);
    }

    /** Spawns the process and inserts the job, running with an empty log, or failed with
        the message in its log. */
    method Launch(timeoutMs: nat, spawned: bool, message: bytes)
      requires Valid() && starting.Ready?
      modifies this`jobs, this`logs, this`outputs, this`starting
      ensures Valid()
      ensures Model() == Next(old(Model()), if spawned then StartLaunches(timeoutMs) else StartFailsToLaunch(timeoutMs, message))
    {
      var log := new Ring();
      if spawned {
        InsertJob(Launched(now, timeoutMs), log);
      } else {
        log.Append(message);
        assert [] + message == message;
        InsertJob(FailedLaunch(now, timeoutMs), log);
      }
    }

    /** The worker found output in a pipe. */
    method WriteLog(id: JobId, chunk: bytes)
      requires Valid() && Enabled(Model(), Writes(id, chunk))
      modifies this`outputs, logs[id]
      ensures Valid() && Model() == Next(old(Model()), Writes(id, chunk))
    {
      logs[id].Append(chunk);
      outputs := outputs[id := outputs[id] + chunk];
    }

    method AppendOrder()
      requires Valid() && starting.Inserted?
      modifies this`order, this`starting
      ensures Valid()
      ensures Model() == Next(old(Model()), StartOrders)
    {
      order := order + [starting.id];
      starting := Idle;
    }

    /** The wait thread has seen the process end, or has ended it at the deadline, and has
        emptied its pipes. */
    method StopStreaming(id: JobId, timedOut: bool, status: WaitStatus)
      requires Valid() && Enabled(Model(), Drains(id, timedOut, status))
      modifies this`jobs
      ensures Valid()
      ensures Model() == Next(old(Model()), Drains(id, timedOut, status))
    {
      jobs := jobs[id := jobs[id].(worker := Drained(timedOut, status))];
    }

    /** The wait thread reads the cancellation flag and determines the outcome. */
    method DetermineOutcome(id: JobId) returns (outcome: Outcome)
      requires Valid() && Enabled(Model(), Decides(id))
      modifies this`jobs
      ensures Valid()
      ensures Model() == Next(old(Model()), Decides(id))
      ensures var job := old(jobs)[id];
        Deserved(outcome.state, outcome.exitCode, outcome.signal, job.cancelRequested, Ending(job.worker.timedOut, job.worker.status))
    {
      var job := jobs[id];
      var status := job.worker.status;
      if job.worker.timedOut && !job.cancelRequested {
        outcome := Outcome(TimedOut, None, None);
      } else if job.cancelRequested {
        outcome := Outcome(Cancelled, None, None);
      } else if status.Exited? {
        outcome := Outcome(if status.code == 0 then Succeeded else Failed, Some(status.code), None);
      } else if status.Signaled? {
        outcome := Outcome(Failed, None, Some(status.number));
      } else {
        outcome := Outcome(Failed, None, None);
      }
      jobs := jobs[id := job.(worker := Decided(outcome))];
    }

    /** The worker's last critical section. */
    method RecordOutcome(id: JobId)
      requires Valid() && Enabled(Model(), Records(id))
      modifies this`jobs
      ensures Valid()
      ensures Model() == Next(old(Model()), Records(id))
    {
      var job := jobs[id];
      var outcome := job.worker.outcome;
      job := job.(finishedAt := Some(now), state := outcome.state, worker := Gone);
      if outcome.signal.Some? { job := job.(signal := outcome.signal); } else { job := job.(exitCode := outcome.exitCode); }
      jobs := jobs[id := job];
    }

    /** Cancelling a terminal job reports it; an unfinished one is flagged. */
    method Cancel(id: JobId) returns (result: Result<Job, JobError>)
      requires Valid()
      modifies this`jobs
      ensures Valid()
      ensures Model() == Next(old(Model()), Cancels(id))
      ensures result.Ok? ==> id in jobs && result.value == jobs[id] && (jobs[id].state.Terminal() || jobs[id].cancelRequested)
      ensures result == Err(NotFound) <==> id !in old(jobs)
    {
      if id !in jobs { return Err(NotFound); }
      if jobs[id].state.Terminal() { return Ok(jobs[id]); }
      if jobs[id].startedAt.None? { return Err(NotStarted); }
      jobs := jobs[id := jobs[id].(cancelRequested := true)];
      result := Ok(jobs[id]);
    }

    /** A status reply's log part. The ring holds a mebibyte at most, yet answers from it
        as from all that the job has ever written. */
    method ReadLog(id: JobId, logOffset: nat, maxBytes: nat) returns (result: Option<Result<LogChunk, LogError>>)
      requires Valid()
      ensures result == if id in jobs then Some(Slice(outputs[id], logOffset, maxBytes, jobs[id].state.Terminal())) else None
      ensures id in jobs ==> |logs[id].buf| <= MAX_LOG_BYTES
    {
      if id !in jobs { return None; }
      var chunk := logs[id].Read(logOffset, maxBytes, jobs[id].state.Terminal());
      result := Some(chunk);
    }
  }
}
