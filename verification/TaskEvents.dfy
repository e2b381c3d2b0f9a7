/**
 The event handlers and queued work that change tasks, jobs and returns
 (saltbox_core/salt/handlers, saltbox_core/tasks/tiq_tasks.py, saltbox_core/tasks/tasks_watcher.py).
 */
module TaskEvents {
  import opened Wrappers
  import opened Sequences
  import opened TaskStatuses
  import opened TaskProtocol
  import opened TaskScheduling

  datatype NotFound = NoReturn | NoTask | NoTaskMinion | NoJob

  class Handlers {
    var records: State

    constructor (s: State)
      ensures records == s
    {
      records := s;
    }

    /**
     The new-job event: the job runs, and has one waiting return for each minion and one ignored for each missing one.
     A job that is not known is stored first, as nobody's; `record` is what the event says of it.
     */
    method HandleNewJob(j: JobId, record: Job, minions: seq<Minion>, missing: seq<Minion>)
      requires j in records.jobs ==> records.jobs[j].status == JobStarting
      requires record.status == JobRunning && record.source == NoSource
      requires forall m :: m in minions ==> m !in missing
      modifies this
      ensures old(j in records.jobs) ==> records == Next(old(records), NewJob(j, Elements(minions), Elements(missing)))
      ensures old(j !in records.jobs) ==>
        records == Next(old(records), ForeignJob(j, record, Elements(minions), Elements(missing)))
    {
      if j in records.jobs {
        records := records.(jobs := records.jobs[j := records.jobs[j].(status := JobRunning)]);
      } else {
        records := records.(jobs := records.jobs[j := record]);
      }
      var created := ReturnsFor(j, minions, ReturnWaiting);
      var ignored := ReturnsFor(j, missing, ReturnIgnored);
      records := records.(jobReturns := records.jobReturns + created + ignored);
      assert Elements(missing) - Elements(minions) == Elements(missing);
    }

    /** The documents to create for one status. */
    method ReturnsFor(j: JobId, minions: seq<Minion>, status: ReturnStatus) returns (documents: map<ReturnKey, Return>)
      ensures documents == map m | m in Elements(minions) :: ReturnKey(j, m) := Return(status, None, None)
    {
      documents := map[];
      for i := 0 to |minions|
        invariant documents == map m | m in Elements(minions[..i]) :: ReturnKey(j, m) := Return(status, None, None)
      {
        documents := documents[ReturnKey(j, minions[i]) := Return(status, None, None)];
        assert minions[..i + 1] == minions[..i] + [minions[i]];
      }
      assert minions[..|minions|] == minions;
    }

    /** A return event: the first one with a retcode is kept, then the job is looked at. */
    method HandleJobReturn(j: JobId, m: Minion, retcode: Option<int>) returns (outcome: Result<bool, NotFound>)
      modifies this
      ensures outcome.Ok? <==> IsEnabled(old(records), Returned(j, m, retcode))
      ensures outcome.Ok? ==> records == Next(old(records), Returned(j, m, retcode))
      ensures outcome.Ok? ==> outcome.value == old(records).jobReturns[ReturnKey(j, m)].retcode.None?
      ensures outcome.Err? ==> records == old(records)
    {
      var r := ReturnKey(j, m);
      if j !in records.jobs {
        return Err(NoJob);
      }
      if r !in records.jobReturns {
        return Err(NoReturn);
      }
      ghost var s := records;
      var isNew := records.jobReturns[r].retcode.None?;
      if isNew {
        var status := if retcode == Some(0) then ReturnSuccess else ReturnFailed;
        records := records.(jobReturns :=
          records.jobReturns[r := records.jobReturns[r].(status := status, retcode := retcode)]);
      } else {
        assert records.jobReturns[r := records.jobReturns[r]] == records.jobReturns;
      }
      if records.jobs[j].status == JobRunning && !HasWaitingReturn(records, j) {
        records := records.(jobs := records.jobs[j := records.jobs[j].(status := JobFinished)]);
      }
      return Ok(isNew);
    }

    /** process_task_job_return, queued after the return was recorded. */
    method ProcessTaskJobReturn(j: JobId, m: Minion) returns (outcome: Result<(), NotFound>)
      requires j in records.jobs && ReturnKey(j, m) in records.jobReturns
      requires records.jobReturns[ReturnKey(j, m)].status in {ReturnSuccess, ReturnFailed}
      modifies this
      ensures old(records).jobs[j].source.FromTask? ==> (outcome.Ok? <==> IsEnabled(old(records), TaskReturn(j, m)))
      ensures records ==
        if IsEnabled(old(records), TaskReturn(j, m)) then Next(old(records), TaskReturn(j, m)) else old(records)
    {
      var source := records.jobs[j].source;
      if !source.FromTask? {
        return Ok(());
      }
      if source.task !in records.tasks {
        return Err(NoTask);
      }
      var k := RowKey(source.task, m);
      if k !in records.rows {
        return Err(NoTaskMinion);
      }
      var status;
      if records.jobReturns[ReturnKey(j, m)].retcode == Some(0) {
        status := Success;
      } else if CountRuns(records, k) >= records.tasks[source.task].maxRetries {
        status := Failed;
      } else {
        status := Pending;
      }
      records := records.(rows := records.rows[k := WithStatus(records.rows[k], status)]);
      return Ok(());
    }

    /** process_task_job_error, queued after the launch error of the job. */
    method ProcessTaskJobError(j: JobId) returns (outcome: Result<(), NotFound>)
      requires j in records.jobs && records.jobs[j].status == JobLaunchError
      modifies this
      ensures records ==
        if IsEnabled(old(records), TaskError(j)) then Next(old(records), TaskError(j)) else old(records)
      ensures old(records).jobs[j].source != NoSource ==> (outcome.Ok? <==> IsEnabled(old(records), TaskError(j)))
    {
      var job := records.jobs[j];
      if job.source == NoSource {
        return Ok(());
      }
      if job.source.task !in records.tasks {
        return Err(NoTask);
      }
      records := records.(rows := map k | k in records.rows ::
        if k.task == job.source.task && k.minion in job.targets
        then WithStatus(records.rows[k], Failed) else records.rows[k]);
      return Ok(());
    }

    /** release_locked_task_minions, over the rows that were locked when it began. */
    method ReleaseLockedTaskMinions(now: int, minAge: int) returns (ghost steps: seq<Step>)
      modifies this
      ensures records == Released(old(records), Locked(old(records), now, minAge))
      ensures After(old(records), steps) == Some(records)
    {
      ghost var s := records;
      var locked := Locked(records, now, minAge);
      var left := locked;
      steps := [];
      assert Released(s, locked - left).rows == s.rows;
      while left != {}
        invariant left <= locked && records == Released(s, locked - left) && After(s, steps) == Some(records)
        decreases left
      {
        var k :| k in left;
        ReleaseIsNext(s, locked - left, k);
        OneStepMore(s, steps, records, Release(k));
        steps := steps + [Release(k)];
        var maxRetries := if k.task in records.tasks then records.tasks[k.task].maxRetries else 0;
        var status := if CountRuns(records, k) >= maxRetries then Failed else Pending;
        records := records.(rows := records.rows[k := WithStatus(records.rows[k], status)]);
        assert locked - (left - {k}) == locked - left + {k};
        left := left - {k};
      }
      assert locked - left == locked;
    }

    /** restart_on_minions: the rows are pending and the task runs again, unless it is stopping. */
    method RestartOnMinions(t: TaskId, minions: set<Minion>, status: TaskStatus) returns (newStatus: TaskStatus)
      requires t in records.tasks
      modifies this
      ensures records == if status == Stopping then old(records) else Next(old(records), Restart(t, minions))
      ensures newStatus == if status == Stopping then Stopping else Running
    {
      newStatus := status;
      if status != Stopping {
        records := records.(rows := SetAll(records, t, minions, Pending));
        newStatus := Running;
      }
    }
  }

  predicate IsLocked(s: State, k: RowKey, now: int, minAge: int) {
    && k in s.rows && s.rows[k].status == InWork
    && s.rows[k].startedAt.Some? && s.rows[k].startedAt.value < now - minAge && !HasUnfinishedReturn(s, k)
  }

  function Locked(s: State, now: int, minAge: int): set<RowKey> {
    set k | k in s.rows && IsLocked(s, k, now, minAge)
  }

  /** Every one of the rows is tried again or fails, whatever the order. */
  function Released(s: State, locked: set<RowKey>): State {
    s.(rows := map k | k in s.rows ::
         if k in locked
         then WithStatus(s.rows[k], AfterFailure(s, k, if k.task in s.tasks then s.tasks[k.task].maxRetries else 0))
         else s.rows[k])
  }

  lemma ReleaseIsNext(s: State, done: set<RowKey>, k: RowKey)
    requires k in s.rows && s.rows[k].status == InWork && !HasUnfinishedReturn(s, k) && k !in done
    ensures IsEnabled(Released(s, done), Release(k))
    ensures Next(Released(s, done), Release(k)) == Released(s, done + {k})
    ensures CountRuns(Released(s, done), k) == CountRuns(s, k)
  {
    var n := Released(s, done);
    assert RecordedRuns(n, k) == RecordedRuns(s, k);
    assert HasUnfinishedReturn(n, k) == HasUnfinishedReturn(s, k);
    assert Next(n, Release(k)).rows == Released(s, done + {k}).rows;
  }
}
