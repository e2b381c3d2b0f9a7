/** The jobs watcher (saltbox_core/jobs/jobs_watcher.py). */
module JobsWatcher {
  import opened Wrappers
  import opened TaskStatuses
  import opened TaskProtocol
  import opened TaskSafety
  import opened TaskScheduling
  import opened Deadlines

  class Watcher {
    var records: State

    constructor (s: State)
      ensures records == s
    {
      records := s;
    }

    /** timeout_job_return: nothing happens when the return came in the meantime. */
    method TimeoutJobReturn(r: ReturnKey)
      requires r in records.jobReturns && r.job in records.jobs
      modifies this
      ensures records ==
        if old(records).jobReturns[r].status == ReturnWaiting
        then TimedOut(old(records), r.job, r.minion) else old(records)
    {
      var s := records;
      if s.jobReturns[r].status != ReturnWaiting {
        return;
      }
      records := records.(jobReturns := s.jobReturns[r := s.jobReturns[r].(status := ReturnTimeout)]);
      TimeoutKeepsCounts(s, r);
      var source := s.jobs[r.job].source;
      if source.FromTask? && source.task in records.tasks {
        var k := RowKey(source.task, r.minion);
        if k in records.rows && records.rows[k].status != Pending {
          var status := AfterFailure(records, k, records.tasks[source.task].maxRetries);
          records := records.(rows := records.rows[k := WithStatus(records.rows[k], status)]);
        }
      }
      assert ReturnKey(r.job, r.minion) == r;
    }

    /** finish_completed_jobs: one bulk update of the running ones among the jobs that wait for nothing. */
    method FinishCompletedJobs(touched: set<JobId>)
      requires touched <= records.jobs.Keys
      modifies this
      ensures records == AllFinished(old(records), touched)
    {
      var s := records;
      var waiting := set r | r in s.jobReturns && r.job in touched && s.jobReturns[r].status == ReturnWaiting :: r.job;
      var toFinish := touched - waiting;
      records := records.(jobs := map j | j in s.jobs ::
        if j in toFinish && s.jobs[j].status == JobRunning then s.jobs[j].(status := JobFinished) else s.jobs[j]);
      assert records.jobs == AllFinished(s, touched).jobs;
    }

    /** The loop over the returns of one query: `s` is the state before the first, `done` what timed out since. */
    method TimeoutAll(expired: set<ReturnKey>, ghost s: State, ghost done: set<ReturnKey>)
      returns (ghost steps: seq<Step>)
      requires records == AllTimedOut(s, done) && expired !! done && AreWaiting(s, expired)
      modifies this
      ensures records == AllTimedOut(s, done + expired)
      ensures After(old(records), steps) == Some(records)
    {
      ghost var first := records;
      var left := expired;
      steps := [];
      assert done + (expired - left) == done;
      while left != {}
        invariant left <= expired && records == AllTimedOut(s, done + (expired - left))
        invariant After(first, steps) == Some(records)
        decreases left
      {
        var r :| r in left;
        TimeoutIsNext(s, done + (expired - left), r);
        OneStepMore(first, steps, records, TimeOut(r.job, r.minion));
        steps := steps + [TimeOut(r.job, r.minion)];
        TimeoutJobReturn(r);
        assert done + (expired - left) + {r} == done + (expired - (left - {r}));
        left := left - {r};
      }
      assert done + (expired - left) == done + expired;
    }

    method ProcessExpiredJobs(now: int) returns (ghost steps: seq<Step>)
      modifies this
      ensures records == JobsHalf(old(records), now)
      ensures After(old(records), steps) == Some(records)
    {
      ghost var s := records;
      var overdue := OverdueJobs(records, now);
      var left := overdue;
      steps := [];
      NoneTimedOut(s);
      assert WithJobOf(s, now, overdue - left) == {};
      while left != {}
        invariant left <= overdue && records == AllTimedOut(s, WithJobOf(s, now, overdue - left))
        invariant After(s, steps) == Some(records)
        decreases left
      {
        var j :| j in left;
        var expired := set r | r in records.jobReturns && r.job == j
          && records.jobReturns[r].status == ReturnWaiting && records.jobReturns[r].ttl.None?;
        ReturnsOfJob(s, now, overdue - left, j);
        ghost var more := TimeoutAll(expired, s, WithJobOf(s, now, overdue - left));
        RunsAppend(s, steps, more);
        steps := steps + more;
        assert overdue - (left - {j}) == overdue - left + {j};
        left := left - {j};
      }
      assert WithJobOf(s, now, overdue) == WithJob(s, now) && overdue - left == overdue;
      ghost var more := FinishRun(records, overdue);
      RunsAppend(s, steps, more);
      steps := steps + more;
      FinishCompletedJobs(overdue);
    }

    method ProcessExpiredJobReturns(now: int) returns (ghost steps: seq<Step>)
      modifies this
      ensures records == ReturnsHalf(old(records), now)
      ensures After(old(records), steps) == Some(records)
    {
      ghost var s := records;
      var expired := Alone(records, now);
      NoneTimedOut(s);
      steps := TimeoutAll(expired, s, {});
      assert {} + expired == expired;
      var touched := set r | r in expired :: r.job;
      ghost var more := FinishRun(records, touched);
      RunsAppend(s, steps, more);
      steps := steps + more;
      FinishCompletedJobs(touched);
    }

    /** One pass of the endless loop is the deadline rule, and a run of the protocol. */
    method Process(now: int) returns (ghost steps: seq<Step>)
      modifies this
      ensures records == Pass(old(records), now)
      ensures After(old(records), steps) == Some(records)
    {
      ghost var s := records;
      steps := ProcessExpiredJobs(now);
      ghost var more := ProcessExpiredJobReturns(now);
      RunsAppend(s, steps, more);
      steps := steps + more;
      HalvesMakePass(s, now);
    }
  }

  ghost predicate AreWaiting(s: State, expired: set<ReturnKey>) {
    forall r :: r in expired ==> r in s.jobReturns && r.job in s.jobs && s.jobReturns[r].status == ReturnWaiting
  }

  lemma TimeoutIsNext(s: State, done: set<ReturnKey>, r: ReturnKey)
    requires r in s.jobReturns && r.job in s.jobs && s.jobReturns[r].status == ReturnWaiting && r !in done
    ensures IsEnabled(AllTimedOut(s, done), TimeOut(r.job, r.minion))
    ensures Next(AllTimedOut(s, done), TimeOut(r.job, r.minion)) == AllTimedOut(s, done + {r})
    ensures AllTimedOut(s, done).jobReturns[r].status == ReturnWaiting
    ensures TimedOut(AllTimedOut(s, done), r.job, r.minion) == AllTimedOut(s, done + {r})
  {
    assert ReturnKey(r.job, r.minion) == r;
    OneMoreTimedOut(s, done, r);
  }

  /** The returns without a ttl of their own of some of the overdue jobs. */
  function WithJobOf(s: State, now: int, some: set<JobId>): set<ReturnKey> {
    set r | r in s.jobReturns && r.job in some && ExpiresWithJob(s, r, now)
  }

  lemma ReturnsOfJob(s: State, now: int, some: set<JobId>, j: JobId)
    requires j in OverdueJobs(s, now) && j !in some
    ensures
      var n := AllTimedOut(s, WithJobOf(s, now, some));
      var expired := set r |
        r in n.jobReturns && r.job == j && n.jobReturns[r].status == ReturnWaiting && n.jobReturns[r].ttl.None?;
      && AreWaiting(s, expired) && expired !! WithJobOf(s, now, some)
      && WithJobOf(s, now, some) + expired == WithJobOf(s, now, some + {j})
  {
    var n := AllTimedOut(s, WithJobOf(s, now, some));
    forall r | r in s.jobReturns && r.job == j
      ensures n.jobReturns[r] == s.jobReturns[r]
    {
    }
  }

  /** Finishing jobs in bulk is a run of single finishes. */
  lemma FinishRun(s: State, touched: set<JobId>) returns (steps: seq<Step>)
    requires touched <= s.jobs.Keys
    ensures After(s, steps) == Some(AllFinished(s, touched))
    decreases touched
  {
    if touched == {} {
      steps := [];
      assert AllFinished(s, touched).jobs == s.jobs;
    } else {
      var j :| j in touched;
      var fewer := touched - {j};
      steps := FinishRun(s, fewer);
      var n := AllFinished(s, fewer);
      assert HasWaitingReturn(n, j) == HasWaitingReturn(s, j);
      if s.jobs[j].status == JobRunning && !HasWaitingReturn(s, j) {
        OneStepMore(s, steps, n, FinishJob(j));
        steps := steps + [FinishJob(j)];
        assert Next(n, FinishJob(j)).jobs == AllFinished(s, touched).jobs;
      } else {
        assert n.jobs == AllFinished(s, touched).jobs;
      }
    }
  }

  lemma TimeoutKeepsCounts(s: State, r: ReturnKey)
    requires r in s.jobReturns
    ensures
      var n := s.(jobReturns := s.jobReturns[r := s.jobReturns[r].(status := ReturnTimeout)]);
      forall k :: RecordedRuns(n, k) == RecordedRuns(s, k)
  {
    var n := s.(jobReturns := s.jobReturns[r := s.jobReturns[r].(status := ReturnTimeout)]);
    assert n.jobReturns.Keys == s.jobReturns.Keys;
    forall k
      ensures RecordedRuns(n, k) == RecordedRuns(s, k)
    {
      assert forall q :: q in n.jobReturns <==> q in s.jobReturns;
    }
  }
}
