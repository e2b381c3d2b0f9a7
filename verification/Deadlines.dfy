/**
 When a job stops waiting for its returns
 (saltbox_core/jobs/services/job_services.py, saltbox_core/jobs/jobs_watcher.py).
 */
module Deadlines {
  import opened Wrappers
  import opened TaskStatuses
  import opened TaskProtocol
  import opened TaskSafety

  function JobDeadline(job: Job): int {
    job.created + job.ttl
  }

  /** `waiting_expires_at_dt` of a return: its own ttl counts before the job's. */
  function Deadline(s: State, r: ReturnKey): int
    requires r in s.jobReturns && r.job in s.jobs
  {
    s.jobs[r.job].created + if s.jobReturns[r].ttl.Some? then s.jobReturns[r].ttl.value else s.jobs[r.job].ttl
  }

  // ---------- one pass of the jobs watcher ----------

  /** The returns process_expired_jobs looks at. */
  predicate ExpiresWithJob(s: State, r: ReturnKey, now: int) {
    && r in s.jobReturns && r.job in s.jobs && s.jobReturns[r].status == ReturnWaiting && s.jobReturns[r].ttl.None?
    && s.jobs[r.job].status == JobRunning && JobDeadline(s.jobs[r.job]) < now
  }

  /** The returns process_expired_job_returns looks at. */
  predicate ExpiresAlone(s: State, r: ReturnKey, now: int) {
    && r in s.jobReturns && r.job in s.jobs && s.jobReturns[r].status == ReturnWaiting && s.jobReturns[r].ttl.Some?
    && Deadline(s, r) < now
  }

  function WithJob(s: State, now: int): set<ReturnKey> {
    set r | r in s.jobReturns && ExpiresWithJob(s, r, now)
  }

  function Alone(s: State, now: int): set<ReturnKey> {
    set r | r in s.jobReturns && ExpiresAlone(s, r, now)
  }

  /** The row is that of a task, and one of the returns belongs to it. */
  predicate IsHit(s: State, k: RowKey, expired: set<ReturnKey>) {
    k.task in s.tasks && exists r ::
      r in expired && r.minion == k.minion && r.job in s.jobs && s.jobs[r.job].source == FromTask(k.task)
  }

  /** All the returns time out; the rows they hit are tried again or fail, whatever the order. */
  function AllTimedOut(s: State, expired: set<ReturnKey>): State {
    s.(
      jobReturns := map r | r in s.jobReturns ::
        if r in expired then s.jobReturns[r].(status := ReturnTimeout) else s.jobReturns[r],
      rows := map k | k in s.rows ::
        if s.rows[k].status != Pending && IsHit(s, k, expired)
        then WithStatus(s.rows[k], AfterFailure(s, k, s.tasks[k.task].maxRetries)) else s.rows[k])
  }

  /** finish_completed_jobs */
  function AllFinished(s: State, touched: set<JobId>): State {
    s.(jobs := map j | j in s.jobs ::
         if j in touched && s.jobs[j].status == JobRunning && !HasWaitingReturn(s, j)
         then s.jobs[j].(status := JobFinished) else s.jobs[j])
  }

  function OverdueJobs(s: State, now: int): set<JobId> {
    set j | j in s.jobs && s.jobs[j].status == JobRunning && JobDeadline(s.jobs[j]) < now
  }

  function JobsOfReturns(expired: set<ReturnKey>): set<JobId> {
    set r | r in expired :: r.job
  }

  /** A whole pass by the deadline rule alone: time out what is overdue, then finish what waits for nothing. */
  function Pass(s: State, now: int): State {
    AllFinished(
      AllTimedOut(s, WithJob(s, now) + Alone(s, now)),
      OverdueJobs(s, now) + JobsOfReturns(Alone(s, now)))
  }

  // ---------- timing out one return after another ----------

  lemma CountingIsUnmoved(s: State, expired: set<ReturnKey>)
    ensures forall k :: RecordedRuns(AllTimedOut(s, expired), k) == RecordedRuns(s, k)
  {
    var n := AllTimedOut(s, expired);
    assert n.jobReturns.Keys == s.jobReturns.Keys;
    forall k
      ensures RecordedRuns(n, k) == RecordedRuns(s, k)
    {
      forall j
        ensures j in RecordedRuns(n, k) <==> j in RecordedRuns(s, k)
      {
        if j in RecordedRuns(n, k) {
          var r :|
            r in n.jobReturns && r.minion == k.minion && r.job == j && r.job in n.jobs
            && n.jobs[r.job].source == FromTask(k.task);
          assert r in s.jobReturns;
        }
        if j in RecordedRuns(s, k) {
          var r :|
            r in s.jobReturns && r.minion == k.minion && r.job == j && r.job in s.jobs
            && s.jobs[r.job].source == FromTask(k.task);
          assert r in n.jobReturns;
        }
      }
    }
  }

  lemma NoneTimedOut(s: State)
    ensures AllTimedOut(s, {}) == s
  {
    assert AllTimedOut(s, {}).rows == s.rows;
    assert AllTimedOut(s, {}).jobReturns == s.jobReturns;
  }

  lemma OneMoreTimedOut(s: State, expired: set<ReturnKey>, r: ReturnKey)
    requires r in s.jobReturns && r.job in s.jobs
    ensures TimedOut(AllTimedOut(s, expired), r.job, r.minion) == AllTimedOut(s, expired + {r})
  {
    var after := TimedOutFields(AllTimedOut(s, expired), r);
    forall k | k in s.rows
      ensures after.rows[k] == AllTimedOut(s, expired + {r}).rows[k]
    {
      OneMoreRow(s, expired, r, k);
    }
    SameMaps(s, after, expired + {r});
  }

  /** What a timeout leaves alone. */
  lemma TimedOutFields(n: State, r: ReturnKey) returns (after: State)
    requires r in n.jobReturns && r.job in n.jobs
    ensures after == TimedOut(n, r.job, r.minion)
    ensures after.tasks == n.tasks && after.jobs == n.jobs && after.rows.Keys == n.rows.Keys
    ensures after.jobReturns == n.jobReturns[r := n.jobReturns[r].(status := ReturnTimeout)]
  {
    after := TimedOut(n, r.job, r.minion);
    assert ReturnKey(r.job, r.minion) == r;
  }

  lemma SameMaps(s: State, after: State, expired: set<ReturnKey>)
    requires after.tasks == s.tasks && after.jobs == s.jobs && after.rows.Keys == s.rows.Keys
    requires after.jobReturns.Keys == s.jobReturns.Keys
    requires forall r :: r in s.jobReturns ==> after.jobReturns[r] == AllTimedOut(s, expired).jobReturns[r]
    requires forall k :: k in s.rows ==> after.rows[k] == AllTimedOut(s, expired).rows[k]
    ensures after == AllTimedOut(s, expired)
  {
    assert after.rows == AllTimedOut(s, expired).rows;
    assert after.jobReturns == AllTimedOut(s, expired).jobReturns;
  }

  lemma OneMoreRow(s: State, expired: set<ReturnKey>, r: ReturnKey, k: RowKey)
    requires r in s.jobReturns && r.job in s.jobs && k in s.rows
    ensures k in TimedOut(AllTimedOut(s, expired), r.job, r.minion).rows
    ensures TimedOut(AllTimedOut(s, expired), r.job, r.minion).rows[k] == AllTimedOut(s, expired + {r}).rows[k]
  {
    CountingIsUnmoved(s, expired);
    HitByOneMore(s, k, expired, r);
    TimedOutRow(AllTimedOut(s, expired), r, k);
    assert CountRuns(AllTimedOut(s, expired), k) == CountRuns(s, k);
  }

  lemma TimedOutRow(n: State, r: ReturnKey, k: RowKey)
    requires r in n.jobReturns && r.job in n.jobs && k in n.rows
    ensures
      var rows := TimedOut(n, r.job, r.minion).rows;
      && k in rows
      && rows[k] ==
        if r.minion == k.minion && k.task in n.tasks
          && n.jobs[r.job].source == FromTask(k.task) && n.rows[k].status != Pending
        then WithStatus(n.rows[k], AfterFailure(n, k, n.tasks[k.task].maxRetries)) else n.rows[k]
  {
    assert ReturnKey(r.job, r.minion) == r;
  }

  lemma HitByOneMore(s: State, k: RowKey, expired: set<ReturnKey>, r: ReturnKey)
    requires r.job in s.jobs
    ensures IsHit(s, k, expired + {r}) <==>
      IsHit(s, k, expired) || (k.task in s.tasks && r.minion == k.minion && s.jobs[r.job].source == FromTask(k.task))
  {
  }

  // ---------- the two halves of a pass ----------

  function JobsHalf(s: State, now: int): State {
    AllFinished(AllTimedOut(s, WithJob(s, now)), OverdueJobs(s, now))
  }

  function ReturnsHalf(s: State, now: int): State {
    AllFinished(AllTimedOut(s, Alone(s, now)), JobsOfReturns(Alone(s, now)))
  }

  lemma HitByEither(s: State, k: RowKey, first: set<ReturnKey>, second: set<ReturnKey>)
    ensures IsHit(s, k, first + second) <==> IsHit(s, k, first) || IsHit(s, k, second)
  {
    if IsHit(s, k, first) {
      var r :| r in first && r.minion == k.minion && r.job in s.jobs && s.jobs[r.job].source == FromTask(k.task);
      assert r in first + second;
    }
    if IsHit(s, k, second) {
      var r :| r in second && r.minion == k.minion && r.job in s.jobs && s.jobs[r.job].source == FromTask(k.task);
      assert r in first + second;
    }
  }

  /** Finishing jobs has no say in what a timeout does to the rows. */
  lemma FinishingLeavesRuns(s: State, touched: set<JobId>)
    ensures forall k :: RecordedRuns(AllFinished(s, touched), k) == RecordedRuns(s, k)
    ensures forall k, expired :: IsHit(AllFinished(s, touched), k, expired) <==> IsHit(s, k, expired)
  {
    var n := AllFinished(s, touched);
    assert forall j :: j in s.jobs ==> n.jobs[j].source == s.jobs[j].source;
    assert n.jobs.Keys == s.jobs.Keys;
    forall k, expired
      ensures IsHit(n, k, expired) <==> IsHit(s, k, expired)
    {
    }
  }

  lemma RowsTwice(s: State, first: set<ReturnKey>, second: set<ReturnKey>, touched: set<JobId>)
    ensures AllTimedOut(AllFinished(AllTimedOut(s, first), touched), second).rows == AllTimedOut(s, first + second).rows
  {
    var s1 := AllTimedOut(s, first);
    var s2 := AllFinished(s1, touched);
    CountingIsUnmoved(s, first);
    FinishingLeavesRuns(s1, touched);
    forall k | k in s.rows
      ensures AllTimedOut(s2, second).rows[k] == AllTimedOut(s, first + second).rows[k]
    {
      HitByEither(s, k, first, second);
      assert IsHit(s2, k, second) <==> IsHit(s, k, second);
      assert CountRuns(s2, k) == CountRuns(s, k);
    }
  }

  /** The returns with a ttl of their own are not touched by the first half. */
  lemma AloneIsUnmoved(s: State, now: int)
    ensures Alone(JobsHalf(s, now), now) == Alone(s, now)
  {
    var n := JobsHalf(s, now);
    forall r | r in s.jobReturns
      ensures ExpiresAlone(n, r, now) <==> ExpiresAlone(s, r, now)
    {
    }
  }

  lemma HalvesMakePass(s: State, now: int)
    ensures ReturnsHalf(JobsHalf(s, now), now) == Pass(s, now)
  {
    var w, a := WithJob(s, now), Alone(s, now);
    AloneIsUnmoved(s, now);
    RowsTwice(s, w, a, OverdueJobs(s, now));
    var n, all := ReturnsHalf(JobsHalf(s, now), now), Pass(s, now);
    assert n.rows == all.rows;
    assert n.jobReturns == all.jobReturns;
    forall j | j in s.jobs
      ensures n.jobs[j] == all.jobs[j]
    {
      JobInHalves(s, now, j);
    }
    assert n.jobs == all.jobs;
  }

  lemma JobInHalves(s: State, now: int, j: JobId)
    requires j in s.jobs
    ensures ReturnsHalf(JobsHalf(s, now), now).jobs[j] == Pass(s, now).jobs[j]
  {
    var w, a := WithJob(s, now), Alone(s, now);
    AloneIsUnmoved(s, now);
    var s1, s2, all := AllTimedOut(s, w), AllTimedOut(JobsHalf(s, now), a), AllTimedOut(s, w + a);
    assert s2.jobReturns == all.jobReturns;
    assert HasWaitingReturn(s2, j) <==> HasWaitingReturn(all, j);
    WaitingInHalves(s, now, j);
  }

  /** A job with an overdue return of its own waits through the first half, and another one waits for the same. */
  lemma WaitingInHalves(s: State, now: int, j: JobId)
    ensures
      var s1, all := AllTimedOut(s, WithJob(s, now)), AllTimedOut(s, WithJob(s, now) + Alone(s, now));
      if j in JobsOfReturns(Alone(s, now)) then HasWaitingReturn(s1, j)
      else HasWaitingReturn(s1, j) <==> HasWaitingReturn(all, j)
  {
    var w, a := WithJob(s, now), Alone(s, now);
    var s1, all := AllTimedOut(s, w), AllTimedOut(s, w + a);
    if j in JobsOfReturns(a) {
      var r :| r in a && r.job == j;
      assert r in s1.jobReturns && s1.jobReturns[r].status == ReturnWaiting;
    } else {
      forall r | r in s.jobReturns && r.job == j
        ensures s1.jobReturns[r] == all.jobReturns[r]
      {
      }
    }
  }

  // ---------- what a pass does ----------

  /** On running jobs exactly the overdue waiting returns time out. */
  lemma PassTimesOutWhatIsOverdue(s: State, now: int, r: ReturnKey)
    requires r in s.jobReturns && r.job in s.jobs && s.jobs[r.job].status == JobRunning
    ensures r in Pass(s, now).jobReturns
    ensures Pass(s, now).jobReturns[r] ==
      var ttl := if s.jobReturns[r].ttl == None then s.jobs[r.job].ttl else s.jobReturns[r].ttl.value;
      if s.jobReturns[r].status == ReturnWaiting && s.jobs[r.job].created + ttl < now
      then s.jobReturns[r].(status := ReturnTimeout) else s.jobReturns[r]
  {
  }

  /** A pass finishes exactly the running jobs that it touched and that wait for nothing any more. */
  lemma PassFinishesWhatIsDone(s: State, now: int, j: JobId)
    requires j in s.jobs && s.jobs[j].status == JobRunning
    ensures j in Pass(s, now).jobs
    ensures Pass(s, now).jobs[j].status == JobFinished <==>
      && !HasWaitingReturn(Pass(s, now), j)
      && (JobDeadline(s.jobs[j]) < now || exists r :: ExpiresAlone(s, r, now) && r.job == j)
  {
    var timed := AllTimedOut(s, WithJob(s, now) + Alone(s, now));
    assert HasWaitingReturn(Pass(s, now), j) <==> HasWaitingReturn(timed, j);
    if r :| ExpiresAlone(s, r, now) && r.job == j {
      assert r in Alone(s, now);
    }
  }

  /** After a pass nothing is left for a second one at the same time. */
  lemma PassIsIdempotent(s: State, now: int)
    ensures Pass(Pass(s, now), now) == Pass(s, now)
  {
    var n := Pass(s, now);
    assert WithJob(n, now) == {} && Alone(n, now) == {};
    assert JobsOfReturns({}) == {};
    assert WithJob(n, now) + Alone(n, now) == {};
    NoneTimedOut(n);
    forall j | j in OverdueJobs(n, now)
      ensures HasWaitingReturn(n, j)
    {
      var timed := AllTimedOut(s, WithJob(s, now) + Alone(s, now));
      assert j in OverdueJobs(s, now);
      assert HasWaitingReturn(timed, j);
      assert n.jobReturns == timed.jobReturns;
    }
    assert AllFinished(n, OverdueJobs(n, now) + {}).jobs == n.jobs;
  }

  // ---------- setting a ttl ----------

  /** resolve_ttl: zero stands for the longest ttl, nothing for the template's and then the default one. */
  function ResolveTtl(ttl: Option<int>, templateTtl: Option<int>, maxTtl: int, defaultTtl: int): int {
    match ttl
    case Some(given) => if given == 0 then maxTtl else given
    case None =>
      match templateTtl
      case Some(given) => if given == 0 then maxTtl else given
      case None => defaultTtl
  }

  /** set_ttl, on the returns of some minions or else on the job; the second part is the deadline it reports. */
  function SetTtl(
    s: State, j: JobId, ttl: Option<int>, minions: set<Minion>,
    templateTtl: Option<int>, maxTtl: int, defaultTtl: int): (State, int)
    requires j in s.jobs
  {
    if minions != {} then
      (Next(s, SetReturnTtl(j, minions, ttl)),
       s.jobs[j].created + if ttl.Some? then ttl.value else s.jobs[j].ttl)
    else
      var resolved := ResolveTtl(ttl, templateTtl, maxTtl, defaultTtl);
      (Next(s, SetJobTtl(j, resolved)), s.jobs[j].created + resolved)
  }

  /**
   The reported deadline is the one later passes go by: for each named minion's return, and after a change of the
   job's ttl for a return of the job exactly when that has no ttl of its own or an equal one.
   */
  lemma ReportedDeadlineIsUsed(
    s: State, j: JobId, ttl: Option<int>, minions: set<Minion>,
    templateTtl: Option<int>, maxTtl: int, defaultTtl: int, r: ReturnKey)
    requires j in s.jobs && r in s.jobReturns && r.job == j
    ensures
      var (n, reported) := SetTtl(s, j, ttl, minions, templateTtl, maxTtl, defaultTtl);
      && r in n.jobReturns && j in n.jobs
      && (r.minion in minions ==> Deadline(n, r) == reported)
      && (r.minion !in minions && minions != {} ==> Deadline(n, r) == Deadline(s, r))
      && (minions == {} ==>
           && reported == s.jobs[j].created + n.jobs[j].ttl
           && (forall given :: ttl == Some(given) && given != 0 ==> n.jobs[j].ttl == given)
           && (ttl == Some(0) || (ttl == None && templateTtl == Some(0)) ==> n.jobs[j].ttl == maxTtl)
           && (forall given :: ttl == None && templateTtl == Some(given) && given != 0 ==> n.jobs[j].ttl == given)
           && (ttl == None && templateTtl == None ==> n.jobs[j].ttl == defaultTtl))
      && (minions == {} ==>
           (Deadline(n, r) == reported <==>
            s.jobReturns[r].ttl.None? || s.jobReturns[r].ttl.value == n.jobs[j].ttl))
  {
  }

  /** A zero ttl is the longest one for a job, but for a return it is none at all: the next pass ends the waiting. */
  lemma ZeroTtlOfReturnEndsWaiting(
    s: State, j: JobId, templateTtl: Option<int>, maxTtl: int, defaultTtl: int, m: Minion, now: int)
    requires j in s.jobs && s.jobs[j].status == JobRunning && now > s.jobs[j].created
    requires ReturnKey(j, m) in s.jobReturns && s.jobReturns[ReturnKey(j, m)].status == ReturnWaiting
    ensures
      var n := SetTtl(s, j, Some(0), {m}, templateTtl, maxTtl, defaultTtl).0;
      ReturnKey(j, m) in n.jobReturns && Pass(n, now).jobReturns[ReturnKey(j, m)].status == ReturnTimeout
  {
    var r := ReturnKey(j, m);
    var n := SetTtl(s, j, Some(0), {m}, templateTtl, maxTtl, defaultTtl).0;
    assert n == s.(jobReturns := n.jobReturns);
    assert r in n.jobReturns && n.jobReturns[r] == s.jobReturns[r].(ttl := Some(0));
    OverdueTimesOut(n, now, r);
  }

  lemma OverdueTimesOut(s: State, now: int, r: ReturnKey)
    requires r in s.jobReturns && r.job in s.jobs && s.jobs[r.job].status == JobRunning
    requires s.jobReturns[r].status == ReturnWaiting && Deadline(s, r) < now
    ensures r in Pass(s, now).jobReturns && Pass(s, now).jobReturns[r].status == ReturnTimeout
  {
    PassTimesOutWhatIsOverdue(s, now, r);
  }
}
