/** Runs that start a task on one minion as often as the bound on its runs allows. */
module TaskRetryRuns {
  import opened Wrappers
  import opened TaskStatuses
  import opened TaskProtocol
  import opened TaskRetries

  function OneMinion(): Minion { Minion("master", "minion") }

  function OneRow(): RowKey { RowKey(0, OneMinion()) }

  function OneJob(status: JobStatus): Job {
    Job(FromTask(0), "master", false, {OneMinion()}, status, 0, 0)
  }

  function FailedReturn(): Return { Return(ReturnFailed, Some(1), None) }

  /** The first `lost` jobs were never announced, `done` more have returned. */
  function JobsSoFar(lost: nat, done: nat): map<JobId, Job> {
    if done > 0 then JobsSoFar(lost, done - 1)[lost + done - 1 := OneJob(JobFinished)]
    else if lost > 0 then JobsSoFar(lost - 1, 0)[lost - 1 := OneJob(JobStarting)]
    else map[]
  }

  function ReturnsSoFar(lost: nat, done: nat): map<ReturnKey, Return> {
    if done == 0 then map[]
    else ReturnsSoFar(lost, done - 1)[ReturnKey(lost + done - 1, OneMinion()) := FailedReturn()]
  }

  function RowsWith(status: Status): map<RowKey, Row> {
    map[OneRow() := Row(status, Some(0))]
  }

  /** One task on one minion, between two jobs. */
  function Between(retries: nat, lost: nat, done: nat, status: Status): State {
    State(map[0 := Task(retries, false)], RowsWith(status), JobsSoFar(lost, done), ReturnsSoFar(lost, done))
  }

  /** While the next job is at work. */
  function AtWork(retries: nat, lost: nat, done: nat, status: JobStatus, jobReturn: Option<Return>): State {
    var j := lost + done;
    State(
      map[0 := Task(retries, false)], RowsWith(InWork), JobsSoFar(lost, done)[j := OneJob(status)],
      if jobReturn.None? then ReturnsSoFar(lost, done)
      else ReturnsSoFar(lost, done)[ReturnKey(j, OneMinion()) := jobReturn.value])
  }

  function StatusAfter(retries: nat, done: nat): Status {
    if done > 0 && done >= retries then Failed else Pending
  }

  // ---------- counting ----------

  function Range(lo: nat, n: nat): (r: set<JobId>)
    ensures |r| == n && forall j: JobId :: j in r <==> lo <= j < lo + n
  {
    if n == 0 then {} else
    var less := Range(lo, n - 1);
    assert lo + n - 1 !in less;
    less + {lo + n - 1}
  }

  lemma {:induction false} JobsInRange(lost: nat, done: nat)
    ensures forall j: JobId :: j in JobsSoFar(lost, done) <==> 0 <= j < lost + done
    ensures forall j :: j in JobsSoFar(lost, done) ==>
      JobsSoFar(lost, done)[j] == OneJob(if j < lost then JobStarting else JobFinished)
    decreases lost + done
  {
    if done > 0 {
      JobsInRange(lost, done - 1);
    } else if lost > 0 {
      JobsInRange(lost - 1, 0);
    }
  }

  lemma {:induction false} ReturnsInRange(lost: nat, done: nat)
    ensures forall r :: r in ReturnsSoFar(lost, done) <==> r.minion == OneMinion() && lost <= r.job < lost + done
    ensures forall r :: r in ReturnsSoFar(lost, done) ==> ReturnsSoFar(lost, done)[r] == FailedReturn()
  {
    if done > 0 {
      ReturnsInRange(lost, done - 1);
      forall r
        ensures r in ReturnsSoFar(lost, done) <==> r.minion == OneMinion() && lost <= r.job < lost + done
      {
        assert r.minion == OneMinion() && r.job == lost + done - 1 ==> r == ReturnKey(lost + done - 1, OneMinion());
      }
    }
  }

  lemma RecordedByKey(s: State, j: JobId)
    ensures j in RecordedRuns(s, OneRow()) <==>
      ReturnKey(j, OneMinion()) in s.jobReturns && j in s.jobs && s.jobs[j].source == FromTask(0)
  {
    if j in RecordedRuns(s, OneRow()) {
      var r :| r in s.jobReturns && r.minion == OneMinion() && r.job == j;
      assert r == ReturnKey(j, OneMinion());
    }
    if ReturnKey(j, OneMinion()) in s.jobReturns && j in s.jobs && s.jobs[j].source == FromTask(0) {
      assert ReturnKey(j, OneMinion()).job == j;
    }
  }

  /** Jobs up to `total`, of which `done` from `lost` on have a return record. */
  ghost predicate IsShaped(s: State, lost: nat, done: nat, total: nat) {
    && lost + done <= total
    && (forall j :: j in s.jobs <==> 0 <= j < total)
    && (forall j :: j in s.jobs ==> s.jobs[j].source == FromTask(0) && s.jobs[j].targets == {OneMinion()})
    && forall r :: r in s.jobReturns <==> r.minion == OneMinion() && lost <= r.job < lost + done
  }

  lemma {:induction false} ShapedCounts(s: State, lost: nat, done: nat, total: nat)
    requires IsShaped(s, lost, done, total)
    ensures |JobsOf(s, OneRow())| == total && CountRuns(s, OneRow()) == done
    ensures |Unrecorded(s, OneRow())| == total - done
  {
    ShapedSets(s, lost, done, total, Range(0, total), Range(lost, done));
  }

  lemma {:induction false} ShapedSets(
    s: State, lost: nat, done: nat, total: nat, all: set<JobId>, recorded: set<JobId>)
    requires IsShaped(s, lost, done, total) && |all| == total && |recorded| == done
    requires forall j: JobId :: j in all <==> 0 <= j < total
    requires forall j: JobId :: j in recorded <==> lost <= j < lost + done
    ensures |JobsOf(s, OneRow())| == total && CountRuns(s, OneRow()) == done
    ensures |Unrecorded(s, OneRow())| == total - done
  {
    assert JobsOf(s, OneRow()) == all;
    forall j
      ensures j in RecordedRuns(s, OneRow()) <==> j in recorded
    {
      RecordedByKey(s, j);
    }
    assert RecordedRuns(s, OneRow()) == recorded;
    RestCounts(all, recorded);
  }

  lemma RestCounts(all: set<JobId>, recorded: set<JobId>)
    requires recorded <= all
    ensures |all - recorded| == |all| - |recorded|
  {
    assert all == recorded + (all - recorded);
  }

  lemma {:induction false} BetweenIsShaped(retries: nat, lost: nat, done: nat, status: Status)
    ensures IsShaped(Between(retries, lost, done, status), lost, done, lost + done)
  {
    JobsInRange(lost, done);
    ReturnsInRange(lost, done);
  }

  lemma {:induction false} AtWorkIsShaped(retries: nat, lost: nat, done: nat, status: JobStatus, r: Option<Return>)
    ensures IsShaped(AtWork(retries, lost, done, status, r), lost, done + if r.Some? then 1 else 0, lost + done + 1)
  {
    BetweenIsShaped(retries, lost, done, Pending);
    OneMoreIsShaped(
      Between(retries, lost, done, Pending), AtWork(retries, lost, done, status, r), lost, done, OneJob(status), r);
  }

  lemma {:induction false} OneMoreIsShaped(s: State, n: State, lost: nat, done: nat, job: Job, r: Option<Return>)
    requires IsShaped(s, lost, done, lost + done) && job.source == FromTask(0) && job.targets == {OneMinion()}
    requires n.jobs == s.jobs[lost + done := job]
    requires n.jobReturns ==
      if r.None? then s.jobReturns else s.jobReturns[ReturnKey(lost + done, OneMinion()) := r.value]
    ensures IsShaped(n, lost, done + if r.Some? then 1 else 0, lost + done + 1)
  {
    if r.Some? {
      forall q
        ensures q in n.jobReturns <==> q.minion == OneMinion() && lost <= q.job < lost + done + 1
      {
        assert q.minion == OneMinion() && q.job == lost + done ==> q == ReturnKey(lost + done, OneMinion());
      }
    }
  }

  lemma {:induction false} AtWorkCounts(retries: nat, lost: nat, done: nat, status: JobStatus, r: Option<Return>)
    ensures var s := AtWork(retries, lost, done, status, r);
            && CountRuns(s, OneRow()) == done + (if r.Some? then 1 else 0)
            && |Unrecorded(s, OneRow())| == lost + (if r.Some? then 0 else 1)
  {
    AtWorkIsShaped(retries, lost, done, status, r);
    ShapedCounts(AtWork(retries, lost, done, status, r), lost, done + if r.Some? then 1 else 0, lost + done + 1);
  }

  // ---------- single steps ----------

  lemma {:induction false} Starts(retries: nat, lost: nat, done: nat)
    ensures var s, step := Between(retries, lost, done, Pending), Start(0, lost + done, "master", {OneMinion()}, 0, 0);
            IsEnabled(s, step) && Next(s, step) == AtWork(retries, lost, done, JobStarting, None)
  {
    var s, step := Between(retries, lost, done, Pending), Start(0, lost + done, "master", {OneMinion()}, 0, 0);
    BetweenIsShaped(retries, lost, done, Pending);
    assert Taken(s, 0, {OneMinion()}, InWork, 0) == RowsWith(InWork);
  }

  lemma {:induction false} AnnouncesOne(s: State, j: JobId)
    ensures Announced(s, j, {OneMinion()}, {}) ==
      s.jobReturns[ReturnKey(j, OneMinion()) := Return(ReturnWaiting, None, None)]
  {
  }

  lemma {:induction false} Announces(retries: nat, lost: nat, done: nat)
    ensures var s, step := AtWork(retries, lost, done, JobStarting, None), NewJob(lost + done, {OneMinion()}, {});
            && IsEnabled(s, step)
            && Next(s, step) == AtWork(retries, lost, done, JobRunning, Some(Return(ReturnWaiting, None, None)))
  {
    var s, step := AtWork(retries, lost, done, JobStarting, None), NewJob(lost + done, {OneMinion()}, {});
    AtWorkStarts(retries, lost, done);
    AnnouncesOne(s, lost + done);
    AtWorkMoves(retries, lost, done, JobStarting, JobRunning, Return(ReturnWaiting, None, None));
  }

  lemma {:induction false} AtWorkStarts(retries: nat, lost: nat, done: nat)
    ensures lost + done in AtWork(retries, lost, done, JobStarting, None).jobs
    ensures AtWork(retries, lost, done, JobStarting, None).jobs[lost + done] == OneJob(JobStarting)
  {
  }

  lemma {:induction false} AtWorkMoves(
    retries: nat, lost: nat, done: nat, from: JobStatus, status: JobStatus, r: Return)
    ensures
      var s, j := AtWork(retries, lost, done, from, None), lost + done;
      AtWork(retries, lost, done, status, Some(r)) ==
        s.(jobs := s.jobs[j := OneJob(status)], jobReturns := s.jobReturns[ReturnKey(j, OneMinion()) := r])
  {
    var s := AtWork(retries, lost, done, from, None);
    assert s.jobs[lost + done := OneJob(status)] == JobsSoFar(lost, done)[lost + done := OneJob(status)];
  }

  lemma {:induction false} Returns(retries: nat, lost: nat, done: nat)
    ensures var s := AtWork(retries, lost, done, JobRunning, Some(Return(ReturnWaiting, None, None)));
            var step := Returned(lost + done, OneMinion(), Some(1));
            IsEnabled(s, step) && Next(s, step) == AtWork(retries, lost, done, JobFinished, Some(FailedReturn()))
  {
    var s := AtWork(retries, lost, done, JobRunning, Some(Return(ReturnWaiting, None, None)));
    var filled := s.(jobReturns := s.jobReturns[ReturnKey(lost + done, OneMinion()) := FailedReturn()]);
    ReturnsInRange(lost, done);
    assert !HasWaitingReturn(filled, lost + done);
    assert filled.jobs[lost + done := OneJob(JobFinished)] == JobsSoFar(lost, done)[lost + done := OneJob(JobFinished)];
    assert filled.jobReturns == ReturnsSoFar(lost, done)[ReturnKey(lost + done, OneMinion()) := FailedReturn()];
  }

  lemma {:induction false} Fails(retries: nat, lost: nat, done: nat)
    ensures
      var s := AtWork(retries, lost, done, JobFinished, Some(FailedReturn()));
      var step := TaskReturn(lost + done, OneMinion());
      && IsEnabled(s, step)
      && Next(s, step) == Between(retries, lost, done + 1, StatusAfter(retries, done + 1))
  {
    var s, step := AtWork(retries, lost, done, JobFinished, Some(FailedReturn())), TaskReturn(lost + done, OneMinion());
    AtWorkCounts(retries, lost, done, JobFinished, Some(FailedReturn()));
    FailedRow(s, lost + done, retries, StatusAfter(retries, done + 1));
    OneMoreDone(retries, lost, done, StatusAfter(retries, done + 1));
  }

  lemma {:induction false} OneMoreDone(retries: nat, lost: nat, done: nat, status: Status)
    ensures Between(retries, lost, done + 1, status) ==
      AtWork(retries, lost, done, JobFinished, Some(FailedReturn())).(rows := RowsWith(status))
  {
  }

  lemma {:induction false} FailedRow(s: State, j: JobId, retries: nat, status: Status)
    requires 0 in s.tasks && s.tasks[0].maxRetries == retries && s.rows == RowsWith(InWork)
    requires j in s.jobs && s.jobs[j].source == FromTask(0)
    requires ReturnKey(j, OneMinion()) in s.jobReturns && s.jobReturns[ReturnKey(j, OneMinion())] == FailedReturn()
    requires status == if CountRuns(s, OneRow()) >= retries then Failed else Pending
    ensures IsEnabled(s, TaskReturn(j, OneMinion()))
    ensures Next(s, TaskReturn(j, OneMinion())) == s.(rows := RowsWith(status))
  {
    assert s.rows[OneRow() := WithStatus(s.rows[OneRow()], status)] == RowsWith(status);
  }

  /** How a run gets lost: the row is released before the new-job event, or the launch is taken back. */
  function LosingStep(retries: nat, j: JobId): Step {
    if retries > 0 then Release(OneRow()) else Revert(j)
  }

  lemma {:induction false} Loses(retries: nat, lost: nat)
    ensures var s, step := AtWork(retries, lost, 0, JobStarting, None), LosingStep(retries, lost);
            && IsEnabled(s, step) && Next(s, step) == Between(retries, lost + 1, 0, Pending)
  {
    var s, step := AtWork(retries, lost, 0, JobStarting, None), LosingStep(retries, lost);
    AtWorkCounts(retries, lost, 0, JobStarting, None);
    assert Next(s, step).rows == RowsWith(Pending);
  }

  lemma {:induction false} RestartsAgain(retries: nat, lost: nat, done: nat)
    ensures var s, step := Between(retries, lost, done, Failed), Restart(0, {OneMinion()});
            IsEnabled(s, step) && Next(s, step) == Between(retries, lost, done, Pending)
  {
    var s, step := Between(retries, lost, done, Failed), Restart(0, {OneMinion()});
    assert Next(s, step).rows == RowsWith(Pending);
  }

  // ---------- runs ----------

  /** The run leads to the state, with so many losses and restarts. */
  ghost predicate LeadsTo(s: State, steps: seq<Step>, n: State, losses: nat, restarts: nat) {
    After(s, steps) == Some(n) && Losses(s, steps, OneRow()) == losses && Restarts(steps, OneRow()) == restarts
  }

  lemma {:induction false} OneMoreStep(
    s: State, steps: seq<Step>, n: State, losses: nat, restarts: nat, step: Step, n': State)
    requires LeadsTo(s, steps, n, losses, restarts) && IsEnabled(n, step) && Next(n, step) == n'
    ensures LeadsTo(
      s, steps + [step], n', losses + Lost(n, step, OneRow(), losses), restarts + Restarted(step, OneRow()))
  {
    assert (steps + [step])[..|steps|] == steps;
  }

  lemma {:induction false} LoseOne(s: State, steps: seq<Step>, retries: nat, lost: nat) returns (more: seq<Step>)
    requires LeadsTo(s, steps, Between(retries, lost, 0, Pending), lost, 0)
    ensures LeadsTo(s, more, Between(retries, lost + 1, 0, Pending), lost + 1, 0)
  {
    var working := AtWork(retries, lost, 0, JobStarting, None);
    var start, losing := Start(0, lost, "master", {OneMinion()}, 0, 0), LosingStep(retries, lost);
    Starts(retries, lost, 0);
    OneMoreStep(s, steps, Between(retries, lost, 0, Pending), lost, 0, start, working);
    Loses(retries, lost);
    AtWorkCounts(retries, lost, 0, JobStarting, None);
    OneMoreStep(s, steps + [start], working, lost, 0, losing, Between(retries, lost + 1, 0, Pending));
    more := steps + [start] + [losing];
  }

  /** A step that leaves the row in work, or takes it out with no more jobs unrecorded than were lost, loses nothing. */
  lemma {:induction false} AddsStep(
    s: State, steps: seq<Step>, n: State, losses: nat, restarts: nat, step: Step, n': State)
    requires LeadsTo(s, steps, n, losses, restarts) && IsEnabled(n, step) && Next(n, step) == n'
    requires !step.Revert? && !step.Restart? && (IsInWork(n', OneRow()) || |Unrecorded(n, OneRow())| <= losses)
    ensures LeadsTo(s, steps + [step], n', losses, restarts)
  {
    OneMoreStep(s, steps, n, losses, restarts, step, n');
  }

  lemma {:induction false} AddsWorkStep(
    s: State, steps: seq<Step>, n: State, losses: nat, restarts: nat, step: Step, n': State)
    requires LeadsTo(s, steps, n, losses, restarts) && IsEnabled(n, step) && Next(n, step) == n'
    requires !step.Revert? && !step.Restart? && IsInWork(n', OneRow())
    ensures LeadsTo(s, steps + [step], n', losses, restarts)
  {
    AddsStep(s, steps, n, losses, restarts, step, n');
  }

  lemma {:induction false} AtWorkIsInWork(
    retries: nat, lost: nat, done: nat, status: JobStatus, jobReturn: Option<Return>)
    ensures IsInWork(AtWork(retries, lost, done, status, jobReturn), OneRow())
  {
  }

  lemma {:induction false} StartOne(
    s: State, steps: seq<Step>, retries: nat, lost: nat, done: nat, restarts: nat) returns (more: seq<Step>)
    requires LeadsTo(s, steps, Between(retries, lost, done, Pending), lost, restarts)
    ensures LeadsTo(s, more, AtWork(retries, lost, done, JobStarting, None), lost, restarts)
  {
    var start := Start(0, lost + done, "master", {OneMinion()}, 0, 0);
    Starts(retries, lost, done);
    AddsStep(
      s, steps, Between(retries, lost, done, Pending), lost, restarts, start,
      AtWork(retries, lost, done, JobStarting, None));
    more := steps + [start];
  }

  lemma {:induction false} AnnounceOne(
    s: State, steps: seq<Step>, retries: nat, lost: nat, done: nat, restarts: nat) returns (more: seq<Step>)
    requires LeadsTo(s, steps, Between(retries, lost, done, Pending), lost, restarts)
    ensures LeadsTo(
      s, more, AtWork(retries, lost, done, JobRunning, Some(Return(ReturnWaiting, None, None))), lost, restarts)
  {
    var started := StartOne(s, steps, retries, lost, done, restarts);
    var announce := NewJob(lost + done, {OneMinion()}, {});
    Announces(retries, lost, done);
    AtWorkIsInWork(retries, lost, done, JobRunning, Some(Return(ReturnWaiting, None, None)));
    AddsWorkStep(
      s, started, AtWork(retries, lost, done, JobStarting, None), lost, restarts, announce,
      AtWork(retries, lost, done, JobRunning, Some(Return(ReturnWaiting, None, None))));
    more := started + [announce];
  }

  lemma {:induction false} FailOne(s: State, steps: seq<Step>, retries: nat, lost: nat, done: nat, restarts: nat)
    returns (more: seq<Step>)
    requires LeadsTo(s, steps, Between(retries, lost, done, Pending), lost, restarts)
    ensures LeadsTo(s, more, Between(retries, lost, done + 1, StatusAfter(retries, done + 1)), lost, restarts)
  {
    var announced := AtWork(retries, lost, done, JobRunning, Some(Return(ReturnWaiting, None, None)));
    var returned := AtWork(retries, lost, done, JobFinished, Some(FailedReturn()));
    var event, work := Returned(lost + done, OneMinion(), Some(1)), TaskReturn(lost + done, OneMinion());
    more := AnnounceOne(s, steps, retries, lost, done, restarts);
    Returns(retries, lost, done);
    AddsStep(s, more, announced, lost, restarts, event, returned);
    Fails(retries, lost, done);
    AtWorkCounts(retries, lost, done, JobFinished, Some(FailedReturn()));
    AddsStep(
      s, more + [event], returned, lost, restarts, work,
      Between(retries, lost, done + 1, StatusAfter(retries, done + 1)));
    more := more + [event] + [work];
  }

  function Max(retries: nat): nat {
    if retries > 1 then retries else 1
  }

  function RestartsFor(retries: nat, done: nat): nat {
    if done > Max(retries) then done - Max(retries) else 0
  }

  lemma {:induction false} RunOf(retries: nat, lost: nat, done: nat) returns (steps: seq<Step>)
    ensures LeadsTo(
      Between(retries, 0, 0, Pending), steps, Between(retries, lost, done, StatusAfter(retries, done)),
      lost, RestartsFor(retries, done))
    decreases lost + done
  {
    var s := Between(retries, 0, 0, Pending);
    if done > 0 {
      steps := RunOf(retries, lost, done - 1);
      var restarts := RestartsFor(retries, done - 1);
      if StatusAfter(retries, done - 1) == Failed {
        var restart := Restart(0, {OneMinion()});
        RestartsAgain(retries, lost, done - 1);
        OneMoreStep(
          s, steps, Between(retries, lost, done - 1, Failed), lost, restarts, restart,
          Between(retries, lost, done - 1, Pending));
        steps := steps + [restart];
        restarts := restarts + 1;
      }
      steps := FailOne(s, steps, retries, lost, done - 1, restarts);
    } else if lost > 0 {
      steps := RunOf(retries, lost - 1, 0);
      steps := LoseOne(s, steps, retries, lost - 1);
    } else {
      steps := [];
    }
  }

  /**
   The bound on the runs is attained: for every number of retries, of lost runs and of restarts there is a run from
   the beginning with that many jobs for one minion, max(1, max_retries) and one more for each loss and each restart.
   */
  lemma BoundIsAttained(retries: nat, losses: nat, restarts: nat) returns (s: State, steps: seq<Step>)
    ensures IsInitial(s) && MaxRuns(s, 0) == Max(retries) && 0 in s.tasks && s.tasks[0].maxRetries == retries
    ensures After(s, steps).Some?
    ensures Losses(s, steps, OneRow()) == losses && Restarts(steps, OneRow()) == restarts
    ensures |JobsOf(After(s, steps).value, OneRow())| == MaxRuns(s, 0) + losses + restarts
  {
    s := Between(retries, 0, 0, Pending);
    var done := Max(retries) + restarts;
    steps := RunOf(retries, losses, done);
    BetweenIsShaped(retries, losses, done, StatusAfter(retries, done));
    ShapedCounts(Between(retries, losses, done, StatusAfter(retries, done)), losses, done, losses + done);
  }
}
