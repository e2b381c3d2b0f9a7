/** How often a task is run on one minion. */
module TaskRetries {
  import opened Wrappers
  import opened TaskStatuses
  import opened TaskProtocol
  import opened TaskSafety

  /** Jobs of the task for the minion that have left no return record: `count_runs` does not see them. */
  function Unrecorded(s: State, k: RowKey): set<JobId> {
    JobsOf(s, k) - RecordedRuns(s, k)
  }

  predicate IsInWork(s: State, k: RowKey) {
    k in s.rows && s.rows[k].status == InWork
  }

  /** The states a row can be started from without another look at `count_runs`. */
  predicate CanStillStart(status: Status) {
    status in {Pending, Busy, Blocked, Unreachable}
  }

  /**
   1 when the step takes the row out of work with a job uncounted: more jobs are without a return record than were
   lost before, or the launch is taken back without a look at the count.
   */
  function Lost(s: State, step: Step, k: RowKey, losses: nat): nat
    requires IsEnabled(s, step)
  {
    if IsInWork(s, k) && !IsInWork(Next(s, step), k) && (step.Revert? || |Unrecorded(s, k)| > losses) then 1 else 0
  }

  /** 1 when an operator restarts the row. */
  function Restarted(step: Step, k: RowKey): nat {
    if step.Restart? && step.task == k.task && k.minion in step.minions then 1 else 0
  }

  /** The lost runs of the row. */
  function Losses(s: State, steps: seq<Step>, k: RowKey): nat
    requires After(s, steps).Some?
  {
    if steps == [] then 0
    else
      var n := |steps| - 1;
      var before := Losses(s, steps[..n], k);
      before + Lost(After(s, steps[..n]).value, steps[n], k, before)
  }

  function Restarts(steps: seq<Step>, k: RowKey): nat {
    if steps == [] then 0 else Restarts(steps[..|steps| - 1], k) + Restarted(steps[|steps| - 1], k)
  }

  function MaxRuns(s: State, t: TaskId): nat {
    if t in s.tasks && s.tasks[t].maxRetries > 1 then s.tasks[t].maxRetries else 1
  }

  /** Runs of the row so far, beyond what `max_retries` allows by the lost runs and the restarts. */
  ghost predicate IsWithin(s: State, k: RowKey, losses: nat, restarts: nat) {
    && |JobsOf(s, k)| <= MaxRuns(s, k.task) + losses + restarts
    && (k !in s.rows ==> JobsOf(s, k) == {})
    && (k in s.rows && CanStillStart(s.rows[k].status) ==> |JobsOf(s, k)| < MaxRuns(s, k.task) + losses + restarts)
    && |Unrecorded(s, k)| <= losses + if IsInWork(s, k) then 1 else 0
  }

  predicate StartsRow(step: Step, k: RowKey) {
    step.Start? && step.task == k.task && k.minion in step.targets
  }

  /** What a job is for never changes. */
  ghost predicate JobsKeepPurpose(s: State, n: State) {
    forall j :: j in s.jobs ==>
      j in n.jobs && n.jobs[j].source == s.jobs[j].source && n.jobs[j].targets == s.jobs[j].targets
  }

  /** Only Start makes jobs of tasks. */
  ghost predicate OnlyStartMakesJobs(s: State, n: State, step: Step) {
    && (forall j :: j in n.jobs && j !in s.jobs && n.jobs[j].source.FromTask? ==>
          step.Start? && j == step.job && n.jobs[j].source == FromTask(step.task) && n.jobs[j].targets == step.targets)
    && (step.Start? ==> step.job in n.jobs && step.job !in s.jobs && n.jobs[step.job].source.FromTask?)
  }

  ghost predicate JobsStay(s: State, n: State, step: Step) {
    JobsKeepPurpose(s, n) && OnlyStartMakesJobs(s, n, step)
  }

  lemma StepKeepsJobs(s: State, step: Step)
    requires IsEnabled(s, step)
    ensures JobsStay(s, Next(s, step), step)
  {
    StepKeepsPurpose(s, step);
    StepMakesJobs(s, step);
  }

  lemma StepKeepsPurpose(s: State, step: Step)
    requires IsEnabled(s, step)
    ensures JobsKeepPurpose(s, Next(s, step))
  {
    match step
    case TimeOut(j, m) => TimeoutKeepsJobs(s, j, m);
    case _ =>
  }

  lemma StepMakesJobs(s: State, step: Step)
    requires IsEnabled(s, step)
    ensures OnlyStartMakesJobs(s, Next(s, step), step)
  {
    match step
    case TimeOut(j, m) => TimeoutKeepsJobs(s, j, m);
    case _ =>
  }

  lemma TimeoutKeepsJobs(s: State, j: JobId, m: Minion)
    requires IsEnabled(s, TimeOut(j, m))
    ensures TimedOut(s, j, m).jobs == s.jobs
  {
  }

  lemma StepKeepsTasksAndRows(s: State, step: Step)
    requires IsEnabled(s, step)
    ensures Next(s, step).tasks == s.tasks && s.rows.Keys <= Next(s, step).rows.Keys
  {
  }

  /** Only Start gives the row a job. */
  lemma JobsOfAfter(s: State, n: State, step: Step, k: RowKey)
    requires JobsStay(s, n, step)
    ensures JobsOf(n, k) == JobsOf(s, k) + if StartsRow(step, k) then {step.job} else {}
    ensures StartsRow(step, k) ==> step.job !in JobsOf(s, k)
  {
  }

  lemma RecordsStay(s: State, step: Step, k: RowKey)
    requires IsEnabled(s, step)
    ensures RecordedRuns(s, k) <= RecordedRuns(Next(s, step), k)
  {
    var n := Next(s, step);
    forall j | j in RecordedRuns(s, k)
      ensures j in RecordedRuns(n, k)
    {
      var r :| r in s.jobReturns && r.minion == k.minion && r.job == j && s.jobs[r.job].source == FromTask(k.task);
      assert r in n.jobReturns && r.job in n.jobs && n.jobs[r.job].source == FromTask(k.task);
    }
  }

  /** A row that has run comes back only by a restart, a failed launch, or while `count_runs` is below `max_retries`. */
  lemma ComesBackBelowLimit(s: State, step: Step, k: RowKey)
    requires IsEnabled(s, step) && ReturnsAreSound(s) && k in s.rows && !CanStillStart(s.rows[k].status)
    requires CanStillStart(Next(s, step).rows[k].status)
    ensures Restarted(step, k) == 1 || CountRuns(s, k) < MaxRuns(s, k.task) || (step.Revert? && IsInWork(s, k))
  {
    match step
    case Revert(j) =>
      assert k.task == s.jobs[j].source.task && k.minion in s.jobs[j].targets;
    case TimeOut(j, m) => TimedOutComesBack(s, j, m, k);
    case _ =>
  }

  lemma RevertedIsUnrecorded(s: State, j: JobId, k: RowKey)
    requires ReturnsAreSound(s) && j in s.jobs && s.jobs[j].status == JobStarting
    requires s.jobs[j].source == FromTask(k.task) && k.minion in s.jobs[j].targets
    ensures j in Unrecorded(s, k)
  {
    assert j in JobsOf(s, k);
    assert j !in RecordedRuns(s, k);
  }

  lemma TimedOutComesBack(s: State, j: JobId, m: Minion, k: RowKey)
    requires IsEnabled(s, TimeOut(j, m)) && k in s.rows && !CanStillStart(s.rows[k].status)
    requires k in TimedOut(s, j, m).rows && CanStillStart(TimedOut(s, j, m).rows[k].status)
    ensures CountRuns(s, k) < MaxRuns(s, k.task)
  {
  }

  lemma CountsBySize(a: set<JobId>, b: set<JobId>)
    ensures a <= b ==> |a| <= |b|
    ensures |a| <= |a - b| + |b|
  {
    if a <= b {
      assert b == a + (b - a);
    }
    assert a == (a - b) + (a * b) && b == (a * b) + (b - a);
  }

  /** Nothing but its own start lets the number of unrecorded jobs grow. */
  lemma UnrecordedShrinks(s: State, step: Step, k: RowKey)
    requires IsEnabled(s, step)
    ensures |Unrecorded(Next(s, step), k)| <=
      |Unrecorded(s, k)| + if StartsRow(step, k) then 1 else 0
  {
    var n := Next(s, step);
    StepKeepsJobs(s, step);
    JobsOfAfter(s, n, step, k);
    RecordsStay(s, step, k);
    if StartsRow(step, k) {
      CountsBySize(Unrecorded(n, k), Unrecorded(s, k) + {step.job});
    } else {
      CountsBySize(Unrecorded(n, k), Unrecorded(s, k));
    }
  }

  /** What one step can do to a row. */
  lemma RowChanges(s: State, step: Step, k: RowKey)
    requires IsEnabled(s, step)
    ensures k !in s.rows && k in Next(s, step).rows ==> Next(s, step).rows[k].status == Pending
    ensures StartsRow(step, k) ==>
      k in s.rows && s.rows[k].status == Pending && IsInWork(Next(s, step), k)
    ensures !StartsRow(step, k) ==>
      IsInWork(Next(s, step), k) ==> IsInWork(s, k)
  {
  }

  /** How the counts move with a step. */
  lemma CountsMove(s: State, n: State, step: Step, k: RowKey)
    requires IsEnabled(s, step) && n == Next(s, step)
    ensures n.tasks == s.tasks && (k in s.rows ==> k in n.rows)
    ensures |JobsOf(n, k)| == |JobsOf(s, k)| + (if StartsRow(step, k) then 1 else 0)
    ensures |Unrecorded(n, k)| <= |Unrecorded(s, k)| + (if StartsRow(step, k) then 1 else 0)
    ensures |JobsOf(s, k)| <= |Unrecorded(s, k)| + CountRuns(s, k)
  {
    StepKeepsJobs(s, step);
    StepKeepsTasksAndRows(s, step);
    JobsOfAfter(s, n, step, k);
    UnrecordedShrinks(s, step, k);
    CountsBySize(JobsOf(s, k), RecordedRuns(s, k));
  }

  lemma StepStaysWithin(s: State, step: Step, k: RowKey, losses: nat, restarts: nat)
    requires IsEnabled(s, step) && ReturnsAreSound(s) && IsWithin(s, k, losses, restarts)
    ensures IsWithin(Next(s, step), k, losses + Lost(s, step, k, losses), restarts + Restarted(step, k))
  {
    var n := Next(s, step);
    CountsMove(s, n, step, k);
    RowChanges(s, step, k);
    if k in s.rows && !CanStillStart(s.rows[k].status) && CanStillStart(n.rows[k].status) {
      ComesBackBelowLimit(s, step, k);
    }
    StaysWithin(s, n, k, losses, restarts, Lost(s, step, k, losses), Restarted(step, k), StartsRow(step, k),
      step.Revert?);
  }

  /** The count behind StepStaysWithin, for a step that changes the row from `s` to `n`. */
  lemma StaysWithin(
    s: State, n: State, k: RowKey, losses: nat, restarts: nat, lost: nat, restarted: nat, starts: bool, reverts: bool)
    requires IsWithin(s, k, losses, restarts) && n.tasks == s.tasks && (k in s.rows ==> k in n.rows)
    requires lost ==
      if IsInWork(s, k) && !IsInWork(n, k) && (reverts || |Unrecorded(s, k)| > losses) then 1 else 0
    requires |JobsOf(n, k)| == |JobsOf(s, k)| + (if starts then 1 else 0)
    requires |Unrecorded(n, k)| <= |Unrecorded(s, k)| + (if starts then 1 else 0)
    requires |JobsOf(s, k)| <= |Unrecorded(s, k)| + CountRuns(s, k)
    requires starts ==> k in s.rows && s.rows[k].status == Pending && IsInWork(n, k)
    requires !starts ==> IsInWork(n, k) ==> IsInWork(s, k)
    requires k in s.rows && !CanStillStart(s.rows[k].status) && CanStillStart(n.rows[k].status) ==>
      restarted == 1 || CountRuns(s, k) < MaxRuns(s, k.task) || (reverts && IsInWork(s, k))
    ensures IsWithin(n, k, losses + lost, restarts + restarted)
  {
  }

  /**
   Over every run from the beginning, with late, repeated and timed-out returns: the jobs that target one minion
   for one task number at most max(1, max_retries), plus one for every manual restart of the row, plus one for
   every time the row left work with its job uncounted.
   */
  lemma {:induction false} RunsAreBounded(s: State, steps: seq<Step>, k: RowKey)
    requires IsInitial(s) && After(s, steps).Some?
    ensures |JobsOf(After(s, steps).value, k)| <= MaxRuns(s, k.task) + Losses(s, steps, k) + Restarts(steps, k)
    ensures IsWithin(After(s, steps).value, k, Losses(s, steps, k), Restarts(steps, k))
    ensures After(s, steps).value.tasks == s.tasks
  {
    if steps == [] {
      assert JobsOf(s, k) == {} && Unrecorded(s, k) == {};
    } else {
      var n := |steps| - 1;
      RunsAreBounded(s, steps[..n], k);
      InitialIsSafe(s);
      EveryRunIsSafe(s, steps[..n]);
      var before := After(s, steps[..n]).value;
      StepKeepsTasksAndRows(before, steps[n]);
      StepStaysWithin(before, steps[n], k, Losses(s, steps[..n], k), Restarts(steps[..n], k));
    }
  }

  /** If the i-th step takes the row out of work, every job of the row has left a return record by then. */
  ghost predicate LeavesRecorded(s: State, steps: seq<Step>, i: nat, k: RowKey)
    requires i < |steps|
  {
    var before, after := After(s, steps[..i]), After(s, steps[..i + 1]);
    before.Some? && after.Some? && IsInWork(before.value, k) && !IsInWork(after.value, k) ==>
      Unrecorded(before.value, k) == {}
  }

  lemma {:induction false} NothingIsLost(s: State, steps: seq<Step>, k: RowKey)
    requires IsInitial(s) && After(s, steps).Some?
    requires forall i :: 0 <= i < |steps| ==> Restarted(steps[i], k) == 0
    requires forall i :: 0 <= i < |steps| ==> LeavesRecorded(s, steps, i, k)
    ensures Losses(s, steps, k) == 0 && Restarts(steps, k) == 0
  {
    if steps != [] {
      var n := |steps| - 1;
      forall i | 0 <= i < n
        ensures LeavesRecorded(s, steps[..n], i, k)
      {
        assert LeavesRecorded(s, steps, i, k);
        assert steps[..n][..i] == steps[..i] && steps[..n][..i + 1] == steps[..i + 1];
      }
      NothingIsLost(s, steps[..n], k);
      assert LeavesRecorded(s, steps, n, k) && steps[..n + 1] == steps;
      InitialIsSafe(s);
      EveryRunIsSafe(s, steps[..n]);
      RevertIsALoss(After(s, steps[..n]).value, steps[n], k);
    }
  }

  lemma RevertIsALoss(s: State, step: Step, k: RowKey)
    requires IsEnabled(s, step) && ReturnsAreSound(s)
    ensures step.Revert? && IsInWork(s, k) && !IsInWork(Next(s, step), k) ==> Unrecorded(s, k) != {}
  {
    if step.Revert? && IsInWork(s, k) && !IsInWork(Next(s, step), k) {
      assert k.task == s.jobs[step.job].source.task && k.minion in s.jobs[step.job].targets;
      RevertedIsUnrecorded(s, step.job, k);
    }
  }

  /** Without restarts, and with every return record there before its row leaves work, `max_retries` is kept. */
  lemma RetriesAreKept(s: State, steps: seq<Step>, k: RowKey)
    requires IsInitial(s) && After(s, steps).Some?
    requires forall i :: 0 <= i < |steps| ==> Restarted(steps[i], k) == 0
    requires forall i :: 0 <= i < |steps| ==> LeavesRecorded(s, steps, i, k)
    ensures |JobsOf(After(s, steps).value, k)| <= MaxRuns(s, k.task)
  {
    NothingIsLost(s, steps, k);
    RunsAreBounded(s, steps, k);
  }
}
