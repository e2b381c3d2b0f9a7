/** What holds over every run of the task protocol. */
module TaskSafety {
  import opened Wrappers
  import opened TaskStatuses
  import opened TaskProtocol

  // ---------- no minion works for two tasks at once ----------

  ghost predicate MutuallyExclusive(s: State) {
    forall k, l :: (k in s.rows && l in s.rows && k.minion == l.minion
      && s.rows[k].status == InWork && s.rows[l].status == InWork) ==> k == l
  }

  /** Only the start of a job puts a row in work, and then no other task holds the minion. */
  lemma OnlyStartEntersWork(s: State, step: Step, k: RowKey)
    requires IsEnabled(s, step) && k in Next(s, step).rows
    requires Next(s, step).rows[k].status == InWork && !(k in s.rows && s.rows[k].status == InWork)
    ensures step.Start? && k.task == step.task && k.minion in step.targets
    ensures k in s.rows && s.rows[k].status == Pending && !IsHeld(s, k.task, k.minion)
  {
  }

  lemma StepKeepsExclusion(s: State, step: Step)
    requires IsEnabled(s, step) && MutuallyExclusive(s)
    ensures MutuallyExclusive(Next(s, step))
  {
    var n := Next(s, step);
    forall k, l | k in n.rows && l in n.rows && k.minion == l.minion
      && n.rows[k].status == InWork && n.rows[l].status == InWork
      ensures k == l
    {
      if !(k in s.rows && s.rows[k].status == InWork) {
        OnlyStartEntersWork(s, step, k);
      }
      if !(l in s.rows && s.rows[l].status == InWork) {
        OnlyStartEntersWork(s, step, l);
      }
    }
  }

  // ---------- finished jobs and filled returns ----------

  ghost predicate ReturnsAreSound(s: State) {
    // only an announced job has returns
    && (forall r :: r in s.jobReturns ==> r.job in s.jobs && s.jobs[r.job].status != JobStarting)
    // a finished job waits for nothing
    && (forall r :: r in s.jobReturns && s.jobReturns[r].status == ReturnWaiting ==>
          s.jobs[r.job].status != JobFinished)
    // a retcode says how the return ended
    && (forall r :: r in s.jobReturns && s.jobReturns[r].retcode.Some? ==>
          s.jobReturns[r].status == if s.jobReturns[r].retcode == Some(0) then ReturnSuccess else ReturnFailed)
  }

  lemma StepKeepsReturnsSound(s: State, step: Step)
    requires IsEnabled(s, step) && ReturnsAreSound(s)
    ensures ReturnsAreSound(Next(s, step))
  {
    match step
    case NewJob(j, minions, missing) =>
      AnnouncingKeepsReturnsSound(s, j, s.jobs[j].(status := JobRunning), minions, missing);
    case ForeignJob(j, record, minions, missing) =>
      AnnouncingKeepsReturnsSound(s, j, record, minions, missing);
    case Returned(j, m, retcode) =>
      var s1 := s.(jobReturns := s.jobReturns[ReturnKey(j, m) := Recorded(s.jobReturns[ReturnKey(j, m)], retcode)]);
      FinishingKeepsReturnsSound(s1, j);
    case FinishJob(j) => FinishingKeepsReturnsSound(s, j);
    case TimeOut(j, m) => TimeoutKeepsReturnsSound(s, j, m);
    case _ => OthersKeepReturnsSound(s, step);
  }

  lemma TimeoutKeepsReturnsSound(s: State, j: JobId, m: Minion)
    requires IsEnabled(s, TimeOut(j, m)) && ReturnsAreSound(s)
    ensures ReturnsAreSound(TimedOut(s, j, m))
  {
  }

  lemma OthersKeepReturnsSound(s: State, step: Step)
    requires IsEnabled(s, step) && ReturnsAreSound(s)
    requires !step.NewJob? && !step.ForeignJob? && !step.Returned? && !step.FinishJob? && !step.TimeOut?
    ensures ReturnsAreSound(Next(s, step))
  {
    if step.Start? || step.CreateJob? || step.Revert? || step.LaunchError? {
      JobStepKeepsReturnsSound(s, step);
    }
  }

  lemma JobStepKeepsReturnsSound(s: State, step: Step)
    requires IsEnabled(s, step) && ReturnsAreSound(s)
    requires step.Start? || step.CreateJob? || step.Revert? || step.LaunchError?
    ensures ReturnsAreSound(Next(s, step))
  {
  }

  lemma AnnouncingKeepsReturnsSound(s: State, j: JobId, job: Job, minions: set<Minion>, missing: set<Minion>)
    requires ReturnsAreSound(s) && job.status == JobRunning
    requires j in s.jobs ==> s.jobs[j].status == JobStarting
    ensures ReturnsAreSound(s.(jobs := s.jobs[j := job], jobReturns := Announced(s, j, minions, missing)))
  {
    var n := Announced(s, j, minions, missing);
    AnnouncedReturns(s, j, minions, missing);
  }

  lemma AnnouncedReturns(s: State, j: JobId, minions: set<Minion>, missing: set<Minion>)
    ensures
      var n := Announced(s, j, minions, missing);
      forall r :: r in n ==>
        || (r in s.jobReturns && n[r] == s.jobReturns[r])
        || (r.job == j && n[r].retcode.None?)
  {
  }

  /** A job is marked finished only when it waits for nothing. */
  lemma FinishingKeepsReturnsSound(s: State, j: JobId)
    requires j in s.jobs && ReturnsAreSound(s)
    ensures ReturnsAreSound(FinishIfDone(s, j))
  {
    if s.jobs[j].status == JobRunning && !HasWaitingReturn(s, j) {
      assert forall r :: r in s.jobReturns && r.job == j ==> s.jobReturns[r].status != ReturnWaiting;
    }
  }

  /** A return with a retcode keeps its status and retcode, whatever happens. */
  lemma FilledReturnIsFinal(s: State, step: Step, r: ReturnKey)
    requires IsEnabled(s, step) && ReturnsAreSound(s)
    requires r in s.jobReturns && s.jobReturns[r].retcode.Some?
    ensures r in Next(s, step).jobReturns
    ensures Next(s, step).jobReturns[r].status == s.jobReturns[r].status
    ensures Next(s, step).jobReturns[r].retcode == s.jobReturns[r].retcode
  {
    match step
    case TimeOut(j, m) => TimeoutKeepsFilled(s, j, m, r);
    case NewJob(j, minions, missing) => AnnouncedReturns(s, j, minions, missing);
    case ForeignJob(j, _, minions, missing) => AnnouncedReturns(s, j, minions, missing);
    case _ =>
  }

  /** A waiting return has no retcode, so a timeout touches no filled one. */
  lemma TimeoutKeepsFilled(s: State, j: JobId, m: Minion, r: ReturnKey)
    requires IsEnabled(s, TimeOut(j, m)) && ReturnsAreSound(s)
    requires r in s.jobReturns && s.jobReturns[r].retcode.Some?
    ensures r in TimedOut(s, j, m).jobReturns && TimedOut(s, j, m).jobReturns[r] == s.jobReturns[r]
  {
  }

  ghost predicate IsSafe(s: State) {
    MutuallyExclusive(s) && ReturnsAreSound(s)
  }

  /** Over every run, restarts included: no minion in work for two tasks, no finished job with a waiting return. */
  lemma {:induction false} EveryRunIsSafe(s: State, steps: seq<Step>)
    requires IsSafe(s) && After(s, steps).Some?
    ensures IsSafe(After(s, steps).value)
  {
    if steps != [] {
      var n := |steps| - 1;
      EveryRunIsSafe(s, steps[..n]);
      var before := After(s, steps[..n]).value;
      StepKeepsExclusion(before, steps[n]);
      StepKeepsReturnsSound(before, steps[n]);
    }
  }

  lemma InitialIsSafe(s: State)
    requires IsInitial(s)
    ensures IsSafe(s)
  {
  }
}
