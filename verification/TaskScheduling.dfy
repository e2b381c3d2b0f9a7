/** What one tick of a running task decides (saltbox_core/tasks/services/tasks_lifespan.py). */
module TaskScheduling {
  import opened Wrappers
  import opened TaskStatuses
  import opened TaskProtocol
  import opened TaskSafety

  /** The task's settings and the clock of one tick. */
  datatype Tick = Tick(
    task: TaskId, batchSize: nat, maxJobs: nat, retryDelay: int, ttl: int,
    now: int, activePeriod: int, lastActivity: map<Minion, int>)

  predicate IsDue(s: State, tick: Tick, master: string, m: Minion) {
    var k := RowKey(tick.task, m);
    && k in s.rows && m.master == master && s.rows[k].status == Pending
    && (s.rows[k].startedAt.None? || s.rows[k].startedAt.value <= tick.now - tick.retryDelay)
    && m in tick.lastActivity && tick.lastActivity[m] >= tick.now - tick.activePeriod
  }

  function Due(s: State, tick: Tick, master: string): set<Minion> {
    set k | k in s.rows && k.task == tick.task && IsDue(s, tick, master, k.minion) :: k.minion
  }

  function ActiveJobs(s: State, t: TaskId, master: string): set<JobId> {
    set j | j in s.jobs && s.jobs[j].source == FromTask(t) && s.jobs[j].master == master
      && s.jobs[j].status in {JobStarting, JobRunning}
  }

  /** check_busy_task_minions has just run. */
  ghost predicate PendingAreFree(s: State, t: TaskId) {
    forall k :: k in s.rows && k.task == t && s.rows[k].status == Pending ==> !IsHeld(s, t, k.minion)
  }

  /**
   The minion is not for the task now: it works for another task, or the task is a state.apply and one is still awaited
   from it.
   */
  predicate MustWait(s: State, t: TaskId, m: Minion) {
    || (exists k :: k in s.rows && k.minion == m && k.task != t && s.rows[k].status == InWork)
    || (t in s.tasks && s.tasks[t].isStateApply
        && exists r :: r in s.jobReturns && r.minion == m && s.jobReturns[r].status == ReturnWaiting
             && r.job in s.jobs && s.jobs[r.job].isStateApply)
  }

  lemma HeldMustWait(s: State, t: TaskId)
    ensures forall m :: IsHeld(s, t, m) <==> MustWait(s, t, m)
  {
  }

  /** After check_busy_task_minions a row that waited is busy exactly when its minion must wait. */
  lemma ParkedMustWait(s: State, t: TaskId)
    requires t in s.tasks
    ensures
      var n := Next(s, Park(t));
      forall k :: k in n.rows && k.task == t && s.rows[k].status in {Pending, Busy} ==>
        n.rows[k].status == if MustWait(s, t, k.minion) then Busy else Pending
  {
    HeldMustWait(s, t);
  }

  /** Over every run a job takes only pending minions that need not wait for another task or another state.apply. */
  lemma StartsTakeFreeMinions(s: State, steps: seq<Step>, t: TaskId, j: JobId, master: string, targets: set<Minion>,
    now: int, ttl: int, m: Minion)
    requires After(s, steps).Some? && IsEnabled(After(s, steps).value, Start(t, j, master, targets, now, ttl))
    requires m in targets
    ensures
      var n := After(s, steps).value;
      && RowKey(t, m) in n.rows && n.rows[RowKey(t, m)].status == Pending && m.master == master
      && (forall k :: k in n.rows && k.minion == m && k.task != t ==> n.rows[k].status != InWork)
      && (n.tasks[t].isStateApply ==>
            forall r :: r in n.jobReturns && r.minion == m && r.job in n.jobs && n.jobs[r.job].isStateApply ==>
              n.jobReturns[r].status != ReturnWaiting)
  {
    HeldMustWait(After(s, steps).value, t);
  }

  function NewJobs(s: State, n: State): set<JobId> {
    n.jobs.Keys - s.jobs.Keys
  }

  ghost predicate IsTaken(s: State, n: State, t: TaskId, k: RowKey) {
    && k.task == t && k in s.rows && k in n.rows
    && s.rows[k].status == Pending && n.rows[k].status == InWork
  }

  /** From `s` to `n` minions of the task were taken, and nothing else changed. */
  ghost predicate OnlyTakes(s: State, n: State, t: TaskId) {
    && n.tasks == s.tasks && n.jobReturns == s.jobReturns && n.rows.Keys == s.rows.Keys
    && (forall k :: k in s.rows && n.rows[k] != s.rows[k] ==> IsTaken(s, n, t, k))
    && s.jobs.Keys <= n.jobs.Keys && forall j :: j in s.jobs ==> n.jobs[j] == s.jobs[j]
  }

  ghost predicate IsStartOf(n: State, tick: Tick, j: JobId)
    requires j in n.jobs
  {
    var job := n.jobs[j];
    && job.source == FromTask(tick.task) && job.status == JobStarting
    && job.targets != {} && (forall m :: m in job.targets ==> m.master == job.master)
    && (tick.batchSize > 0 ==> |job.targets| <= tick.batchSize)
  }

  ghost predicate IsTargeted(s: State, n: State, m: Minion) {
    exists j :: j in NewJobs(s, n) && m in n.jobs[j].targets
  }

  ghost predicate AreStarts(s: State, n: State, tick: Tick) {
    forall j :: j in NewJobs(s, n) ==> IsStartOf(n, tick, j)
  }

  ghost predicate TargetsAreDisjoint(s: State, n: State) {
    forall i, j :: i in NewJobs(s, n) && j in NewJobs(s, n) && i != j ==> n.jobs[i].targets !! n.jobs[j].targets
  }

  ghost predicate TargetsAreTaken(s: State, n: State, t: TaskId) {
    forall k :: IsTaken(s, n, t, k) <==> k.task == t && IsTargeted(s, n, k.minion)
  }

  /** Only minions whose time had come were taken. */
  ghost predicate TakenWereDue(s: State, n: State, tick: Tick) {
    forall k :: IsTaken(s, n, tick.task, k) ==> IsDue(s, tick, k.minion.master, k.minion)
  }

  /** The new jobs share out exactly the minions that were taken, each to one job. */
  ghost predicate JobsCoverTaken(s: State, n: State, tick: Tick) {
    && OnlyTakes(s, n, tick.task) && AreStarts(s, n, tick) && TakenWereDue(s, n, tick)
    && TargetsAreDisjoint(s, n) && TargetsAreTaken(s, n, tick.task)
  }

  // ---------- one job more ----------

  /** What Start does, spelled out. */
  ghost predicate IsStarted(n: State, n': State, tick: Tick, master: string, j: JobId, targets: set<Minion>) {
    && n'.tasks == n.tasks && n'.jobReturns == n.jobReturns
    && n'.rows.Keys == n.rows.Keys
    && (forall k :: k in n.rows && k.task == tick.task && k.minion in targets ==>
         n'.rows[k] == Row(InWork, Some(tick.now)))
    && (forall k :: k in n.rows && !(k.task == tick.task && k.minion in targets) ==> n'.rows[k] == n.rows[k])
    && tick.task in n.tasks && j !in n.jobs
    && n'.jobs == n.jobs[j :=
         Job(FromTask(tick.task), master, n.tasks[tick.task].isStateApply, targets, JobStarting, tick.now, tick.ttl)]
  }

  lemma StartIsStarted(n: State, tick: Tick, master: string, j: JobId, targets: set<Minion>)
    requires IsEnabled(n, Start(tick.task, j, master, targets, tick.now, tick.ttl))
    ensures IsStarted(n, Next(n, Start(tick.task, j, master, targets, tick.now, tick.ttl)), tick, master, j, targets)
  {
  }

  lemma StartCovers(s: State, n: State, n': State, tick: Tick, master: string, j: JobId, targets: set<Minion>)
    requires JobsCoverTaken(s, n, tick) && IsStarted(n, n', tick, master, j, targets)
    requires targets <= Due(n, tick, master) && targets != {}
    requires tick.batchSize > 0 ==> |targets| <= tick.batchSize
    ensures JobsCoverTaken(s, n', tick)
  {
    assert NewJobs(s, n') == NewJobs(s, n) + {j};
    assert forall m :: m in targets ==> IsDue(n, tick, master, m);
    StartOnlyTakes(s, n, n', tick, master, j, targets);
    StartTargets(s, n, n', tick, master, j, targets);
    StartIsDisjoint(s, n, n', tick, master, j, targets);
    StartIsStart(s, n, n', tick, master, j, targets);
    StartTakesDue(s, n, n', tick, master, j, targets);
  }

  lemma StartTakesDue(s: State, n: State, n': State, tick: Tick, master: string, j: JobId, targets: set<Minion>)
    requires OnlyTakes(s, n, tick.task) && TakenWereDue(s, n, tick) && IsStarted(n, n', tick, master, j, targets)
    requires forall m :: m in targets ==> IsDue(n, tick, master, m)
    ensures TakenWereDue(s, n', tick)
  {
    forall k | IsTaken(s, n', tick.task, k)
      ensures IsDue(s, tick, k.minion.master, k.minion)
    {
      if k.minion in targets {
        assert IsDue(n, tick, master, k.minion) && k == RowKey(tick.task, k.minion);
        assert n.rows[k] == s.rows[k];
      } else {
        assert IsTaken(s, n, tick.task, k);
      }
    }
  }

  lemma StartIsStart(s: State, n: State, n': State, tick: Tick, master: string, j: JobId, targets: set<Minion>)
    requires AreStarts(s, n, tick) && IsStarted(n, n', tick, master, j, targets)
    requires NewJobs(s, n') == NewJobs(s, n) + {j} && targets != {}
    requires forall m :: m in targets ==> m.master == master
    requires tick.batchSize > 0 ==> |targets| <= tick.batchSize
    ensures AreStarts(s, n', tick)
  {
    forall i | i in NewJobs(s, n')
      ensures IsStartOf(n', tick, i)
    {
      if i != j {
        assert IsStartOf(n, tick, i) && n'.jobs[i] == n.jobs[i];
      }
    }
  }

  lemma StartOnlyTakes(s: State, n: State, n': State, tick: Tick, master: string, j: JobId, targets: set<Minion>)
    requires OnlyTakes(s, n, tick.task) && IsStarted(n, n', tick, master, j, targets)
    requires forall m :: m in targets ==> IsDue(n, tick, master, m)
    ensures OnlyTakes(s, n', tick.task)
  {
    forall k | k in s.rows && n'.rows[k] != s.rows[k]
      ensures IsTaken(s, n', tick.task, k)
    {
      if k.task == tick.task && k.minion in targets {
        assert IsDue(n, tick, master, k.minion);
      }
      assert n.rows[k] != s.rows[k] ==> IsTaken(s, n, tick.task, k);
    }
  }

  lemma StartIsDisjoint(s: State, n: State, n': State, tick: Tick, master: string, j: JobId, targets: set<Minion>)
    requires TargetsAreTaken(s, n, tick.task) && TargetsAreDisjoint(s, n) && IsStarted(n, n', tick, master, j, targets)
    requires NewJobs(s, n') == NewJobs(s, n) + {j}
    requires forall m :: m in targets ==> IsDue(n, tick, master, m)
    ensures TargetsAreDisjoint(s, n')
  {
    forall i, m | i in NewJobs(s, n) && m in n.jobs[i].targets
      ensures m !in targets
    {
      assert IsTargeted(s, n, m);
      assert IsTaken(s, n, tick.task, RowKey(tick.task, m));
    }
    forall i | i in NewJobs(s, n)
      ensures n'.jobs[i] == n.jobs[i] && n.jobs[i].targets !! targets
    {
    }
  }

  lemma StartTargets(s: State, n: State, n': State, tick: Tick, master: string, j: JobId, targets: set<Minion>)
    requires OnlyTakes(s, n, tick.task) && IsStarted(n, n', tick, master, j, targets)
    requires forall m :: m in targets ==> IsDue(n, tick, master, m)
    requires NewJobs(s, n') == NewJobs(s, n) + {j}
    requires TargetsAreTaken(s, n, tick.task)
    ensures TargetsAreTaken(s, n', tick.task)
  {
    forall m
      ensures IsTargeted(s, n', m) <==> IsTargeted(s, n, m) || m in targets
    {
      if IsTargeted(s, n, m) {
        var i :| i in NewJobs(s, n) && m in n.jobs[i].targets;
        assert i in NewJobs(s, n') && m in n'.jobs[i].targets;
      }
      if m in targets {
        assert j in NewJobs(s, n') && m in n'.jobs[j].targets;
      }
    }
    StartTakesTargets(s, n, n', tick, master, j, targets);
  }

  lemma StartTakesTargets(s: State, n: State, n': State, tick: Tick, master: string, j: JobId, targets: set<Minion>)
    requires OnlyTakes(s, n, tick.task) && IsStarted(n, n', tick, master, j, targets)
    requires forall m :: m in targets ==> IsDue(n, tick, master, m)
    ensures forall k :: IsTaken(s, n', tick.task, k) <==>
      IsTaken(s, n, tick.task, k) || (k.task == tick.task && k.minion in targets)
    ensures forall k: RowKey :: k.minion in targets ==> !IsTaken(s, n, tick.task, k)
  {
    forall k: RowKey | k.task == tick.task && k.minion in targets
      ensures IsTaken(s, n', tick.task, k) && !IsTaken(s, n, tick.task, k)
    {
      assert IsDue(n, tick, master, k.minion);
    }
  }

  lemma StartCounts(n: State, n': State, tick: Tick, master: string, j: JobId, targets: set<Minion>)
    requires IsStarted(n, n', tick, master, j, targets)
    ensures |ActiveJobs(n', tick.task, master)| == |ActiveJobs(n, tick.task, master)| + 1
    ensures forall other :: other != master ==> ActiveJobs(n', tick.task, other) == ActiveJobs(n, tick.task, other)
  {
    assert ActiveJobs(n', tick.task, master) == ActiveJobs(n, tick.task, master) + {j};
  }

  lemma StartLeavesDue(n: State, n': State, tick: Tick, master: string, j: JobId, targets: set<Minion>)
    requires IsStarted(n, n', tick, master, j, targets) && targets <= Due(n, tick, master)
    ensures Due(n', tick, master) == Due(n, tick, master) - targets
    ensures forall other :: other != master ==> Due(n', tick, other) == Due(n, tick, other)
  {
    forall other, m
      ensures IsDue(n', tick, other, m) <==> IsDue(n, tick, other, m) && m !in targets
    {
    }
    assert forall m :: m in targets ==> m.master == master;
    assert forall other, m :: m in Due(n, tick, other) <==> IsDue(n, tick, other, m);
    assert forall other, m :: m in Due(n', tick, other) <==> IsDue(n', tick, other, m);
  }

  lemma StartKeepsHeld(n: State, n': State, tick: Tick, master: string, j: JobId, targets: set<Minion>)
    requires IsStarted(n, n', tick, master, j, targets) && ReturnsAreSound(n)
    ensures forall m :: IsHeld(n', tick.task, m) <==> IsHeld(n, tick.task, m)
  {
    assert forall r :: r in n'.jobReturns ==> n'.jobs[r.job] == n.jobs[r.job];
    forall m
      ensures IsHeld(n', tick.task, m) <==> IsHeld(n, tick.task, m)
    {
    }
  }

  lemma StartKeepsFree(n: State, n': State, tick: Tick, master: string, j: JobId, targets: set<Minion>)
    requires IsStarted(n, n', tick, master, j, targets)
    requires ReturnsAreSound(n) && PendingAreFree(n, tick.task)
    ensures PendingAreFree(n', tick.task)
  {
    StartKeepsHeld(n, n', tick, master, j, targets);
    forall k | k in n'.rows && k.task == tick.task && n'.rows[k].status == Pending
      ensures n.rows[k].status == Pending
    {
    }
  }

  lemma DueAreTakeable(n: State, tick: Tick, master: string, targets: set<Minion>)
    requires PendingAreFree(n, tick.task) && targets <= Due(n, tick, master)
    ensures AreTakeable(n, tick.task, targets)
    ensures forall m :: m in targets ==> m.master == master
  {
  }

  function TakenMinions(s: State, n: State, t: TaskId): set<Minion> {
    set k | k in s.rows && k in n.rows && k.task == t && s.rows[k].status == Pending && n.rows[k].status == InWork ::
      k.minion
  }

  lemma StartTakes(s: State, n: State, n': State, tick: Tick, master: string, j: JobId, targets: set<Minion>)
    requires OnlyTakes(s, n, tick.task) && IsStarted(n, n', tick, master, j, targets)
    requires targets <= Due(n, tick, master)
    ensures |TakenMinions(s, n', tick.task)| == |TakenMinions(s, n, tick.task)| + |targets|
  {
    assert forall m :: m in targets ==> IsDue(n, tick, master, m);
    StartTakesTargets(s, n, n', tick, master, j, targets);
    TakenGrow(s, n, n', tick.task, targets);
  }

  lemma TakenGrow(s: State, n: State, n': State, t: TaskId, targets: set<Minion>)
    requires forall k :: IsTaken(s, n', t, k) <==> IsTaken(s, n, t, k) || (k.task == t && k.minion in targets)
    requires forall k: RowKey :: k.minion in targets ==> !IsTaken(s, n, t, k)
    ensures |TakenMinions(s, n', t)| == |TakenMinions(s, n, t)| + |targets|
  {
    var before := TakenByRow(s, n, t);
    var after := TakenByRow(s, n', t);
    forall m
      ensures m in after <==> m in before || m in targets
      ensures m in targets ==> m !in before
    {
      var k := RowKey(t, m);
      assert IsTaken(s, n', t, k) <==> IsTaken(s, n, t, k) || k.minion in targets;
      assert k.minion in targets ==> !IsTaken(s, n, t, k);
    }
    UnionOfDisjoint(before, targets, after);
  }

  lemma UnionOfDisjoint(a: set<Minion>, b: set<Minion>, c: set<Minion>)
    requires forall m :: m in c <==> m in a || m in b
    requires a !! b
    ensures |c| == |a| + |b|
  {
    assert c == a + b;
  }

  lemma TakenByRow(s: State, n: State, t: TaskId) returns (taken: set<Minion>)
    ensures taken == TakenMinions(s, n, t)
    ensures forall m {:trigger m in taken} :: m in taken <==> IsTaken(s, n, t, RowKey(t, m))
  {
    taken := TakenMinions(s, n, t);
    forall m | IsTaken(s, n, t, RowKey(t, m))
      ensures m in taken
    {
      var k := RowKey(t, m);
      assert k in s.rows && k.minion == m;
    }
  }

  // ---------- when the tick is over ----------

  function Larger(a: nat, b: nat): nat {
    if a < b then b else a
  }

  /** The master is at the limit, or nothing is left to start on it. */
  ghost predicate IsServed(s: State, n: State, tick: Tick, master: string) {
    && |ActiveJobs(n, tick.task, master)| <= Larger(|ActiveJobs(s, tick.task, master)|, tick.maxJobs)
    && (|ActiveJobs(n, tick.task, master)| < tick.maxJobs ==> Due(n, tick, master) == {})
  }

  predicate IsUnfinished(s: State, t: TaskId) {
    exists k :: k in s.rows && k.task == t && s.rows[k].status in {Pending, Busy, InWork, Blocked}
  }

  /** sync_jobs: every running job of the task that waits for nothing is finished. */
  function Synced(s: State, t: TaskId): State {
    s.(jobs := map j | j in s.jobs ::
         if s.jobs[j].source == FromTask(t) && s.jobs[j].status == JobRunning && !HasWaitingReturn(s, j)
         then s.jobs[j].(status := JobFinished) else s.jobs[j])
  }

  // ---------- runs ----------

  lemma CoversAtFirst(s: State, tick: Tick)
    ensures JobsCoverTaken(s, s, tick)
  {
  }

  lemma RunsAppend(s: State, first: seq<Step>, second: seq<Step>)
    requires After(s, first).Some?
    ensures After(s, first + second) == After(After(s, first).value, second)
    decreases |second|
  {
    if second == [] {
      assert first + second == first;
    } else {
      var n := |second| - 1;
      RunsAppend(s, first, second[..n]);
      assert (first + second)[..|first + second| - 1] == first + second[..n];
    }
  }

  lemma OneStepMore(s: State, steps: seq<Step>, n: State, step: Step)
    requires After(s, steps) == Some(n) && IsEnabled(n, step)
    ensures After(s, steps + [step]) == Some(Next(n, step))
  {
    assert (steps + [step])[..|steps|] == steps;
  }

  lemma SingleStep(s: State, step: Step)
    requires IsEnabled(s, step)
    ensures After(s, [step]) == Some(Next(s, step))
  {
    assert [step][..0] == [];
    assert After(s, [step][..0]) == Some(s);
  }
}
