/** What a tick leaves behind, read off the stored records (saltbox_core/tasks/services/tasks_lifespan.py). */
module TaskTicks {
  import opened Wrappers
  import opened TaskStatuses
  import opened TaskProtocol
  import opened TaskScheduling
  import opened TaskScheduler
  import opened TaskQueue

  /** fill_task_minions adds pending rows that were never started and touches no other. */
  lemma FillAdds(s: State, t: TaskId, found: set<Minion>, k: RowKey)
    ensures k in Filled(s, t, found).rows <==> k in s.rows || (k.task == t && k.minion in found)
    ensures k in Filled(s, t, found).rows ==>
      Filled(s, t, found).rows[k] == if k in s.rows then s.rows[k] else Row(Pending, None)
  {
  }

  /** The policy check gives its verdict to pending, blocked and unreachable rows of the task and touches no other. */
  lemma CheckChanges(s: State, t: TaskId, verdicts: map<Minion, Status>, k: RowKey)
    requires k in s.rows
    ensures k in Rechecked(s, t, verdicts).rows
    ensures Rechecked(s, t, verdicts).rows[k].startedAt == s.rows[k].startedAt
    ensures Rechecked(s, t, verdicts).rows[k].status ==
      if k.task == t && k.minion in verdicts && s.rows[k].status in {Pending, Blocked, Unreachable}
      then verdicts[k.minion] else s.rows[k].status
  {
  }

  /** A row that a tick changes while it creates jobs was pending and due, is in work, and has one new job. */
  lemma TakenWasDue(ready: State, n: State, tick: Tick, k: RowKey)
    requires JobsCoverTaken(ready, n, tick) && k in ready.rows && k in n.rows && n.rows[k] != ready.rows[k]
    ensures k.task == tick.task && ready.rows[k].status == Pending && n.rows[k].status == InWork
    ensures ready.rows[k].startedAt.Some? ==> ready.rows[k].startedAt.value <= tick.now - tick.retryDelay
    ensures k.minion in tick.lastActivity && tick.lastActivity[k.minion] >= tick.now - tick.activePeriod
    ensures exists j ::
      && j in n.jobs && j !in ready.jobs && k.minion in n.jobs[j].targets
      && n.jobs[j].source == FromTask(tick.task) && n.jobs[j].master == k.minion.master
      && n.jobs[j].status == JobStarting
      && forall o :: o in n.jobs && o !in ready.jobs && k.minion in n.jobs[o].targets ==> o == j
  {
    assert IsTaken(ready, n, tick.task, k);
    assert IsDue(ready, tick, k.minion.master, k.minion) && IsTargeted(ready, n, k.minion);
    var j :| j in NewJobs(ready, n) && k.minion in n.jobs[j].targets;
    assert IsStartOf(n, tick, j);
    forall o | o in n.jobs && o !in ready.jobs && k.minion in n.jobs[o].targets
      ensures o == j
    {
      assert o in NewJobs(ready, n);
    }
  }

  /** On a master that was served a due row is left pending only if as many jobs as allowed are active there. */
  lemma LeftOnlyAtLimit(ready: State, n: State, tick: Tick, k: RowKey)
    requires IsServed(ready, n, tick, k.minion.master) && k in n.rows && k.task == tick.task
    requires n.rows[k].status == Pending
    requires n.rows[k].startedAt.Some? ==> n.rows[k].startedAt.value <= tick.now - tick.retryDelay
    requires k.minion in tick.lastActivity && tick.lastActivity[k.minion] >= tick.now - tick.activePeriod
    ensures
      |set j | j in n.jobs && n.jobs[j].source == FromTask(tick.task) && n.jobs[j].master == k.minion.master
         && (n.jobs[j].status == JobStarting || n.jobs[j].status == JobRunning)| >= tick.maxJobs
  {
    var active := set j | j in n.jobs && n.jobs[j].source == FromTask(tick.task) && n.jobs[j].master == k.minion.master
      && (n.jobs[j].status == JobStarting || n.jobs[j].status == JobRunning);
    assert k.minion in Due(n, tick, k.minion.master);
    assert active == ActiveJobs(n, tick.task, k.minion.master);
  }

  /** A job of the task is starting or running on a listed master. */
  predicate IsUnderWay(n: State, t: TaskId, masters: seq<string>, j: JobId) {
    && j in n.jobs && n.jobs[j].source == FromTask(t) && n.jobs[j].master in masters
    && n.jobs[j].status != JobFinished && n.jobs[j].status != JobLaunchError
  }

  lemma UnderWayIsActive(n: State, t: TaskId, masters: seq<string>)
    ensures (exists j :: IsUnderWay(n, t, masters, j)) <==>
      exists master :: master in masters && ActiveJobs(n, t, master) != {}
  {
    if master :| master in masters && ActiveJobs(n, t, master) != {} {
      var j :| j in ActiveJobs(n, t, master);
      assert IsUnderWay(n, t, masters, j);
    }
    if j :| IsUnderWay(n, t, masters, j) {
      assert j in ActiveJobs(n, t, n.jobs[j].master);
    }
  }

  /** The task goes on while a row can still run or a job of it is under way on an accepted master. */
  lemma TaskGoesOnExactly(n: State, t: TaskId, isPolicy: bool, masters: seq<string>)
    ensures
      var goesOn :=
        || (exists k :: k in n.rows && k.task == t && n.rows[k].status !in {Success, Failed, Unreachable})
        || (exists j :: IsUnderWay(n, t, masters, j));
      Verdict(n, t, isPolicy, masters) == if goesOn then Running else if isPolicy then WaitMinions else Finished
  {
    UnderWayIsActive(n, t, masters);
    UnfinishedExactly(n, t);
  }

  lemma UnfinishedExactly(n: State, t: TaskId)
    ensures IsUnfinished(n, t) <==>
      exists k :: k in n.rows && k.task == t && n.rows[k].status !in {Success, Failed, Unreachable}
  {
    forall k | k in n.rows
      ensures n.rows[k].status in {Pending, Busy, InWork, Blocked} <==>
        n.rows[k].status !in {Success, Failed, Unreachable}
    {
      var status := n.rows[k].status;
      assert status.Pending? || status.Blocked? || status.Unreachable? || status.Busy? || status.InWork?
        || status.Success? || status.Failed?;
    }
  }

  /** sync_jobs finishes a job exactly when it is a running one of the task from which no return is awaited. */
  lemma SyncFinishesExactly(s: State, t: TaskId, j: JobId)
    requires j in s.jobs
    ensures j in Synced(s, t).jobs
    ensures Synced(s, t).jobs[j].(status := s.jobs[j].status) == s.jobs[j]
    ensures Synced(s, t).jobs[j].status ==
      if s.jobs[j].source == FromTask(t) && s.jobs[j].status == JobRunning
         && (forall r :: r in s.jobReturns && r.job == j ==> s.jobReturns[r].status != ReturnWaiting)
      then JobFinished else s.jobs[j].status
  {
  }
}
