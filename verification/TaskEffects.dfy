/**
 What the events of jobs leave in the stored records, record by record
 (saltbox_core/salt/handlers, saltbox_core/tasks).
 */
module TaskEffects {
  import opened Wrappers
  import opened TaskStatuses
  import opened TaskProtocol
  import opened TaskEvents

  /** The runs of the row that have left a return record are as many as its task allows. */
  predicate IsUsedUp(s: State, k: RowKey) {
    var recorded := set r |
      r in s.jobReturns && r.minion == k.minion && r.job in s.jobs && s.jobs[r.job].source == FromTask(k.task) :: r.job;
    |recorded| >= if k.task in s.tasks then s.tasks[k.task].maxRetries else 0
  }

  /** A minion of a new job is waited for, one that is only missing is not, and no other return is touched. */
  lemma NewJobAwaits(s: State, j: JobId, minions: set<Minion>, missing: set<Minion>, r: ReturnKey)
    requires IsEnabled(s, NewJob(j, minions, missing))
    ensures
      var n := Next(s, NewJob(j, minions, missing));
      && n.jobs == s.jobs[j := s.jobs[j].(status := JobRunning)] && n.rows == s.rows && n.tasks == s.tasks
      && (r in n.jobReturns <==> r in s.jobReturns || (r.job == j && (r.minion in minions || r.minion in missing)))
      && (r in n.jobReturns ==>
            n.jobReturns[r] ==
              if r.job == j && r.minion in minions then Return(ReturnWaiting, None, None)
              else if r.job == j && r.minion in missing then Return(ReturnIgnored, None, None)
              else s.jobReturns[r])
  {
    assert r == ReturnKey(r.job, r.minion);
  }

  /** The first retcode decides how the return ended, a later one changes nothing; the last return finishes its job. */
  lemma ReturnIsKept(s: State, j: JobId, m: Minion, retcode: Option<int>)
    requires IsEnabled(s, Returned(j, m, retcode))
    ensures
      var n, r := Next(s, Returned(j, m, retcode)), ReturnKey(j, m);
      var status := if retcode == Some(0) then ReturnSuccess else ReturnFailed;
      && n.rows == s.rows && n.tasks == s.tasks
      && n.jobReturns == s.jobReturns[r :=
           if s.jobReturns[r].retcode.Some? then s.jobReturns[r] else Return(status, retcode, s.jobReturns[r].ttl)]
      && n.jobs == s.jobs[j := s.jobs[j].(status := n.jobs[j].status)]
      && n.jobs[j].status ==
           if s.jobs[j].status == JobRunning
              && (forall q :: q in n.jobReturns && q.job == j ==> n.jobReturns[q].status != ReturnWaiting)
           then JobFinished else s.jobs[j].status
  {
    var r := ReturnKey(j, m);
    assert s.jobReturns[r := s.jobReturns[r]] == s.jobReturns && s.jobs[j := s.jobs[j]] == s.jobs;
  }

  /** A return of a task's job makes its row success, failed when its runs are used up, or pending again. */
  lemma ReturnDecidesRow(s: State, j: JobId, m: Minion)
    requires IsEnabled(s, TaskReturn(j, m))
    ensures
      var n, k := Next(s, TaskReturn(j, m)), RowKey(s.jobs[j].source.task, m);
      && n == s.(rows := s.rows[k := Row(n.rows[k].status, s.rows[k].startedAt)])
      && n.rows[k].status ==
           if s.jobReturns[ReturnKey(j, m)].retcode == Some(0) then Success
           else if IsUsedUp(s, k) then Failed else Pending
  {
  }

  /** A timeout ends the return, and of a task's job the row, unless that is pending. */
  lemma TimeoutDecidesRow(s: State, j: JobId, m: Minion)
    requires IsEnabled(s, TimeOut(j, m)) && s.jobs[j].source.FromTask? && s.jobs[j].source.task in s.tasks
    requires RowKey(s.jobs[j].source.task, m) in s.rows
    ensures
      var n, k, r := Next(s, TimeOut(j, m)), RowKey(s.jobs[j].source.task, m), ReturnKey(j, m);
      && n.jobs == s.jobs && n.tasks == s.tasks
      && n.jobReturns == s.jobReturns[r := Return(ReturnTimeout, s.jobReturns[r].retcode, s.jobReturns[r].ttl)]
      && n.rows == s.rows[k := Row(n.rows[k].status, s.rows[k].startedAt)]
      && n.rows[k].status == if s.rows[k].status == Pending then Pending else if IsUsedUp(s, k) then Failed else Pending
  {
    var k := RowKey(s.jobs[j].source.task, m);
    assert s.rows[k := s.rows[k]] == s.rows;
  }

  /** A launch error fails every targeted row of the task, whatever its status. */
  lemma ErrorFailsRows(s: State, j: JobId, k: RowKey)
    requires IsEnabled(s, TaskError(j)) && k in s.rows
    ensures k in Next(s, TaskError(j)).rows
    ensures Next(s, TaskError(j)).rows[k] ==
      if k.task == s.jobs[j].source.task && k.minion in s.jobs[j].targets then Row(Failed, s.rows[k].startedAt)
      else s.rows[k]
  {
  }

  /** A row that has been in work for too long is released, but never while a return of its task's jobs is awaited. */
  lemma ReleasedExactly(s: State, now: int, minAge: int, k: RowKey)
    requires k in s.rows
    ensures
      var isLocked :=
        && s.rows[k].status == InWork && s.rows[k].startedAt.Some? && s.rows[k].startedAt.value < now - minAge
        && forall r ::
             (r in s.jobReturns && r.minion == k.minion && r.job in s.jobs && s.jobs[r.job].source == FromTask(k.task))
             ==> s.jobReturns[r].status != ReturnWaiting;
      Released(s, Locked(s, now, minAge)).rows[k] ==
        if isLocked then Row(if IsUsedUp(s, k) then Failed else Pending, s.rows[k].startedAt) else s.rows[k]
  {
  }

  /** When a job could not be started its rows are pending again, with the time of the start. */
  lemma FailedStartFreesRows(s: State, j: JobId, k: RowKey)
    requires IsEnabled(s, Revert(j)) && k in s.rows
    ensures k in Next(s, Revert(j)).rows
    ensures Next(s, Revert(j)).rows[k] ==
      if s.jobs[j].source == FromTask(k.task) && k.minion in s.jobs[j].targets then Row(Pending, s.rows[k].startedAt)
      else s.rows[k]
  {
  }

  /** A task that is stopped gives up its busy rows, and no job or return is touched. */
  lemma StopFreesBusyRows(s: State, t: TaskId, k: RowKey)
    requires IsEnabled(s, StopTask(t)) && k in s.rows
    ensures
      var n := Next(s, StopTask(t));
      && n == s.(rows := n.rows) && k in n.rows
      && n.rows[k] == if k.task == t && s.rows[k].status == Busy then Row(Pending, s.rows[k].startedAt) else s.rows[k]
  {
  }

  /** A restart makes exactly the given rows pending, whatever their status. */
  lemma RestartFreesRows(s: State, t: TaskId, minions: set<Minion>, k: RowKey)
    requires IsEnabled(s, Restart(t, minions)) && k in s.rows
    ensures k in Next(s, Restart(t, minions)).rows
    ensures Next(s, Restart(t, minions)).rows[k] ==
      if k.task == t && k.minion in minions then Row(Pending, s.rows[k].startedAt) else s.rows[k]
  {
  }
}
