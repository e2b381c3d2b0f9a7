/** The scheduler of one running task, over the stored records (saltbox_core/tasks/services/tasks_lifespan.py). */
module TaskScheduler {
  import opened Wrappers
  import opened TaskStatuses
  import opened TaskProtocol
  import opened TaskSafety
  import opened TaskScheduling
  import opened Sequences
  import opened TaskQueue

  /** How the creation of a job ends: it may fail before or after the job is stored. */
  datatype Launch = Sent | FailsBefore | FailsAfter

  ghost predicate IsPick(picked: set<Minion>, due: set<Minion>, limit: nat) {
    && picked <= due
    && (limit == 0 || |due| <= limit ==> picked == due)
    && (0 < limit < |due| ==> |picked| == limit)
  }

  /** `find` with a limit, 0 for none; which documents come first is left open. */
  method PickUpTo(due: set<Minion>, limit: nat) returns (picked: set<Minion>)
    ensures IsPick(picked, due, limit)
  {
    if limit == 0 {
      return due;
    }
    picked := {};
    var left := due;
    while left != {} && |picked| < limit
      invariant picked !! left && picked + left == due && |picked| <= limit
      decreases left
    {
      var m :| m in left;
      picked, left := picked + {m}, left - {m};
    }
    assert left == {} ==> picked == due;
    assert |due| == |picked| + |left|;
    assert left != {} ==> |left| > 0;
  }

  class Scheduler {
    const tasks: map<TaskId, Task>
    var rows: map<RowKey, Row>
    var jobs: map<JobId, Job>
    var jobReturns: map<ReturnKey, Return>
    var nextJob: JobId

    ghost predicate Valid()
      reads this
    {
      (forall j :: j in jobs ==> j < nextJob) && ReturnsAreSound(Current())
    }

    function Current(): State
      reads this
    {
      State(tasks, rows, jobs, jobReturns)
    }

    /** The service is made over records that may be under way; job numbers from `nextJob` on are new. */
    constructor (s: State, nextJob: JobId)
      requires ReturnsAreSound(s) && forall j :: j in s.jobs ==> j < nextJob
      ensures Valid() && Current() == s && this.nextJob == nextJob
    {
      tasks, rows, jobs, jobReturns, this.nextJob := s.tasks, s.rows, s.jobs, s.jobReturns, nextJob;
    }

    method GetBusyMinionsByTgt(t: TaskId, tgt: set<Minion>) returns (busy: set<Minion>)
      requires Valid() && t in tasks
      ensures busy == set m | m in tgt && IsHeld(Current(), t, m)
      ensures forall m :: m in busy <==> m in tgt && MustWait(Current(), t, m)
    {
      busy := {};
      if tasks[t].isStateApply {
        busy := set r | r in jobReturns && jobs[r.job].isStateApply && jobReturns[r].status == ReturnWaiting
          && r.minion in tgt :: r.minion;
      }
      busy := busy + set k | k in rows && k.task != t && rows[k].status == InWork && k.minion in tgt :: k.minion;
      HeldMustWait(Current(), t);
    }

    method BulkUpdateStatus(t: TaskId, minions: set<Minion>, from: Status, status: Status)
      modifies this`rows
      ensures rows == Updated(old(rows), t, minions, from, status)
    {
      rows := Updated(rows, t, minions, from, status);
    }

    method MinionsIn(t: TaskId, status: Status) returns (minions: set<Minion>)
      ensures forall m :: m in minions <==> RowKey(t, m) in rows && rows[RowKey(t, m)].status == status
    {
      minions := set k | k in rows && k.task == t && rows[k].status == status :: k.minion;
      assert forall m :: RowKey(t, m) in rows && rows[RowKey(t, m)].status == status ==> RowKey(t, m).minion in minions;
    }

    /** Two bulk updates, the second over what the first one left, come to a single Park. */
    method CheckBusyTaskMinions(t: TaskId)
      requires Valid() && t in tasks
      modifies this`rows
      ensures Valid() && Current() == Next(old(Current()), Park(t))
      ensures PendingAreFree(Current(), t)
      ensures forall k :: k in rows && k.task == t && old(rows)[k].status in {Pending, Busy} ==>
        rows[k].status == if MustWait(old(Current()), t, k.minion) then Busy else Pending
    {
      ghost var s := Current();
      ghost var held := iset m | IsHeld(s, t, m);
      var pending := MinionsIn(t, Pending);
      var busy := GetBusyMinionsByTgt(t, pending);
      BulkUpdateStatus(t, busy, Pending, Busy);
      ghost var s1 := Current();
      SameHeld(s, s1, t);
      var parked := MinionsIn(t, Busy);
      var stillBusy := GetBusyMinionsByTgt(t, parked);
      BulkUpdateStatus(t, parked - stillBusy, Busy, Pending);
      ParkInTwo(s.rows, s1.rows, rows, t, busy, parked - stillBusy, held);
      ParkedByHeld(s, t, held);
      SameHeld(s, Current(), t);
      ParkedMustWait(s, t);
    }

    method BulkTake(t: TaskId, minions: set<Minion>, now: int)
      modifies this`rows
      ensures rows == Taken(old(Current()), t, minions, InWork, now)
    {
      rows := Taken(Current(), t, minions, InWork, now);
    }

    /** Takes due minions and creates one job for them. */
    method CreateJob(tick: Tick, master: string, launch: Launch)
      returns (outcome: Result<set<Minion>, Launch>, ghost steps: seq<Step>)
      requires Valid() && tick.task in tasks && PendingAreFree(Current(), tick.task)
      modifies this
      ensures Valid() && nextJob >= old(nextJob) && PendingAreFree(Current(), tick.task)
      ensures After(old(Current()), steps) == Some(Current())
      ensures outcome.Ok? ==> IsPick(outcome.value, Due(old(Current()), tick, master), tick.batchSize)
      ensures outcome == Ok({}) ==> Current() == old(Current())
      ensures outcome.Ok? && outcome.value != {} ==>
        launch == Sent && IsStarted(old(Current()), Current(), tick, master, old(nextJob), outcome.value)
      ensures outcome.Err? ==>
        outcome.error == launch != Sent
        && Statuses(Current()) == Statuses(old(Current()))
        && |ActiveJobs(Current(), tick.task, master)| <= |ActiveJobs(old(Current()), tick.task, master)| + 1
    {
      var minions := PickUpTo(Due(Current(), tick, master), tick.batchSize);
      if minions == {} {
        return Ok({}), [];
      }
      DueAreTakeable(Current(), tick, master, minions);
      steps := LaunchJob(tick, master, minions, launch);
      outcome := if launch == Sent then Ok(minions) else Err(launch);
    }

    /** Takes the minions and stores their job; when that fails they are pending again. */
    method LaunchJob(tick: Tick, master: string, minions: set<Minion>, launch: Launch) returns (ghost steps: seq<Step>)
      requires Valid() && tick.task in tasks && PendingAreFree(Current(), tick.task)
      requires AreTakeable(Current(), tick.task, minions) && minions != {}
      requires forall m :: m in minions ==> m.master == master
      modifies this
      ensures Valid() && nextJob >= old(nextJob) && PendingAreFree(Current(), tick.task)
      ensures After(old(Current()), steps) == Some(Current())
      ensures launch == Sent ==> IsStarted(old(Current()), Current(), tick, master, old(nextJob), minions)
      ensures launch != Sent ==>
        && Statuses(Current()) == Statuses(old(Current()))
        && |ActiveJobs(Current(), tick.task, master)| <= |ActiveJobs(old(Current()), tick.task, master)| + 1
    {
      ghost var s := Current();
      BulkTake(tick.task, minions, tick.now);
      if launch == FailsBefore {
        BulkUpdateStatus(tick.task, minions, InWork, Pending);
        steps := FailedBefore(s, Current(), tick, minions);
        return;
      }
      StoreJob(tick, master, minions);
      steps := Launched(s, Current(), tick, master, old(nextJob), minions);
      if launch == FailsAfter {
        ghost var s1 := Current();
        BulkUpdateStatus(tick.task, minions, InWork, Pending);
        steps := FailedAfter(s, s1, Current(), tick, master, old(nextJob), minions);
      }
    }

    method StoreJob(tick: Tick, master: string, targets: set<Minion>)
      requires tick.task in tasks
      modifies this`jobs, this`nextJob
      ensures jobs == old(jobs)[old(nextJob) :=
                Job(
                  FromTask(tick.task), master, tasks[tick.task].isStateApply, targets, JobStarting, tick.now, tick.ttl)]
      ensures nextJob == old(nextJob) + 1
    {
      jobs := jobs[nextJob :=
        Job(FromTask(tick.task), master, tasks[tick.task].isStateApply, targets, JobStarting, tick.now, tick.ttl)];
      nextJob := nextJob + 1;
    }

    /** Creates jobs on one master up to the limit; `s` is the state when the tick began to start jobs. */
    method ScheduleMaster(tick: Tick, master: string, launches: JobId -> Launch, ghost s: State)
      returns (outcome: Result<nat, Launch>, active: nat, ghost steps: seq<Step>, ghost reached: State)
      requires Valid() && tick.task in tasks && PendingAreFree(Current(), tick.task)
      requires JobsCoverTaken(s, Current(), tick)
      modifies this
      ensures Valid() && PendingAreFree(Current(), tick.task) && After(old(Current()), steps) == Some(Current())
      ensures active == |ActiveJobs(Current(), tick.task, master)| || outcome.Err?
      ensures |ActiveJobs(Current(), tick.task, master)| <=
        Larger(|ActiveJobs(old(Current()), tick.task, master)|, tick.maxJobs)
      ensures JobsCoverTaken(s, reached, tick)
      ensures outcome.Err? ==> outcome.error != Sent && Statuses(Current()) == Statuses(reached)
      ensures outcome.Ok? ==>
        && reached == Current() && IsServed(old(Current()), Current(), tick, master)
        && outcome.value + |TakenMinions(s, old(Current()), tick.task)| == |TakenMinions(s, Current(), tick.task)|
        && forall other :: other != master ==> IsUntouched(old(Current()), Current(), tick, other)
    {
      var count: nat := 0;
      active := |ActiveJobs(Current(), tick.task, master)|;
      steps := [];
      ghost var first := Current();
      while active < tick.maxJobs
        invariant Valid() && PendingAreFree(Current(), tick.task) && After(first, steps) == Some(Current())
        invariant IsProgress(s, first, Current(), tick, master, active, count)
        decreases tick.maxJobs - active
      {
        ghost var before, j := Current(), nextJob;
        var created; ghost var more;
        created, more := CreateJob(tick, master, launches(nextJob));
        RunsAppend(first, steps, more);
        steps := steps + more;
        if created.Err? {
          return Err(created.error), active, steps, before;
        }
        var minions := created.value;
        if minions != {} {
          OneJobMore(s, first, before, Current(), tick, master, j, minions, active, count);
          active := active + 1;
        }
        count := count + |minions|;
        if |minions| < tick.batchSize || (tick.batchSize == 0 && |minions| == 0) {
          PickedAll(before, Current(), tick, master, minions);
          break;
        }
      }
      return Ok(count), active, steps, Current();
    }

    /** fill_task_minions: rows for the minions found, unless they are there. */
    method FillTaskMinions(t: TaskId, found: set<Minion>) returns (ghost steps: seq<Step>)
      requires Valid()
      modifies this`rows
      ensures Valid() && Current() == Filled(old(Current()), t, found)
      ensures After(old(Current()), steps) == Some(Current())
    {
      ghost var s := Current();
      var left := found;
      steps := [];
      FilledWithNone(s, t);
      while left != {}
        invariant left <= found && Current() == s.(rows := rows) && rows == FilledRows(s.rows, t, found - left)
        invariant After(s, steps) == Some(Current())
        decreases left
      {
        var m :| m in left;
        FillOne(s.rows, rows, t, found - left, m);
        assert found - (left - {m}) == found - left + {m};
        left := left - {m};
        if RowKey(t, m) !in rows {
          OneStepMore(s, steps, Current(), Fill(RowKey(t, m)));
          steps := steps + [Fill(RowKey(t, m))];
          rows := rows[RowKey(t, m) := Row(Pending, None)];
        }
      }
      assert found - left == found;
    }

    /** check_policy_requirements_task_minions: every candidate is judged in its queue before any row is written. */
    method CheckPolicyRequirements(t: TaskId, layouts: Layouts, statuses: map<TaskId, TaskStatus>)
      returns (ghost steps: seq<Step>)
      requires Valid() && AreLayouts(Current(), layouts)
      modifies this`rows
      ensures Valid() && Current() == Rechecked(old(Current()), t, Verdicts(old(Current()), t, layouts, statuses))
      ensures After(old(Current()), steps) == Some(Current())
    {
      var verdicts := Judge(t, layouts, statuses);
      VerdictsAreCandidates(Current(), t, layouts, statuses);
      steps := ApplyVerdicts(t, verdicts);
    }

    method Judge(t: TaskId, layouts: Layouts, statuses: map<TaskId, TaskStatus>) returns (verdicts: map<Minion, Status>)
      requires AreLayouts(Current(), layouts)
      ensures verdicts == Verdicts(Current(), t, layouts, statuses)
    {
      verdicts := map[];
      var left := set m | m in layouts && IsCandidateRow(Current(), t, m);
      while left != {}
        invariant forall m :: m in left ==> m in layouts && IsCandidateRow(Current(), t, m)
        invariant AreVerdictsBut(Current(), t, layouts, statuses, left, verdicts)
        decreases left
      {
        var m :| m in left;
        left := left - {m};
        var verdict := VerdictFor(Current(), t, layouts[m], m, statuses);
        OneMoreVerdict(Current(), t, layouts, statuses, left, verdicts, m);
        if verdict.Some? {
          verdicts := verdicts[m := verdict.value];
        }
      }
      AllVerdicts(Current(), t, layouts, statuses, verdicts);
    }

    /** The bulk updates of the statuses. */
    method ApplyVerdicts(t: TaskId, verdicts: map<Minion, Status>) returns (ghost steps: seq<Step>)
      requires Valid() && forall m :: m in verdicts ==> IsCandidate(verdicts[m])
      modifies this`rows
      ensures Valid() && Current() == Rechecked(old(Current()), t, verdicts)
      ensures After(old(Current()), steps) == Some(Current())
    {
      ghost var s := Current();
      var left := verdicts.Keys;
      steps := [];
      while left != {}
        invariant left <= verdicts.Keys && Current() == s.(rows := rows)
        invariant rows == RecheckedRows(s.rows, t, verdicts, verdicts.Keys - left)
        invariant After(s, steps) == Some(Current())
        decreases left
      {
        var m :| m in left;
        var k := RowKey(t, m);
        RecheckOne(s.rows, rows, t, verdicts, verdicts.Keys - left, m);
        assert verdicts.Keys - (left - {m}) == verdicts.Keys - left + {m};
        left := left - {m};
        if k in rows && IsCandidate(rows[k].status) {
          OneStepMore(s, steps, Current(), Recheck(k, verdicts[m]));
          steps := steps + [Recheck(k, verdicts[m])];
          rows := rows[k := WithStatus(rows[k], verdicts[m])];
        }
      }
      assert verdicts.Keys - left == verdicts.Keys;
    }

    /** sync_jobs, over the list of running jobs read at its start. */
    method SyncJobs(t: TaskId) returns (ghost steps: seq<Step>)
      requires Valid()
      modifies this`jobs
      ensures Valid() && Current() == Synced(old(Current()), t)
      ensures After(old(Current()), steps) == Some(Current())
    {
      ghost var s := Current();
      var running := set j | j in jobs && jobs[j].source == FromTask(t) && jobs[j].status == JobRunning;
      var left := running;
      steps := [];
      NoneSynced(s, t, left);
      while left != {}
        invariant forall j :: j in left ==>
          j in s.jobs && s.jobs[j].source == FromTask(t) && s.jobs[j].status == JobRunning
        invariant Valid() && Current() == s.(jobs := jobs)
        invariant IsSyncedBut(s, jobs, t, left)
        invariant After(s, steps) == Some(Current())
        decreases left
      {
        var j :| j in left;
        SyncOne(s, jobs, t, left, j);
        ghost var before := Current();
        ghost var finished := UpdateStatus(j);
        if finished {
          OneStepMore(s, steps, before, FinishJob(j));
          steps := steps + [FinishJob(j)];
        }
        left := left - {j};
      }
      SyncedAll(s, jobs, t);
    }

    /** update_status */
    method UpdateStatus(j: JobId) returns (ghost finished: bool)
      requires j in jobs
      modifies this`jobs
      ensures finished <==> IsEnabled(old(Current()), FinishJob(j))
      ensures Current() == if finished then Next(old(Current()), FinishJob(j)) else old(Current())
    {
      finished := jobs[j].status == JobRunning && !HasWaitingReturn(Current(), j);
      if jobs[j].status == JobRunning && !HasWaitingReturn(Current(), j) {
        jobs := jobs[j := jobs[j].(status := JobFinished)];
      }
    }

    /** The first part of handle_running_status: minions held by other tasks are parked last. */
    method Prepare(t: TaskId, isPolicy: bool, found: set<Minion>, layouts: Layouts, statuses: map<TaskId, TaskStatus>)
      returns (ghost steps: seq<Step>)
      requires Valid() && t in tasks && AreLayouts(Filled(Current(), t, found), layouts)
      modifies this`rows
      ensures Valid() && PendingAreFree(Current(), t)
      ensures Current() == Prepared(old(Current()), t, isPolicy, found, layouts, statuses)
      ensures After(old(Current()), steps) == Some(Current())
    {
      ghost var s := Current();
      steps := [];
      if isPolicy {
        ghost var fills := FillTaskMinions(t, found);
        ghost var checks := CheckPolicyRequirements(t, layouts, statuses);
        RunsAppend(s, fills, checks);
        steps := fills + checks;
      }
      OneStepMore(s, steps, Current(), Park(t));
      CheckBusyTaskMinions(t);
      steps := steps + [Park(t)];
    }

    /** Creates jobs master by master; without an error every master is served. */
    method ScheduleMasters(tick: Tick, masters: seq<string>, launches: JobId -> Launch)
      returns (error: Option<Launch>, totalStarted: nat, totalActive: nat, ghost steps: seq<Step>, ghost reached: State)
      requires Valid() && tick.task in tasks && Distinct(masters) && PendingAreFree(Current(), tick.task)
      modifies this
      ensures Valid() && After(old(Current()), steps) == Some(Current())
      ensures JobsCoverTaken(old(Current()), reached, tick)
      ensures error.Some? ==> error.value != Sent && Statuses(Current()) == Statuses(reached)
      ensures error.None? ==> reached == Current()
      ensures error.None? ==>
        IsScheduled(old(Current()), Current(), tick, masters, |masters|, totalStarted, totalActive)
    {
      ghost var s := Current();
      CoversAtFirst(s, tick);
      totalStarted, totalActive, steps := 0, 0, [];
      assert TakenMinions(s, s, tick.task) == {};
      for i := 0 to |masters|
        invariant Valid() && PendingAreFree(Current(), tick.task) && After(s, steps) == Some(Current())
        invariant IsScheduled(s, Current(), tick, masters, i, totalStarted, totalActive)
      {
        ghost var before, earlier := Current(), steps;
        var started, active;
        started, active, steps, reached := ScheduleMaster(tick, masters[i], launches, s);
        RunsAppend(s, earlier, steps);
        steps := earlier + steps;
        if started.Err? {
          return Some(started.error), totalStarted, totalActive, steps, reached;
        }
        totalStarted := totalStarted + started.value;
        totalActive := totalActive + active;
        OneMasterScheduled(
          s, before, Current(), tick, masters, i, totalStarted - started.value, totalActive - active,
          started.value, active);
      }
      return None, totalStarted, totalActive, steps, Current();
    }

    /**
     handle_running_status. `ready` is the state in which the tick starts creating jobs and `scheduled` the one
     in which it stops: in between the new jobs share out exactly the minions that were taken. Without an error every
     accepted master ends at its limit or with nothing left to start; a launch that fails ends the tick, and leaves
     every status as it was. The whole tick is a run of the protocol.
     */
    method HandleRunning(
      tick: Tick, isPolicy: bool, found: set<Minion>, layouts: Layouts, statuses: map<TaskId, TaskStatus>,
      masters: seq<string>, syncDue: bool, launches: JobId -> Launch)
      returns (outcome: Result<TaskStatus, Launch>, ghost ready: State, ghost scheduled: State, ghost steps: seq<Step>)
      requires Valid() && tick.task in tasks && Distinct(masters)
      requires AreLayouts(Filled(Current(), tick.task, found), layouts)
      modifies this
      ensures Valid() && After(old(Current()), steps) == Some(Current())
      ensures ready == Prepared(old(Current()), tick.task, isPolicy, found, layouts, statuses)
      ensures JobsCoverTaken(ready, scheduled, tick)
      ensures outcome.Err? ==> outcome.error != Sent && Statuses(Current()) == Statuses(scheduled)
      ensures outcome.Ok? ==>
        && (forall h :: 0 <= h < |masters| ==> IsServed(ready, scheduled, tick, masters[h]))
        && outcome.value == Verdict(scheduled, tick.task, isPolicy, masters)
        && Current() == if outcome.value == Running && syncDue then Synced(scheduled, tick.task) else scheduled
    {
      ghost var s := Current();
      ghost var more: seq<Step>;
      steps := Prepare(tick.task, isPolicy, found, layouts, statuses);
      ready := Current();
      var error, totalStarted, totalActive;
      error, totalStarted, totalActive, more, scheduled := ScheduleMasters(tick, masters, launches);
      RunsAppend(s, steps, more);
      steps := steps + more;
      if error.Some? {
        return Err(error.value), ready, scheduled, steps;
      }
      TakenAreUnfinished(ready, scheduled, tick.task);
      if totalActive == 0 && totalStarted == 0 && !IsUnfinished(Current(), tick.task) {
        return Ok(if isPolicy then WaitMinions else Finished), ready, scheduled, steps;
      }
      if syncDue {
        more := SyncJobs(tick.task);
        RunsAppend(s, steps, more);
        steps := steps + more;
      }
      return Ok(Running), ready, scheduled, steps;
    }
  }

  function FilledRows(rows: map<RowKey, Row>, t: TaskId, found: set<Minion>): map<RowKey, Row> {
    rows + map m | m in found && RowKey(t, m) !in rows :: RowKey(t, m) := Row(Pending, None)
  }

  function Filled(s: State, t: TaskId, found: set<Minion>): State {
    s.(rows := FilledRows(s.rows, t, found))
  }

  lemma FilledWithNone(s: State, t: TaskId)
    ensures forall found: set<Minion> :: found - found == {}
    ensures FilledRows(s.rows, t, {}) == s.rows
  {
  }

  lemma FillOne(first: map<RowKey, Row>, rows: map<RowKey, Row>, t: TaskId, done: set<Minion>, m: Minion)
    requires rows == FilledRows(first, t, done)
    ensures FilledRows(first, t, done + {m}) ==
      if RowKey(t, m) in rows then rows else rows[RowKey(t, m) := Row(Pending, None)]
  {
    var all := FilledRows(first, t, done + {m});
    assert forall k :: k in all <==> k in rows || k == RowKey(t, m);
  }

  function RecheckedRows(
    rows: map<RowKey, Row>, t: TaskId, verdicts: map<Minion, Status>, minions: set<Minion>): map<RowKey, Row>
    requires minions <= verdicts.Keys
  {
    map k | k in rows ::
      if k.task == t && k.minion in minions && IsCandidate(rows[k].status)
      then WithStatus(rows[k], verdicts[k.minion]) else rows[k]
  }

  function Rechecked(s: State, t: TaskId, verdicts: map<Minion, Status>): State {
    s.(rows := RecheckedRows(s.rows, t, verdicts, verdicts.Keys))
  }

  lemma RecheckOne(
    first: map<RowKey, Row>, rows: map<RowKey, Row>, t: TaskId, verdicts: map<Minion, Status>, done: set<Minion>,
    m: Minion)
    requires done <= verdicts.Keys && m in verdicts && m !in done && rows == RecheckedRows(first, t, verdicts, done)
    ensures RecheckedRows(first, t, verdicts, done + {m}) ==
      var k := RowKey(t, m);
      if k in rows && IsCandidate(rows[k].status) then rows[k := WithStatus(rows[k], verdicts[m])] else rows
  {
  }

  /** The jobs still to be looked at are as they were, the others as sync_jobs leaves them. */
  ghost predicate IsSyncedBut(s: State, jobs: map<JobId, Job>, t: TaskId, left: set<JobId>) {
    && jobs.Keys == s.jobs.Keys
    && forall j :: j in jobs ==> jobs[j] == if j in left then s.jobs[j] else Synced(s, t).jobs[j]
  }

  /** The state in which a tick starts creating jobs: what another task holds is parked last. */
  function Prepared(
    s: State, t: TaskId, isPolicy: bool, found: set<Minion>, layouts: Layouts, statuses: map<TaskId, TaskStatus>): State
    requires AreLayouts(Filled(s, t, found), layouts)
  {
    var all := Filled(s, t, found);
    var filled := if isPolicy then Rechecked(all, t, Verdicts(all, t, layouts, statuses)) else s;
    filled.(rows := Parked(filled, t))
  }

  /** The task's status after a tick: it stops when no master has an active job and no row is left to run. */
  function Verdict(s: State, t: TaskId, isPolicy: bool, masters: seq<string>): TaskStatus {
    if IsUnfinished(s, t) || exists master :: master in masters && ActiveJobs(s, t, master) != {} then Running
    else if isPolicy then WaitMinions
    else Finished
  }

  /** A minion that was taken is in work, so counting the minions taken adds nothing to the test of the rows. */
  lemma TakenAreUnfinished(s: State, n: State, t: TaskId)
    ensures |TakenMinions(s, n, t)| > 0 ==> IsUnfinished(n, t)
  {
    if |TakenMinions(s, n, t)| > 0 {
      var m :| m in TakenMinions(s, n, t);
      assert IsTaken(s, n, t, RowKey(t, m));
      assert RowKey(t, m) in n.rows;
    }
  }

  /** The first `i` masters are served, the others untouched. */
  ghost predicate AreServed(s: State, n: State, tick: Tick, masters: seq<string>, i: nat)
    requires i <= |masters|
  {
    && (forall h :: 0 <= h < i ==> IsServed(s, n, tick, masters[h]))
    && (forall h :: i <= h < |masters| ==> IsUntouched(s, n, tick, masters[h]))
  }

  /** How far the loop over the masters has come. */
  ghost predicate IsScheduled(
    s: State, n: State, tick: Tick, masters: seq<string>, i: nat, totalStarted: nat, totalActive: nat)
    requires i <= |masters|
  {
    && JobsCoverTaken(s, n, tick) && AreServed(s, n, tick, masters, i)
    && (totalActive == 0 <==> forall h :: 0 <= h < i ==> ActiveJobs(n, tick.task, masters[h]) == {})
    && totalStarted == |TakenMinions(s, n, tick.task)|
  }

  lemma OneMasterScheduled(
    s: State, before: State, n: State, tick: Tick, masters: seq<string>, i: nat,
    totalStarted: nat, totalActive: nat, started: nat, active: nat)
    requires Distinct(masters) && i < |masters| && IsScheduled(s, before, tick, masters, i, totalStarted, totalActive)
    requires JobsCoverTaken(s, n, tick) && IsServed(before, n, tick, masters[i])
    requires forall other :: other != masters[i] ==> IsUntouched(before, n, tick, other)
    requires active == |ActiveJobs(n, tick.task, masters[i])|
    requires started + |TakenMinions(s, before, tick.task)| == |TakenMinions(s, n, tick.task)|
    ensures IsScheduled(s, n, tick, masters, i + 1, totalStarted + started, totalActive + active)
  {
    OneMasterMore(s, before, n, tick, masters, i);
    if totalActive == 0 {
      assert forall h :: 0 <= h < i ==> ActiveJobs(n, tick.task, masters[h]) == {};
    }
  }

  lemma OneMasterMore(ready: State, before: State, n: State, tick: Tick, masters: seq<string>, i: nat)
    requires Distinct(masters) && i < |masters| && AreServed(ready, before, tick, masters, i)
    requires IsServed(before, n, tick, masters[i])
    requires forall other :: other != masters[i] ==> IsUntouched(before, n, tick, other)
    ensures AreServed(ready, n, tick, masters, i + 1)
    ensures forall h :: 0 <= h < i ==> ActiveJobs(n, tick.task, masters[h]) == ActiveJobs(before, tick.task, masters[h])
  {
    assert IsUntouched(ready, before, tick, masters[i]);
    forall h | 0 <= h < |masters| && h != i
      ensures IsUntouched(before, n, tick, masters[h])
    {
    }
  }

  lemma NoneSynced(s: State, t: TaskId, left: set<JobId>)
    requires left == set j | j in s.jobs && s.jobs[j].source == FromTask(t) && s.jobs[j].status == JobRunning
    ensures IsSyncedBut(s, s.jobs, t, left)
  {
  }

  lemma SyncedAll(s: State, jobs: map<JobId, Job>, t: TaskId)
    requires IsSyncedBut(s, jobs, t, {})
    ensures jobs == Synced(s, t).jobs
  {
  }

  lemma SyncOne(s: State, jobs: map<JobId, Job>, t: TaskId, left: set<JobId>, j: JobId)
    requires IsSyncedBut(s, jobs, t, left) && j in left && j in s.jobs && ReturnsAreSound(s.(jobs := jobs))
    requires s.jobs[j].source == FromTask(t) && s.jobs[j].status == JobRunning
    ensures
      var n := s.(jobs := jobs);
      if IsEnabled(n, FinishJob(j)) then
        var n' := Next(n, FinishJob(j));
        n' == s.(jobs := n'.jobs) && ReturnsAreSound(n') && IsSyncedBut(s, n'.jobs, t, left - {j})
      else IsSyncedBut(s, jobs, t, left - {j})
  {
    if !HasWaitingReturn(s.(jobs := jobs), j) {
      StepKeepsReturnsSound(s.(jobs := jobs), FinishJob(j));
    }
    assert HasWaitingReturn(s.(jobs := jobs), j) == HasWaitingReturn(s, j);
  }

  /** Nothing about the task changed on the other master. */
  ghost predicate IsUntouched(s: State, n: State, tick: Tick, master: string) {
    ActiveJobs(n, tick.task, master) == ActiveJobs(s, tick.task, master) && Due(n, tick, master) == Due(s, tick, master)
  }

  /** What the loop over one master has done since `first`. */
  ghost predicate IsProgress(s: State, first: State, n: State, tick: Tick, master: string, active: nat, count: nat) {
    && JobsCoverTaken(s, n, tick) && active == |ActiveJobs(n, tick.task, master)|
    && active <= Larger(|ActiveJobs(first, tick.task, master)|, tick.maxJobs)
    && count + |TakenMinions(s, first, tick.task)| == |TakenMinions(s, n, tick.task)|
    && forall other :: other != master ==> IsUntouched(first, n, tick, other)
  }

  lemma OneJobMore(
    s: State, first: State, n: State, n': State, tick: Tick, master: string,
    j: JobId, minions: set<Minion>, active: nat, count: nat)
    requires IsProgress(s, first, n, tick, master, active, count) && active < tick.maxJobs
    requires IsStarted(n, n', tick, master, j, minions)
    requires minions != {} && IsPick(minions, Due(n, tick, master), tick.batchSize)
    ensures IsProgress(s, first, n', tick, master, active + 1, count + |minions|)
    ensures Due(n', tick, master) == Due(n, tick, master) - minions
  {
    StartCovers(s, n, n', tick, master, j, minions);
    StartCounts(n, n', tick, master, j, minions);
    StartTakes(s, n, n', tick, master, j, minions);
    StartLeavesDue(n, n', tick, master, j, minions);
    forall other | other != master
      ensures IsUntouched(first, n', tick, other)
    {
      assert IsUntouched(first, n, tick, other);
    }
  }

  /** A batch that is not full holds all that was due. */
  lemma PickedAll(n: State, n': State, tick: Tick, master: string, minions: set<Minion>)
    requires IsPick(minions, Due(n, tick, master), tick.batchSize)
    requires |minions| < tick.batchSize || (tick.batchSize == 0 && minions == {})
    requires Due(n', tick, master) == Due(n, tick, master) - minions
    ensures Due(n', tick, master) == {}
  {
  }

  function Statuses(s: State): map<RowKey, Status> {
    map k | k in s.rows :: s.rows[k].status
  }

  /** Updated is what one bulk update of the rows gives. */
  function Updated(
    rows: map<RowKey, Row>, t: TaskId, minions: set<Minion>, from: Status, status: Status): map<RowKey, Row>
  {
    map k | k in rows ::
      if k.task == t && k.minion in minions && rows[k].status == from then WithStatus(rows[k], status) else rows[k]
  }

  function ParkedBy(rows: map<RowKey, Row>, t: TaskId, held: iset<Minion>): map<RowKey, Row> {
    map k | k in rows ::
      if k.task == t && rows[k].status in {Pending, Busy}
      then WithStatus(rows[k], if k.minion in held then Busy else Pending)
      else rows[k]
  }

  lemma ParkInTwo(
    rows: map<RowKey, Row>, rows1: map<RowKey, Row>, rows2: map<RowKey, Row>,
    t: TaskId, busy: set<Minion>, free: set<Minion>, held: iset<Minion>)
    requires rows1 == Updated(rows, t, busy, Pending, Busy)
    requires rows2 == Updated(rows1, t, free, Busy, Pending)
    requires forall k :: k in rows && k.task == t && rows[k].status == Pending ==>
      (k.minion in busy <==> k.minion in held)
    requires forall k :: k in rows1 && k.task == t && rows1[k].status == Busy ==>
      (k.minion in free <==> k.minion !in held)
    ensures rows2 == ParkedBy(rows, t, held)
  {
  }

  lemma ParkedByHeld(s: State, t: TaskId, held: iset<Minion>)
    requires held == iset m | IsHeld(s, t, m)
    ensures ParkedBy(s.rows, t, held) == Parked(s, t)
    ensures PendingAreFree(s.(rows := Parked(s, t)), t)
  {
    var n := s.(rows := Parked(s, t));
    SameHeld(s, n, t);
    assert forall k :: k in s.rows ==> (k.minion in held <==> IsHeld(s, t, k.minion));
  }

  lemma SameHeld(s: State, n: State, t: TaskId)
    requires n == s.(rows := n.rows) && n.rows.Keys == s.rows.Keys
    requires forall k :: k in s.rows && k.task != t ==> n.rows[k] == s.rows[k]
    ensures forall m :: IsHeld(n, t, m) <==> IsHeld(s, t, m)
  {
  }

  /** The rows are taken and given back: nothing but the start time changed. */
  lemma FailedBefore(s: State, n: State, tick: Tick, minions: set<Minion>) returns (steps: seq<Step>)
    requires tick.task in s.tasks && AreTakeable(s, tick.task, minions)
    requires PendingAreFree(s, tick.task) && ReturnsAreSound(s)
    requires n ==
      s.(rows := Updated(Taken(s, tick.task, minions, InWork, tick.now), tick.task, minions, InWork, Pending))
    ensures After(s, steps) == Some(n)
    ensures Statuses(n) == Statuses(s) && PendingAreFree(n, tick.task) && ReturnsAreSound(n)
    ensures forall master :: ActiveJobs(n, tick.task, master) == ActiveJobs(s, tick.task, master)
  {
    var step := StartFails(tick.task, minions, tick.now);
    FailsIsRevert(s, n, tick, minions);
    SingleStep(s, step);
    SameHeld(s, n, tick.task);
    SameStatuses(s, n);
    steps := [step];
  }

  lemma FailsIsRevert(s: State, n: State, tick: Tick, minions: set<Minion>)
    requires tick.task in s.tasks && AreTakeable(s, tick.task, minions)
    requires n ==
      s.(rows := Updated(Taken(s, tick.task, minions, InWork, tick.now), tick.task, minions, InWork, Pending))
    ensures IsEnabled(s, StartFails(tick.task, minions, tick.now))
    ensures Next(s, StartFails(tick.task, minions, tick.now)) == n
    ensures n.rows.Keys == s.rows.Keys && forall k :: k in s.rows ==> n.rows[k].status == s.rows[k].status
    ensures forall k :: k in s.rows && k.task != tick.task ==> n.rows[k] == s.rows[k]
  {
    assert Next(s, StartFails(tick.task, minions, tick.now)).rows == n.rows;
  }

  lemma SameStatuses(s: State, n: State)
    requires n.rows.Keys == s.rows.Keys && forall k :: k in s.rows ==> n.rows[k].status == s.rows[k].status
    ensures Statuses(n) == Statuses(s)
  {
  }

  lemma Launched(s: State, n: State, tick: Tick, master: string, j: JobId, minions: set<Minion>)
    returns (steps: seq<Step>)
    requires tick.task in s.tasks && AreTakeable(s, tick.task, minions) && j !in s.jobs
    requires minions != {} && forall m :: m in minions ==> m.master == master
    requires PendingAreFree(s, tick.task) && ReturnsAreSound(s)
    requires n == s.(
      rows := Taken(s, tick.task, minions, InWork, tick.now),
      jobs := s.jobs[j :=
        Job(FromTask(tick.task), master, s.tasks[tick.task].isStateApply, minions, JobStarting, tick.now, tick.ttl)])
    ensures steps == [Start(tick.task, j, master, minions, tick.now, tick.ttl)] && After(s, steps) == Some(n)
    ensures IsStarted(s, n, tick, master, j, minions) && PendingAreFree(n, tick.task) && ReturnsAreSound(n)
  {
    var step := Start(tick.task, j, master, minions, tick.now, tick.ttl);
    StartIsStarted(s, tick, master, j, minions);
    StepKeepsReturnsSound(s, step);
    SingleStep(s, step);
    StartKeepsFree(s, n, tick, master, j, minions);
    steps := [step];
  }

  lemma FailedAfter(s: State, s1: State, n: State, tick: Tick, master: string, j: JobId, minions: set<Minion>)
    returns (steps: seq<Step>)
    requires AreTakeable(s, tick.task, minions) && PendingAreFree(s, tick.task) && ReturnsAreSound(s)
    requires After(s, [Start(tick.task, j, master, minions, tick.now, tick.ttl)]) == Some(s1)
    requires IsStarted(s, s1, tick, master, j, minions) && ReturnsAreSound(s1)
    requires n == s1.(rows := Updated(s1.rows, tick.task, minions, InWork, Pending))
    ensures After(s, steps) == Some(n)
    ensures ReturnsAreSound(n) && PendingAreFree(n, tick.task) && Statuses(n) == Statuses(s)
    ensures |ActiveJobs(n, tick.task, master)| == |ActiveJobs(s, tick.task, master)| + 1
  {
    StartCounts(s, s1, tick, master, j, minions);
    assert ActiveJobs(n, tick.task, master) == ActiveJobs(s1, tick.task, master);
    var first, second := Start(tick.task, j, master, minions, tick.now, tick.ttl), Revert(j);
    RevertUndoes(s, s1, n, tick, master, j, minions);
    SingleStep(s1, second);
    RunsAppend(s, [first], [second]);
    StepKeepsReturnsSound(s1, second);
    SameHeld(s1, n, tick.task);
    StartKeepsHeld(s, s1, tick, master, j, minions);
    RevertedStatuses(s, s1, n, tick, master, j, minions);
    assert forall k :: k in n.rows && n.rows[k].status == Pending ==> Statuses(n)[k] == Pending == Statuses(s)[k];
    steps := [first] + [second];
  }

  lemma RevertUndoes(s: State, s1: State, n: State, tick: Tick, master: string, j: JobId, minions: set<Minion>)
    requires AreTakeable(s, tick.task, minions) && IsStarted(s, s1, tick, master, j, minions)
    requires n == s1.(rows := Updated(s1.rows, tick.task, minions, InWork, Pending))
    ensures IsEnabled(s1, Revert(j)) && Next(s1, Revert(j)) == n
  {
    assert s1.jobs[j].source.task == tick.task && s1.jobs[j].targets == minions;
    assert Next(s1, Revert(j)).rows == n.rows;
  }

  lemma RevertedStatuses(s: State, s1: State, n: State, tick: Tick, master: string, j: JobId, minions: set<Minion>)
    requires AreTakeable(s, tick.task, minions) && IsStarted(s, s1, tick, master, j, minions)
    requires n.rows == Updated(s1.rows, tick.task, minions, InWork, Pending)
    ensures Statuses(n) == Statuses(s)
  {
    forall k | k in s.rows
      ensures n.rows[k].status == s.rows[k].status
    {
      if k.task == tick.task && k.minion in minions {
        assert RowKey(tick.task, k.minion) == k;
      }
    }
  }
}
