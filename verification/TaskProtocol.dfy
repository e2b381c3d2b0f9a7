/**
 The records shared by tasks, task minions, jobs and job returns, and the steps the actors take on them:
 the tasks watcher, the jobs watcher, Salt events, queued job-return processing and operators
 (saltbox_core/tasks, saltbox_core/jobs, saltbox_core/salt/handlers).
 Each step is one atomic guarded update.
 */
module TaskProtocol {
  import opened Wrappers
  import opened TaskStatuses

  type TaskId = nat
  type JobId = nat

  /** A minion is known by its master and its id. */
  datatype Minion = Minion(master: string, id: string)

  datatype Task = Task(maxRetries: nat, isStateApply: bool)

  datatype RowKey = RowKey(task: TaskId, minion: Minion)

  /** A task minion. */
  datatype Row = Row(status: Status, startedAt: Option<int>)

  datatype Source = NoSource | FromTask(task: TaskId) | FromPing(task: TaskId)

  datatype Job = Job(
    source: Source, master: string, isStateApply: bool, targets: set<Minion>, status: JobStatus, created: int, ttl: int)

  datatype ReturnKey = ReturnKey(job: JobId, minion: Minion)

  /** A job return; without a ttl of its own it expires with its job. */
  datatype Return = Return(status: ReturnStatus, retcode: Option<int>, ttl: Option<int>)

  datatype State = State(
    tasks: map<TaskId, Task>,
    rows: map<RowKey, Row>,
    jobs: map<JobId, Job>,
    jobReturns: map<ReturnKey, Return>)

  // ---------- derived fields ----------

  /** The jobs of the task that target the minion. */
  function JobsOf(s: State, k: RowKey): set<JobId> {
    set j | j in s.jobs && s.jobs[j].source == FromTask(k.task) && k.minion in s.jobs[j].targets
  }

  /** The jobs of the task for which the minion has a return record: `count_runs` is their number. */
  function RecordedRuns(s: State, k: RowKey): set<JobId> {
    set r |
      r in s.jobReturns && r.minion == k.minion && r.job in s.jobs && s.jobs[r.job].source == FromTask(k.task) :: r.job
  }

  function CountRuns(s: State, k: RowKey): nat {
    |RecordedRuns(s, k)|
  }

  predicate HasWaitingReturn(s: State, j: JobId) {
    exists r :: r in s.jobReturns && r.job == j && s.jobReturns[r].status == ReturnWaiting
  }

  /** `unfinished_job_returns_count` is not zero. */
  predicate HasUnfinishedReturn(s: State, k: RowKey) {
    exists r :: r in s.jobReturns && r.minion == k.minion && r.job in s.jobs
      && s.jobs[r.job].source == FromTask(k.task) && s.jobReturns[r].status == ReturnWaiting
  }

  /** get_busy_minions_by_tgt: another task works on the minion, or a state.apply is still running on it. */
  predicate IsHeld(s: State, t: TaskId, m: Minion) {
    || (exists k :: k in s.rows && k.minion == m && k.task != t && s.rows[k].status == InWork)
    || (t in s.tasks && s.tasks[t].isStateApply &&
        exists r :: r in s.jobReturns && r.minion == m && r.job in s.jobs && s.jobs[r.job].isStateApply
          && s.jobReturns[r].status == ReturnWaiting)
  }

  // ---------- steps ----------

  datatype Step =
    | Fill(k: RowKey)
    | Recheck(k: RowKey, status: Status)
    | Park(task: TaskId)
    | Start(task: TaskId, job: JobId, master: string, targets: set<Minion>, now: int, ttl: int)
    | StartFails(task: TaskId, targets: set<Minion>, now: int)
    | Revert(job: JobId)
    | CreateJob(job: JobId, record: Job)
    | NewJob(job: JobId, minions: set<Minion>, missing: set<Minion>)
    | ForeignJob(job: JobId, record: Job, minions: set<Minion>, missing: set<Minion>)
    | Returned(job: JobId, minion: Minion, retcode: Option<int>)
    | TaskReturn(job: JobId, minion: Minion)
    | TimeOut(job: JobId, minion: Minion)
    | FinishJob(job: JobId)
    | LaunchError(job: JobId)
    | TaskError(job: JobId)
    | Release(k: RowKey)
    | Restart(task: TaskId, minions: set<Minion>)
    | StopTask(task: TaskId)
    | SetJobTtl(job: JobId, ttl: int)
    | SetReturnTtl(job: JobId, minions: set<Minion>, ownTtl: Option<int>)

  predicate IsCandidate(status: Status) {
    status in {Pending, Blocked, Unreachable}
  }

  predicate IsEnabled(s: State, step: Step) {
    match step
    case Fill(k) => k !in s.rows
    case Recheck(k, status) => k in s.rows && IsCandidate(s.rows[k].status) && IsCandidate(status)
    case Park(t) => t in s.tasks
    // create_job follows check_busy_task_minions in the same tick, so a pending minion is not held
    case Start(t, j, master, targets, _, _) =>
      && t in s.tasks && j !in s.jobs && AreTakeable(s, t, targets)
      && targets != {} && forall m :: m in targets ==> m.master == master
    case StartFails(t, targets, _) => t in s.tasks && AreTakeable(s, t, targets)
    case Revert(j) =>
      && j in s.jobs && s.jobs[j].source.FromTask? && s.jobs[j].status == JobStarting
      && forall m :: m in s.jobs[j].targets ==>
           RowKey(s.jobs[j].source.task, m) in s.rows && s.rows[RowKey(s.jobs[j].source.task, m)].status == InWork
    case CreateJob(j, record) => j !in s.jobs && record.status == JobStarting && !record.source.FromTask?
    // a jid gets at most one new-job event, before any other event for it
    case NewJob(j, minions, missing) => j in s.jobs && s.jobs[j].status == JobStarting
    case ForeignJob(j, record, _, _) => j !in s.jobs && record.status == JobRunning && record.source == NoSource
    case Returned(j, m, _) => j in s.jobs && ReturnKey(j, m) in s.jobReturns
    // the message is queued by a return event and may come late or more than once
    case TaskReturn(j, m) =>
      && j in s.jobs && s.jobs[j].source.FromTask? && s.jobs[j].source.task in s.tasks
      && RowKey(s.jobs[j].source.task, m) in s.rows
      && ReturnKey(j, m) in s.jobReturns && s.jobReturns[ReturnKey(j, m)].status in {ReturnSuccess, ReturnFailed}
    case TimeOut(j, m) =>
      j in s.jobs && ReturnKey(j, m) in s.jobReturns && s.jobReturns[ReturnKey(j, m)].status == ReturnWaiting
    case FinishJob(j) => j in s.jobs && s.jobs[j].status == JobRunning && !HasWaitingReturn(s, j)
    case LaunchError(j) => j in s.jobs
    case TaskError(j) =>
      && j in s.jobs && s.jobs[j].status == JobLaunchError
      && s.jobs[j].source != NoSource && s.jobs[j].source.task in s.tasks
    case Release(k) => k in s.rows && s.rows[k].status == InWork && !HasUnfinishedReturn(s, k)
    case Restart(t, _) => t in s.tasks
    case StopTask(t) => t in s.tasks
    case SetJobTtl(j, _) => j in s.jobs
    case SetReturnTtl(j, _, _) => j in s.jobs
  }

  /** create_job takes pending minions of the task, which the same tick has found free. */
  predicate AreTakeable(s: State, t: TaskId, targets: set<Minion>) {
    forall m :: m in targets ==>
      RowKey(t, m) in s.rows && s.rows[RowKey(t, m)].status == Pending && !IsHeld(s, t, m)
  }

  function WithStatus(row: Row, status: Status): Row {
    row.(status := status)
  }

  /** check_busy_task_minions: first park what is held, then free what no longer is. */
  function Parked(s: State, t: TaskId): map<RowKey, Row> {
    map k | k in s.rows ::
      if k.task == t && s.rows[k].status in {Pending, Busy}
      then WithStatus(s.rows[k], if IsHeld(s, t, k.minion) then Busy else Pending)
      else s.rows[k]
  }

  function Taken(s: State, t: TaskId, targets: set<Minion>, status: Status, now: int): map<RowKey, Row> {
    map k | k in s.rows ::
      if k.task == t && k.minion in targets then Row(status, Some(now)) else s.rows[k]
  }

  function SetAll(s: State, t: TaskId, minions: set<Minion>, status: Status): map<RowKey, Row> {
    map k | k in s.rows ::
      if k.task == t && k.minion in minions then WithStatus(s.rows[k], status) else s.rows[k]
  }

  /** Whether a run that did not succeed is tried again. */
  function AfterFailure(s: State, k: RowKey, maxRetries: nat): Status {
    if CountRuns(s, k) >= maxRetries then Failed else Pending
  }

  function Announced(s: State, j: JobId, minions: set<Minion>, missing: set<Minion>): map<ReturnKey, Return> {
    s.jobReturns +
    (map m | m in minions :: ReturnKey(j, m) := Return(ReturnWaiting, None, None)) +
    (map m | m in missing - minions :: ReturnKey(j, m) := Return(ReturnIgnored, None, None))
  }

  function FinishIfDone(s: State, j: JobId): State
    requires j in s.jobs
  {
    if s.jobs[j].status == JobRunning && !HasWaitingReturn(s, j)
    then s.(jobs := s.jobs[j := s.jobs[j].(status := JobFinished)])
    else s
  }

  /** _update_job_return_object: only a return without a retcode is filled in. */
  function Recorded(r: Return, retcode: Option<int>): Return {
    if r.retcode.Some? then r
    else r.(status := if retcode == Some(0) then ReturnSuccess else ReturnFailed, retcode := retcode)
  }

  function Next(s: State, step: Step): State
    requires IsEnabled(s, step)
  {
    match step
    case Fill(k) => s.(rows := s.rows[k := Row(Pending, None)])
    case Recheck(k, status) => s.(rows := s.rows[k := WithStatus(s.rows[k], status)])
    case Park(t) => s.(rows := Parked(s, t))
    case Start(t, j, master, targets, now, ttl) =>
      s.(rows := Taken(s, t, targets, InWork, now),
         jobs := s.jobs[j := Job(FromTask(t), master, s.tasks[t].isStateApply, targets, JobStarting, now, ttl)])
    case StartFails(t, targets, now) => s.(rows := Taken(s, t, targets, Pending, now))
    case Revert(j) => s.(rows := SetAll(s, s.jobs[j].source.task, s.jobs[j].targets, Pending))
    case CreateJob(j, record) => s.(jobs := s.jobs[j := record])
    case NewJob(j, minions, missing) =>
      s.(jobs := s.jobs[j := s.jobs[j].(status := JobRunning)], jobReturns := Announced(s, j, minions, missing))
    case ForeignJob(j, record, minions, missing) =>
      s.(jobs := s.jobs[j := record], jobReturns := Announced(s, j, minions, missing))
    case Returned(j, m, retcode) =>
      var r := ReturnKey(j, m);
      FinishIfDone(s.(jobReturns := s.jobReturns[r := Recorded(s.jobReturns[r], retcode)]), j)
    case TaskReturn(j, m) =>
      var k := RowKey(s.jobs[j].source.task, m);
      var ok := s.jobReturns[ReturnKey(j, m)].retcode == Some(0);
      s.(rows := s.rows[k := WithStatus(s.rows[k],
           if ok then Success else AfterFailure(s, k, s.tasks[k.task].maxRetries))])
    case TimeOut(j, m) => TimedOut(s, j, m)
    case FinishJob(j) => FinishIfDone(s, j)
    case LaunchError(j) => s.(jobs := s.jobs[j := s.jobs[j].(status := JobLaunchError)])
    case TaskError(j) => s.(rows := SetAll(s, s.jobs[j].source.task, s.jobs[j].targets, Failed))
    case Release(k) =>
      // a task that is gone counts as one without retries
      s.(rows := s.rows[k := WithStatus(s.rows[k],
           AfterFailure(s, k, if k.task in s.tasks then s.tasks[k.task].maxRetries else 0))])
    case Restart(t, minions) => s.(rows := SetAll(s, t, minions, Pending))
    case StopTask(t) =>
      s.(rows := map k | k in s.rows ::
           if k.task == t && s.rows[k].status == Busy then WithStatus(s.rows[k], Pending) else s.rows[k])
    case SetJobTtl(j, ttl) => s.(jobs := s.jobs[j := s.jobs[j].(ttl := ttl)])
    case SetReturnTtl(j, minions, ttl) =>
      s.(jobReturns := map r | r in s.jobReturns ::
           if r.job == j && r.minion in minions then s.jobReturns[r].(ttl := ttl) else s.jobReturns[r])
  }

  /** timeout_job_return: the return, then the row of its task unless that is pending already. */
  function TimedOut(s: State, j: JobId, m: Minion): State
    requires j in s.jobs && ReturnKey(j, m) in s.jobReturns
  {
    var r := ReturnKey(j, m);
    var s1 := s.(jobReturns := s.jobReturns[r := s.jobReturns[r].(status := ReturnTimeout)]);
    if s.jobs[j].source.FromTask? && s.jobs[j].source.task in s.tasks then
      var k := RowKey(s.jobs[j].source.task, m);
      if k in s.rows && s.rows[k].status != Pending then
        s1.(rows := s.rows[k := WithStatus(s.rows[k], AfterFailure(s, k, s.tasks[k.task].maxRetries))])
      else s1
    else s1
  }

  // ---------- runs ----------

  function After(s: State, steps: seq<Step>): Option<State> {
    if steps == [] then Some(s)
    else
      match After(s, steps[..|steps| - 1])
      case None => None
      case Some(before) =>
        if IsEnabled(before, steps[|steps| - 1]) then Some(Next(before, steps[|steps| - 1])) else None
  }

  /** Nothing has run yet. */
  predicate IsInitial(s: State) {
    s.jobs == map[] && s.jobReturns == map[] && forall k :: k in s.rows ==> s.rows[k].status == Pending
  }
}
