/** What happens to the stored records is, seen from one minion, what happens to its queue of policies. */
module TaskQueueRuns {
  import opened Wrappers
  import opened Sequences
  import opened TaskStatuses
  import opened TaskProtocol
  import opened TaskSafety
  import opened TaskScheduling
  import opened TaskScheduler
  import opened TaskQueue
  import PolicyOrdering
  import PolicyQueue
  import PolicyLateness
  import PolicySchedule

  // ---------- what the queue is read from ----------

  ghost predicate DistinctTasks(slots: Slots) {
    forall i, j :: 0 <= i < j < |slots| ==> slots[i].task != slots[j].task
  }

  /** Minions answer only for jobs that target them. */
  ghost predicate TargetsAnswer(s: State) {
    forall r :: r in s.jobReturns && r.job in s.jobs && s.jobs[r.job].source.FromTask? ==>
      r.minion in s.jobs[r.job].targets
  }

  /** Everything the queue shows of a policy is as it was. */
  ghost predicate IsSameRow(s: State, n: State, k: RowKey) {
    && k in s.rows && k in n.rows && n.rows[k].status == s.rows[k].status
    && |JobsOf(n, k)| == |JobsOf(s, k)| && CountRuns(n, k) == CountRuns(s, k) && (IsPinged(n, k) <==> IsPinged(s, k))
  }

  /** A change of one policy only is a change at one place of the queue. */
  lemma OnePlaceChanges(s: State, n: State, slots: Slots, m: Minion, i: nat)
    requires HasRows(s, slots, m) && HasRows(n, slots, m) && n.tasks == s.tasks && DistinctTasks(slots) && i < |slots|
    requires forall slot :: slot in slots && slot.task != slots[i].task ==> IsSameRow(s, n, RowKey(slot.task, m))
    ensures QueueIn(n, slots, m) == QueueIn(s, slots, m)[i := PolicyIn(n, slots[i], m)]
  {
    forall j | 0 <= j < |slots| && j != i
      ensures PolicyIn(n, slots[j], m) == PolicyIn(s, slots[j], m)
    {
      assert slots[j] in slots && slots[j].task != slots[i].task;
      assert IsSameRow(s, n, RowKey(slots[j].task, m));
    }
  }

  lemma NothingChanges(s: State, n: State, slots: Slots, m: Minion)
    requires HasRows(s, slots, m) && HasRows(n, slots, m) && n.tasks == s.tasks
    requires forall slot :: slot in slots ==> IsSameRow(s, n, RowKey(slot.task, m))
    ensures QueueIn(n, slots, m) == QueueIn(s, slots, m)
  {
    forall j | 0 <= j < |slots|
      ensures PolicyIn(n, slots[j], m) == PolicyIn(s, slots[j], m)
    {
      assert slots[j] in slots;
      assert IsSameRow(s, n, RowKey(slots[j].task, m));
    }
  }

  /** The policy of a task stands at its slot. */
  lemma FoundInQueue(s: State, slots: Slots, m: Minion, i: nat)
    requires HasRows(s, slots, m) && DistinctTasks(slots) && i < |slots|
    ensures PolicyQueue.IndexOf(QueueIn(s, slots, m), slots[i].task) == Some(i)
  {
    var queue := QueueIn(s, slots, m);
    assert queue[i] in queue && queue[i].id == slots[i].task;
  }

  lemma NotInQueue(s: State, slots: Slots, m: Minion, t: TaskId)
    requires HasRows(s, slots, m) && forall slot :: slot in slots ==> slot.task != t
    ensures PolicyQueue.IndexOf(QueueIn(s, slots, m), t) == None
  {
    var queue := QueueIn(s, slots, m);
    forall p | p in queue
      ensures p.id != t
    {
      var i :| 0 <= i < |queue| && queue[i] == p;
      assert slots[i] in slots;
    }
  }

  /** One row changes and becomes what the step makes of its policy: so does the queue. */
  lemma QueueSteps(s: State, n: State, slots: Slots, m: Minion, step: PolicyQueue.Step)
    requires HasRows(s, slots, m) && HasRows(n, slots, m) && n.tasks == s.tasks && DistinctTasks(slots)
    requires forall slot :: slot in slots && slot.task != step.id ==> IsSameRow(s, n, RowKey(slot.task, m))
    requires forall i :: 0 <= i < |slots| && slots[i].task == step.id ==>
      PolicyIn(n, slots[i], m) == PolicyQueue.Stepped(QueueIn(s, slots, m), step, i)
    ensures QueueIn(n, slots, m) == PolicyQueue.AfterStep(QueueIn(s, slots, m), step)
  {
    if i :| 0 <= i < |slots| && slots[i].task == step.id {
      FoundInQueue(s, slots, m, i);
      OnePlaceChanges(s, n, slots, m, i);
    } else {
      forall slot | slot in slots
        ensures slot.task != step.id
      {
        var i :| 0 <= i < |slots| && slots[i] == slot;
      }
      NotInQueue(s, slots, m, step.id);
      NothingChanges(s, n, slots, m);
    }
  }

  // ---------- single steps ----------

  /** The same jobs, for the same tasks and minions, with the same return records. */
  ghost predicate SameRecords(s: State, n: State) {
    && n.jobs.Keys == s.jobs.Keys && n.jobReturns.Keys == s.jobReturns.Keys
    && forall j :: j in s.jobs ==> n.jobs[j].source == s.jobs[j].source && n.jobs[j].targets == s.jobs[j].targets
  }

  lemma SameCounts(s: State, n: State, k: RowKey)
    requires SameRecords(s, n)
    ensures JobsOf(n, k) == JobsOf(s, k) && RecordedRuns(n, k) == RecordedRuns(s, k)
    ensures IsPinged(n, k) <==> IsPinged(s, k)
  {
    assert forall j :: j in JobsOf(n, k) <==> j in JobsOf(s, k);
    assert forall r :: r in n.jobReturns <==> r in s.jobReturns;
    RecordedBySame(s, n, k);
  }

  lemma RecordedBySame(s: State, n: State, k: RowKey)
    requires SameRecords(s, n)
    ensures RecordedRuns(n, k) == RecordedRuns(s, k)
  {
    forall j
      ensures j in RecordedRuns(n, k) <==> j in RecordedRuns(s, k)
    {
      RecordedByReturn(s, k, j);
      RecordedByReturn(n, k, j);
    }
  }

  lemma RecordedByReturn(s: State, k: RowKey, j: JobId)
    ensures j in RecordedRuns(s, k) <==>
      ReturnKey(j, k.minion) in s.jobReturns && j in s.jobs && s.jobs[j].source == FromTask(k.task)
  {
    if j in RecordedRuns(s, k) {
      var r :| r in s.jobReturns && r.minion == k.minion && r.job == j;
      assert r == ReturnKey(j, k.minion);
    }
    if ReturnKey(j, k.minion) in s.jobReturns && j in s.jobs && s.jobs[j].source == FromTask(k.task) {
      var r := ReturnKey(j, k.minion);
      assert r.minion == k.minion && r.job == j;
    }
  }

  lemma RecordedAreJobs(s: State, k: RowKey)
    requires TargetsAnswer(s)
    ensures RecordedRuns(s, k) <= JobsOf(s, k) && CountRuns(s, k) <= |JobsOf(s, k)|
  {
    forall j | j in RecordedRuns(s, k)
      ensures j in JobsOf(s, k)
    {
      RecordedByReturn(s, k, j);
    }
    SubsetCount(RecordedRuns(s, k), JobsOf(s, k));
  }

  lemma SubsetCount(a: set<JobId>, b: set<JobId>)
    requires a <= b
    ensures |a| <= |b| && (|a| == |b| ==> a == b)
  {
    assert b == a + (b - a);
  }

  /** A step that only writes rows, and none of the minion's other than one. */
  lemma RowStep(s: State, n: State, slots: Slots, m: Minion, step: PolicyQueue.Step)
    requires HasRows(s, slots, m) && DistinctTasks(slots) && n.tasks == s.tasks && SameRecords(s, n)
    requires n.rows.Keys == s.rows.Keys
    requires forall k :: k in s.rows && k.minion == m && k.task != step.id ==> n.rows[k].status == s.rows[k].status
    requires forall i :: 0 <= i < |slots| && slots[i].task == step.id ==>
      PolicyIn(s, slots[i], m).(status := n.rows[RowKey(slots[i].task, m)].status)
        == PolicyQueue.Stepped(QueueIn(s, slots, m), step, i)
    ensures HasRows(n, slots, m)
    ensures QueueIn(n, slots, m) == PolicyQueue.AfterStep(QueueIn(s, slots, m), step)
  {
    forall slot | slot in slots
      ensures HasRow(n, slot, m)
      ensures slot.task != step.id ==> IsSameRow(s, n, RowKey(slot.task, m))
    {
      assert HasRow(s, slot, m);
      SameCounts(s, n, RowKey(slot.task, m));
    }
    forall i | 0 <= i < |slots| && slots[i].task == step.id
      ensures PolicyIn(n, slots[i], m) == PolicyQueue.Stepped(QueueIn(s, slots, m), step, i)
    {
      assert slots[i] in slots;
      SameCounts(s, n, RowKey(slots[i].task, m));
    }
    QueueSteps(s, n, slots, m, step);
  }

  lemma SlotRows(s: State, slots: Slots, m: Minion)
    requires HasRows(s, slots, m)
    ensures forall i :: 0 <= i < |slots| ==> HasRow(s, slots[i], m)
  {
    forall i | 0 <= i < |slots|
      ensures HasRow(s, slots[i], m)
    {
      assert slots[i] in slots;
    }
  }

  /** A step that writes no status of the minion. */
  lemma QuietStep(s: State, n: State, slots: Slots, m: Minion)
    requires HasRows(s, slots, m) && n.tasks == s.tasks && SameRecords(s, n) && s.rows.Keys <= n.rows.Keys
    requires forall k :: k in s.rows && k.minion == m ==> n.rows[k].status == s.rows[k].status
    ensures HasRows(n, slots, m) && QueueIn(n, slots, m) == QueueIn(s, slots, m)
  {
    forall slot | slot in slots
      ensures HasRow(n, slot, m) && IsSameRow(s, n, RowKey(slot.task, m))
    {
      assert HasRow(s, slot, m);
      SameCounts(s, n, RowKey(slot.task, m));
    }
    NothingChanges(s, n, slots, m);
  }

  // ---------- events ----------

  predicate IsSlotTask(slots: Slots, t: TaskId) {
    exists slot :: slot in slots && slot.task == t
  }

  /**
   What can happen beside the ticks: no restart and no stop of a policy of the queue, and new-job events that name only
   targeted minions. The pings of a tick belong to the tick.
   */
  ghost predicate IsEvent(s: State, step: Step, slots: Slots, m: Minion)
    requires HasRows(s, slots, m)
  {
    match step
    case NewJob(j, minions, missing) =>
      j in s.jobs && (s.jobs[j].source.FromTask? ==> minions + missing <= s.jobs[j].targets)
    case CreateJob(_, record) =>
      record.source.FromPing? && m in record.targets ==> !IsSlotTask(slots, record.source.task)
    case Restart(t, minions) => !IsSlotTask(slots, t) || m !in minions
    case StopTask(t) => !IsSlotTask(slots, t)
    case Recheck(k, _) => !IsSlotTask(slots, k.task) || k.minion != m
    case Park(t) => !IsSlotTask(slots, t)
    case Start(_, _, _, _, _, _) => false
    case _ => true
  }

  /** What the step is to the queue of the minion, if anything. */
  function QueueStep(s: State, step: Step, m: Minion): Option<PolicyQueue.Step>
    requires IsEnabled(s, step)
  {
    match step
    case NewJob(j, minions, missing) =>
      if s.jobs[j].source.FromTask? && m in minions + missing
      then Some(PolicyQueue.Announce(s.jobs[j].source.task)) else None
    case TaskReturn(j, o) =>
      if o == m then
        Some(PolicyQueue.Return(s.jobs[j].source.task, s.jobReturns[ReturnKey(j, m)].retcode == Some(0)))
      else None
    case TimeOut(j, o) =>
      if o == m && s.jobs[j].source.FromTask? then Some(PolicyQueue.TimeOut(s.jobs[j].source.task)) else None
    case TaskError(j) => if m in s.jobs[j].targets then Some(PolicyQueue.Error(s.jobs[j].source.task)) else None
    case Release(k) => if k.minion == m then Some(PolicyQueue.Release(k.task)) else None
    case Revert(j) => if m in s.jobs[j].targets then Some(PolicyQueue.Revert(s.jobs[j].source.task)) else None
    case _ => None
  }

  function AfterMaybe(queue: seq<PolicyQueue.Policy>, step: Option<PolicyQueue.Step>): seq<PolicyQueue.Policy> {
    match step case None => queue case Some(q) => PolicyQueue.AfterStep(queue, q)
  }

  /** What the projections rely on. */
  ghost predicate IsReadable(s: State, slots: Slots, m: Minion) {
    HasRows(s, slots, m) && DistinctTasks(slots) && TargetsAnswer(s) && ReturnsAreSound(s)
  }

  lemma ReturnIsQueueStep(s: State, j: JobId, o: Minion, slots: Slots, m: Minion)
    requires IsReadable(s, slots, m) && IsEnabled(s, TaskReturn(j, o))
    ensures var n := Next(s, TaskReturn(j, o));
            && HasRows(n, slots, m)
            && QueueIn(n, slots, m) == AfterMaybe(QueueIn(s, slots, m), QueueStep(s, TaskReturn(j, o), m))
  {
    var n := Next(s, TaskReturn(j, o));
    if o == m {
      RecordedByReturn(s, RowKey(s.jobs[j].source.task, m), j);
      RowStep(s, n, slots, m, QueueStep(s, TaskReturn(j, o), m).value);
    } else {
      QuietStep(s, n, slots, m);
    }
  }

  lemma ErrorIsQueueStep(s: State, j: JobId, slots: Slots, m: Minion)
    requires IsReadable(s, slots, m) && IsEnabled(s, TaskError(j))
    ensures var n := Next(s, TaskError(j));
            && HasRows(n, slots, m)
            && QueueIn(n, slots, m) == AfterMaybe(QueueIn(s, slots, m), QueueStep(s, TaskError(j), m))
  {
    var n := Next(s, TaskError(j));
    if m in s.jobs[j].targets {
      var k := RowKey(s.jobs[j].source.task, m);
      assert s.jobs[j].source.FromTask? ==> j in JobsOf(s, k) && JobsOf(s, k) != {};
      assert s.jobs[j].source.FromPing? ==> IsPinged(s, k);
      SlotRows(s, slots, m);
      RowStep(s, n, slots, m, QueueStep(s, TaskError(j), m).value);
    } else {
      QuietStep(s, n, slots, m);
    }
  }

  lemma ReleaseIsQueueStep(s: State, k: RowKey, slots: Slots, m: Minion)
    requires IsReadable(s, slots, m) && IsEnabled(s, Release(k))
    ensures var n := Next(s, Release(k));
            && HasRows(n, slots, m)
            && QueueIn(n, slots, m) == AfterMaybe(QueueIn(s, slots, m), QueueStep(s, Release(k), m))
  {
    var n := Next(s, Release(k));
    if k.minion == m {
      SlotRows(s, slots, m);
      RowStep(s, n, slots, m, QueueStep(s, Release(k), m).value);
    } else {
      QuietStep(s, n, slots, m);
    }
  }

  lemma RevertIsQueueStep(s: State, j: JobId, slots: Slots, m: Minion)
    requires IsReadable(s, slots, m) && IsEnabled(s, Revert(j))
    ensures var n := Next(s, Revert(j));
            && HasRows(n, slots, m)
            && QueueIn(n, slots, m) == AfterMaybe(QueueIn(s, slots, m), QueueStep(s, Revert(j), m))
  {
    var n := Next(s, Revert(j));
    if m in s.jobs[j].targets {
      var k := RowKey(s.jobs[j].source.task, m);
      UnannouncedIsUncounted(s, j, k);
      RowStep(s, n, slots, m, QueueStep(s, Revert(j), m).value);
    } else {
      QuietStep(s, n, slots, m);
    }
  }

  /** A job that was not announced leaves more jobs than return records. */
  lemma UnannouncedIsUncounted(s: State, j: JobId, k: RowKey)
    requires TargetsAnswer(s) && ReturnsAreSound(s)
    requires j in s.jobs && s.jobs[j].status == JobStarting
    requires s.jobs[j].source == FromTask(k.task) && k.minion in s.jobs[j].targets
    ensures j in JobsOf(s, k) && j !in RecordedRuns(s, k) && CountRuns(s, k) < |JobsOf(s, k)|
  {
    RecordedAreJobs(s, k);
    RecordedByReturn(s, k, j);
    SubsetCount(RecordedRuns(s, k), JobsOf(s, k));
  }

  lemma TimeOutIsQueueStep(s: State, j: JobId, o: Minion, slots: Slots, m: Minion)
    requires IsReadable(s, slots, m) && IsEnabled(s, TimeOut(j, o))
    ensures var n := Next(s, TimeOut(j, o));
            && HasRows(n, slots, m)
            && QueueIn(n, slots, m) == AfterMaybe(QueueIn(s, slots, m), QueueStep(s, TimeOut(j, o), m))
  {
    var n := Next(s, TimeOut(j, o));
    TimeOutRecords(s, j, o);
    if o == m && s.jobs[j].source.FromTask? {
      var step := PolicyQueue.TimeOut(s.jobs[j].source.task);
      SlotRows(s, slots, m);
      forall i | 0 <= i < |slots| && slots[i].task == step.id
        ensures PolicyIn(s, slots[i], m).(status := n.rows[RowKey(slots[i].task, m)].status)
          == PolicyQueue.Stepped(QueueIn(s, slots, m), step, i)
      {
        TimeOutAtRow(s, j, slots[i], m);
      }
      RowStep(s, n, slots, m, step);
    } else {
      QuietStep(s, n, slots, m);
    }
  }

  lemma TimeOutAtRow(s: State, j: JobId, slot: Slot, m: Minion)
    requires HasRow(s, slot, m) && IsEnabled(s, TimeOut(j, m)) && s.jobs[j].source == FromTask(slot.task)
    ensures
      var p := PolicyIn(s, slot, m);
      && p.counted > 0
      && p.(status := TimedOut(s, j, m).rows[RowKey(slot.task, m)].status) ==
           if p.status == Pending then p else PolicyQueue.Retried(p)
  {
    RecordedByReturn(s, RowKey(slot.task, m), j);
  }

  lemma TimeOutRecords(s: State, j: JobId, o: Minion)
    requires IsEnabled(s, TimeOut(j, o))
    ensures var n := TimedOut(s, j, o);
            && n.tasks == s.tasks && SameRecords(s, n) && n.rows.Keys == s.rows.Keys
            && forall k :: k in s.rows && (k.minion != o || s.jobs[j].source != FromTask(k.task)) ==>
                 n.rows[k] == s.rows[k]
  {
  }

  /** The new-job event adds return records for one job. */
  lemma NewJobIsQueueStep(s: State, j: JobId, minions: set<Minion>, missing: set<Minion>, slots: Slots, m: Minion)
    requires IsReadable(s, slots, m) && IsEnabled(s, NewJob(j, minions, missing))
    requires IsEvent(s, NewJob(j, minions, missing), slots, m)
    ensures var n := Next(s, NewJob(j, minions, missing));
            && HasRows(n, slots, m)
            && QueueIn(n, slots, m) == AfterMaybe(QueueIn(s, slots, m), QueueStep(s, NewJob(j, minions, missing), m))
  {
    var n := Next(s, NewJob(j, minions, missing));
    assert n.rows == s.rows && n.tasks == s.tasks;
    SlotRows(s, slots, m);
    forall slot | slot in slots && !(s.jobs[j].source == FromTask(slot.task) && m in minions + missing)
      ensures IsSameRow(s, n, RowKey(slot.task, m))
    {
      assert HasRow(s, slot, m);
      NewJobCounts(s, n, j, minions, missing, RowKey(slot.task, m));
    }
    if s.jobs[j].source.FromTask? && m in minions + missing {
      var step := PolicyQueue.Announce(s.jobs[j].source.task);
      forall i | 0 <= i < |slots| && slots[i].task == step.id
        ensures PolicyIn(n, slots[i], m) == PolicyQueue.Stepped(QueueIn(s, slots, m), step, i)
      {
        NewJobCounts(s, n, j, minions, missing, RowKey(slots[i].task, m));
      }
      QueueSteps(s, n, slots, m, step);
    } else {
      NothingChanges(s, n, slots, m);
    }
  }

  lemma NewJobCounts(s: State, n: State, j: JobId, minions: set<Minion>, missing: set<Minion>, k: RowKey)
    requires TargetsAnswer(s) && ReturnsAreSound(s) && IsEnabled(s, NewJob(j, minions, missing))
    requires n == Next(s, NewJob(j, minions, missing))
    requires s.jobs[j].source.FromTask? ==> minions + missing <= s.jobs[j].targets
    ensures JobsOf(n, k) == JobsOf(s, k) && (IsPinged(n, k) <==> IsPinged(s, k))
    ensures
      var isAnnounced := s.jobs[j].source == FromTask(k.task) && k.minion in minions + missing;
      && CountRuns(n, k) == CountRuns(s, k) + (if isAnnounced then 1 else 0)
      && (isAnnounced ==> CountRuns(s, k) < |JobsOf(s, k)|)
  {
    SamePurposes(s, n, k);
    AnnouncedCounts(s, n, j, minions, missing, k);
    if s.jobs[j].source == FromTask(k.task) && k.minion in minions + missing {
      UnannouncedIsUncounted(s, j, k);
    }
  }

  lemma SamePurposes(s: State, n: State, k: RowKey)
    requires n.jobs.Keys == s.jobs.Keys
    requires forall j :: j in s.jobs ==> n.jobs[j].source == s.jobs[j].source && n.jobs[j].targets == s.jobs[j].targets
    ensures JobsOf(n, k) == JobsOf(s, k) && (IsPinged(n, k) <==> IsPinged(s, k))
  {
    assert forall j :: j in JobsOf(n, k) <==> j in JobsOf(s, k);
  }

  lemma AnnouncedCounts(s: State, n: State, j: JobId, minions: set<Minion>, missing: set<Minion>, k: RowKey)
    requires ReturnsAreSound(s) && IsEnabled(s, NewJob(j, minions, missing))
    requires n == Next(s, NewJob(j, minions, missing))
    ensures CountRuns(n, k) == CountRuns(s, k) +
      if s.jobs[j].source == FromTask(k.task) && k.minion in minions + missing then 1 else 0
  {
    var fits := s.jobs[j].source == FromTask(k.task) && k.minion in minions + missing;
    forall o
      ensures o in RecordedRuns(n, k) <==> o in RecordedRuns(s, k) || (fits && o == j)
    {
      AnnouncedRecord(s, n, j, minions, missing, k, o);
    }
    RecordedByReturn(s, k, j);
    OneMoreCount(RecordedRuns(s, k), RecordedRuns(n, k), j, fits);
  }

  lemma OneMoreCount(before: set<JobId>, after: set<JobId>, j: JobId, isMore: bool)
    requires j !in before && forall o :: o in after <==> o in before || (isMore && o == j)
    ensures |after| == |before| + if isMore then 1 else 0
  {
    assert after == before + if isMore then {j} else {};
  }

  lemma AnnouncedRecord(s: State, n: State, j: JobId, minions: set<Minion>, missing: set<Minion>, k: RowKey, o: JobId)
    requires ReturnsAreSound(s) && IsEnabled(s, NewJob(j, minions, missing))
    requires n.jobReturns == Announced(s, j, minions, missing)
    requires n.jobs == s.jobs[j := s.jobs[j].(status := JobRunning)]
    ensures o in RecordedRuns(n, k) <==>
      o in RecordedRuns(s, k) || (o == j && s.jobs[j].source == FromTask(k.task) && k.minion in minions + missing)
  {
    RecordedByReturn(s, k, o);
    RecordedByReturn(n, k, o);
    AnnouncedKeys(s, j, minions, missing, ReturnKey(o, k.minion));
  }

  lemma AnnouncedKeys(s: State, j: JobId, minions: set<Minion>, missing: set<Minion>, r: ReturnKey)
    ensures r in Announced(s, j, minions, missing) <==>
      r in s.jobReturns || (r.job == j && r.minion in minions + missing)
  {
    if r.job == j && r.minion in minions {
      assert ReturnKey(j, r.minion) == r;
    }
    if r.job == j && r.minion in missing - minions {
      assert ReturnKey(j, r.minion) == r;
    }
  }

  /** Jobs that are not of a task leave the counts alone. */
  lemma OtherJobCounts(s: State, n: State, j: JobId, record: Job, k: RowKey)
    requires ReturnsAreSound(s) && j !in s.jobs && !record.source.FromTask? && n.jobs == s.jobs[j := record]
    requires forall r :: r in n.jobReturns && r.job != j <==> r in s.jobReturns
    ensures JobsOf(n, k) == JobsOf(s, k) && CountRuns(n, k) == CountRuns(s, k)
    ensures IsPinged(n, k) <==> IsPinged(s, k) || (record.source == FromPing(k.task) && k.minion in record.targets)
  {
    assert JobsOf(n, k) == JobsOf(s, k);
    forall o
      ensures o in RecordedRuns(n, k) <==> o in RecordedRuns(s, k)
    {
      RecordedByReturn(s, k, o);
      RecordedByReturn(n, k, o);
    }
    assert RecordedRuns(n, k) == RecordedRuns(s, k);
    if IsPinged(s, k) {
      var o :| o in s.jobs && s.jobs[o].source == FromPing(k.task) && k.minion in s.jobs[o].targets;
      assert n.jobs[o] == s.jobs[o];
    }
    if record.source == FromPing(k.task) && k.minion in record.targets {
      assert n.jobs[j] == record;
    }
  }

  /** A new job that is no job of a task changes at most what is pinged. */
  lemma NewJobMarksPings(s: State, j: JobId, record: Job, slots: Slots, m: Minion)
    requires IsReadable(s, slots, m) && IsEnabled(s, CreateJob(j, record))
    ensures
      var n := Next(s, CreateJob(j, record));
      && HasRows(n, slots, m)
      && forall i :: 0 <= i < |slots| ==>
           QueueIn(n, slots, m)[i] == PingedBy(QueueIn(s, slots, m)[i], record, m)
  {
    var n := Next(s, CreateJob(j, record));
    forall i | 0 <= i < |slots|
      ensures HasRow(n, slots[i], m) && PolicyIn(n, slots[i], m) == PingedBy(PolicyIn(s, slots[i], m), record, m)
    {
      assert slots[i] in slots && HasRow(s, slots[i], m);
      OtherJobCounts(s, n, j, record, RowKey(slots[i].task, m));
    }
    forall slot | slot in slots
      ensures HasRow(n, slot, m)
    {
      assert HasRow(s, slot, m);
    }
  }

  function PingedBy(p: PolicyQueue.Policy, record: Job, m: Minion): PolicyQueue.Policy {
    p.(pinged := p.pinged || (record.source == FromPing(p.id) && m in record.targets))
  }

  lemma OtherPingIsNoQueueStep(s: State, j: JobId, record: Job, slots: Slots, m: Minion)
    requires IsReadable(s, slots, m) && IsEnabled(s, CreateJob(j, record)) && IsEvent(s, CreateJob(j, record), slots, m)
    ensures
      var n := Next(s, CreateJob(j, record));
      HasRows(n, slots, m) && QueueIn(n, slots, m) == QueueIn(s, slots, m)
  {
    NewJobMarksPings(s, j, record, slots, m);
    forall i | 0 <= i < |slots|
      ensures PingedBy(QueueIn(s, slots, m)[i], record, m) == QueueIn(s, slots, m)[i]
    {
      assert slots[i] in slots && IsSlotTask(slots, slots[i].task);
    }
  }

  lemma ForeignIsNoQueueStep(
    s: State, j: JobId, record: Job, minions: set<Minion>, missing: set<Minion>, slots: Slots, m: Minion)
    requires IsReadable(s, slots, m) && IsEnabled(s, ForeignJob(j, record, minions, missing))
    ensures var n := Next(s, ForeignJob(j, record, minions, missing));
            HasRows(n, slots, m) && QueueIn(n, slots, m) == QueueIn(s, slots, m)
  {
    var n := Next(s, ForeignJob(j, record, minions, missing));
    forall r
      ensures r in n.jobReturns && r.job != j <==> r in s.jobReturns
    {
      AnnouncedKeys(s, j, minions, missing, r);
    }
    forall slot | slot in slots
      ensures IsSameRow(s, n, RowKey(slot.task, m))
    {
      assert HasRow(s, slot, m);
      OtherJobCounts(s, n, j, record, RowKey(slot.task, m));
    }
    NothingChanges(s, n, slots, m);
  }

  /** The steps that are not seen by the queue of the minion at all. */
  predicate IsQuiet(step: Step) {
    || step.Fill? || step.StartFails? || step.Returned? || step.FinishJob? || step.LaunchError?
    || step.SetJobTtl? || step.SetReturnTtl?
  }

  lemma QuietIsNoQueueStep(s: State, step: Step, slots: Slots, m: Minion)
    requires IsReadable(s, slots, m) && IsEnabled(s, step) && IsQuiet(step)
    ensures HasRows(Next(s, step), slots, m) && QueueIn(Next(s, step), slots, m) == QueueIn(s, slots, m)
  {
    QuietRecords(s, step);
    QuietStep(s, Next(s, step), slots, m);
  }

  lemma QuietRecords(s: State, step: Step)
    requires IsEnabled(s, step) && IsQuiet(step)
    ensures
      var n := Next(s, step);
      && n.tasks == s.tasks && SameRecords(s, n) && s.rows.Keys <= n.rows.Keys
      && forall k :: k in s.rows ==> n.rows[k].status == s.rows[k].status
  {
  }

  /** Steps on rows of tasks outside the queue, or of other minions. */
  lemma ElsewhereIsNoQueueStep(s: State, step: Step, slots: Slots, m: Minion)
    requires IsReadable(s, slots, m) && IsEnabled(s, step) && IsEvent(s, step, slots, m)
    requires step.Restart? || step.StopTask? || step.Recheck? || step.Park?
    ensures HasRows(Next(s, step), slots, m) && QueueIn(Next(s, step), slots, m) == QueueIn(s, slots, m)
  {
    var n := Next(s, step);
    forall slot | slot in slots
      ensures HasRow(n, slot, m) && IsSameRow(s, n, RowKey(slot.task, m))
    {
      assert HasRow(s, slot, m) && IsSlotTask(slots, slot.task);
      SameCounts(s, n, RowKey(slot.task, m));
    }
    NothingChanges(s, n, slots, m);
  }

  /** Every event is, for the queue of the minion, the one step it stands for, or nothing. */
  lemma EventIsQueueStep(s: State, step: Step, slots: Slots, m: Minion)
    requires IsReadable(s, slots, m) && IsEnabled(s, step) && IsEvent(s, step, slots, m)
    ensures HasRows(Next(s, step), slots, m)
    ensures QueueIn(Next(s, step), slots, m) == AfterMaybe(QueueIn(s, slots, m), QueueStep(s, step, m))
  {
    match step
    case NewJob(j, minions, missing) => NewJobIsQueueStep(s, j, minions, missing, slots, m);
    case CreateJob(j, record) => OtherPingIsNoQueueStep(s, j, record, slots, m);
    case ForeignJob(j, record, minions, missing) => ForeignIsNoQueueStep(s, j, record, minions, missing, slots, m);
    case _ => RowEventIsQueueStep(s, step, slots, m);
  }

  lemma RowEventIsQueueStep(s: State, step: Step, slots: Slots, m: Minion)
    requires IsReadable(s, slots, m) && IsEnabled(s, step) && IsEvent(s, step, slots, m)
    requires !step.NewJob? && !step.CreateJob? && !step.ForeignJob?
    ensures HasRows(Next(s, step), slots, m)
    ensures QueueIn(Next(s, step), slots, m) == AfterMaybe(QueueIn(s, slots, m), QueueStep(s, step, m))
  {
    match step
    case TaskReturn(j, o) => ReturnIsQueueStep(s, j, o, slots, m);
    case TimeOut(j, o) => TimeOutIsQueueStep(s, j, o, slots, m);
    case TaskError(j) => ErrorIsQueueStep(s, j, slots, m);
    case Release(k) => ReleaseIsQueueStep(s, k, slots, m);
    case Revert(j) => RevertIsQueueStep(s, j, slots, m);
    case _ => SilentIsNoQueueStep(s, step, slots, m);
  }

  lemma SilentIsNoQueueStep(s: State, step: Step, slots: Slots, m: Minion)
    requires IsReadable(s, slots, m) && IsEnabled(s, step) && IsEvent(s, step, slots, m)
    requires IsQuiet(step) || step.Restart? || step.StopTask? || step.Recheck? || step.Park?
    ensures HasRows(Next(s, step), slots, m)
    ensures QueueIn(Next(s, step), slots, m) == AfterMaybe(QueueIn(s, slots, m), QueueStep(s, step, m))
  {
    if IsQuiet(step) {
      QuietIsNoQueueStep(s, step, slots, m);
    } else {
      ElsewhereIsNoQueueStep(s, step, slots, m);
    }
  }

  lemma EventKeepsReadable(s: State, step: Step, slots: Slots, m: Minion)
    requires IsReadable(s, slots, m) && IsEnabled(s, step) && IsEvent(s, step, slots, m)
    ensures IsReadable(Next(s, step), slots, m)
  {
    EventIsQueueStep(s, step, slots, m);
    StepKeepsReturnsSound(s, step);
    EventKeepsAnswers(s, step, slots, m);
  }

  lemma EventKeepsAnswers(s: State, step: Step, slots: Slots, m: Minion)
    requires IsReadable(s, slots, m) && IsEnabled(s, step) && IsEvent(s, step, slots, m)
    ensures TargetsAnswer(Next(s, step))
  {
    if step.NewJob? || step.ForeignJob? {
      AnnouncementKeepsAnswers(s, step, slots, m);
    } else if step.CreateJob? {
      NewJobKeepsAnswers(s, Next(s, step), step.job);
    } else {
      SameRecordsAfter(s, step, slots, m);
      SameKeepAnswers(s, Next(s, step));
    }
  }

  lemma AnnouncementKeepsAnswers(s: State, step: Step, slots: Slots, m: Minion)
    requires IsReadable(s, slots, m) && IsEnabled(s, step) && IsEvent(s, step, slots, m)
    requires step.NewJob? || step.ForeignJob?
    ensures TargetsAnswer(Next(s, step))
  {
    AnnouncingKeepsAnswers(s, Next(s, step), step.job, step.minions, step.missing);
  }

  lemma SameKeepAnswers(s: State, n: State)
    requires TargetsAnswer(s) && SameRecords(s, n)
    ensures TargetsAnswer(n)
  {
    assert forall r :: r in n.jobReturns <==> r in s.jobReturns;
  }

  lemma NewJobKeepsAnswers(s: State, n: State, j: JobId)
    requires TargetsAnswer(s) && ReturnsAreSound(s) && n.jobReturns == s.jobReturns && j !in s.jobs
    requires forall o :: o in n.jobs && o != j ==> o in s.jobs && n.jobs[o] == s.jobs[o]
    ensures TargetsAnswer(n)
  {
  }

  lemma SameRecordsAfter(s: State, step: Step, slots: Slots, m: Minion)
    requires HasRows(s, slots, m) && IsEnabled(s, step) && IsEvent(s, step, slots, m)
    requires !step.NewJob? && !step.ForeignJob? && !step.CreateJob?
    ensures SameRecords(s, Next(s, step))
  {
    if step.TimeOut? {
      TimeOutRecords(s, step.job, step.minion);
    }
    if IsQuiet(step) {
      QuietRecords(s, step);
    }
  }

  lemma AnnouncingKeepsAnswers(s: State, n: State, j: JobId, minions: set<Minion>, missing: set<Minion>)
    requires TargetsAnswer(s) && ReturnsAreSound(s) && n.jobReturns == Announced(s, j, minions, missing)
    requires forall o :: o in s.jobs ==>
      o in n.jobs && n.jobs[o].source == s.jobs[o].source && n.jobs[o].targets == s.jobs[o].targets
    requires j in n.jobs && (n.jobs[j].source.FromTask? ==> minions + missing <= n.jobs[j].targets)
    requires forall o :: o in n.jobs && o != j ==> o in s.jobs
    ensures TargetsAnswer(n)
  {
    forall r | r in n.jobReturns && r.job in n.jobs && n.jobs[r.job].source.FromTask?
      ensures r.minion in n.jobs[r.job].targets
    {
      AnnouncedKeys(s, j, minions, missing, r);
    }
  }

  // ---------- ticks ----------

  /** A successful tick of handle_running_status: what TaskScheduler.Scheduler.HandleRunning promises of it. */
  datatype TickRecord = TickRecord(
    tick: Tick, isPolicy: bool, found: set<Minion>, layouts: Layouts, statuses: map<TaskId, TaskStatus>,
    ready: State, scheduled: State)

  ghost predicate IsTick(s: State, n: State, r: TickRecord) {
    && r.tick.task in s.tasks && AreLayouts(Filled(s, r.tick.task, r.found), r.layouts)
    && r.ready == Prepared(s, r.tick.task, r.isPolicy, r.found, r.layouts, r.statuses)
    && JobsCoverTaken(r.ready, r.scheduled, r.tick)
    && (n == r.scheduled || n == Synced(r.scheduled, r.tick.task))
  }

  /** A tick that the scheduler serves without a launch error. */
  method ServeTick(
    scheduler: Scheduler, tick: Tick, isPolicy: bool, found: set<Minion>, layouts: Layouts,
    statuses: map<TaskId, TaskStatus>, masters: seq<string>, syncDue: bool, launches: JobId -> Launch)
    returns (outcome: Result<TaskStatus, Launch>, ghost r: TickRecord)
    requires scheduler.Valid() && tick.task in scheduler.tasks && Distinct(masters)
    requires AreLayouts(Filled(scheduler.Current(), tick.task, found), layouts)
    modifies scheduler
    ensures scheduler.Valid()
    ensures r.tick == tick && r.isPolicy == isPolicy && r.layouts == layouts && r.statuses == statuses
    ensures outcome.Ok? ==> IsTick(old(scheduler.Current()), scheduler.Current(), r)
  {
    ghost var ready, scheduled, steps;
    outcome, ready, scheduled, steps :=
      scheduler.HandleRunning(tick, isPolicy, found, layouts, statuses, masters, syncDue, launches);
    r := TickRecord(tick, isPolicy, found, layouts, statuses, ready, scheduled);
  }

  /** The tick judges the minion in its queue, all of whose tasks run or wait for minions. */
  ghost predicate JudgesInQueue(r: TickRecord, slots: Slots, m: Minion) {
    && r.isPolicy && m in r.layouts && r.layouts[m] == slots
    && forall slot :: slot in slots ==> slot.task in r.statuses && r.statuses[slot.task] in {WaitMinions, Running}
  }

  /** Rows that exist are not touched by filling, and verdicts concern one task. */
  lemma ReadyElsewhere(s: State, r: TickRecord, n: State, k: RowKey)
    requires IsTick(s, n, r) && k in s.rows && k.task != r.tick.task
    ensures r.ready.jobs == s.jobs && r.ready.jobReturns == s.jobReturns && r.ready.tasks == s.tasks
    ensures k in r.ready.rows && r.ready.rows[k] == s.rows[k]
  {
  }

  /** Before jobs are created the row has been judged in the queue, then parked or freed. */
  lemma ReadyRow(s: State, r: TickRecord, n: State, slots: Slots, m: Minion, i: nat) returns (held: bool)
    requires IsTick(s, n, r) && HasRows(s, slots, m) && DistinctTasks(slots) && JudgesInQueue(r, slots, m)
    requires i < |slots| && slots[i].task == r.tick.task
    ensures r.ready.jobs == s.jobs && r.ready.jobReturns == s.jobReturns && r.ready.tasks == s.tasks
    ensures HasRow(s, slots[i], m) && HasRow(r.ready, slots[i], m)
    ensures PolicyIn(s, slots[i], m).(status := r.ready.rows[RowKey(r.tick.task, m)].status)
      == PolicyQueue.Parked(PolicyQueue.Evaluated(QueueIn(s, slots, m), i), held)
  {
    var t := r.tick.task;
    var all := Filled(s, t, r.found);
    var judged := Rechecked(all, t, Verdicts(all, t, r.layouts, r.statuses));
    held := IsHeld(judged, t, m);
    JudgedRow(s, r, all, judged, slots, m, i);
    ParkedRow(judged, r.ready, t, m, PolicyQueue.Evaluated(QueueIn(s, slots, m), i));
  }

  lemma JudgedRow(s: State, r: TickRecord, all: State, judged: State, slots: Slots, m: Minion, i: nat)
    requires HasRows(s, slots, m) && DistinctTasks(slots) && JudgesInQueue(r, slots, m)
    requires i < |slots| && slots[i].task == r.tick.task && all == Filled(s, r.tick.task, r.found)
    requires AreLayouts(all, r.layouts)
    requires judged == Rechecked(all, r.tick.task, Verdicts(all, r.tick.task, r.layouts, r.statuses))
    ensures HasRow(s, slots[i], m) && HasRow(judged, slots[i], m)
    ensures judged.rows[RowKey(r.tick.task, m)].status == PolicyQueue.Evaluated(QueueIn(s, slots, m), i).status
  {
    SlotRows(s, slots, m);
    QuietStep(s, all, slots, m);
    ActiveVerdict(all, r.tick.task, slots, m, r.statuses);
    FoundInQueue(s, slots, m, i);
  }

  lemma ParkedRow(judged: State, ready: State, t: TaskId, m: Minion, p: PolicyQueue.Policy)
    requires RowKey(t, m) in judged.rows && judged.rows[RowKey(t, m)].status == p.status
    requires ready == judged.(rows := Parked(judged, t))
    ensures RowKey(t, m) in ready.rows
    ensures p.(status := ready.rows[RowKey(t, m)].status) == PolicyQueue.Parked(p, IsHeld(judged, t, m))
  {
  }

  /** The new jobs give a minion that was taken one job more, and the others none. */
  lemma TickCounts(ready: State, n: State, tick: Tick, k: RowKey)
    requires JobsCoverTaken(ready, n, tick) && ReturnsAreSound(ready) && k in ready.rows
    ensures |JobsOf(n, k)| == |JobsOf(ready, k)| + if IsTaken(ready, n, tick.task, k) then 1 else 0
    ensures RecordedRuns(n, k) == RecordedRuns(ready, k)
    ensures IsPinged(n, k) <==> IsPinged(ready, k)
  {
    RecordedAfterTick(ready, n, tick, k);
    PingedAfterTick(ready, n, tick, k);
    var more := JobsAfterTick(ready, n, tick, k);
    NewJobsOf(ready, n, tick, k, more);
  }

  lemma RecordedAfterTick(ready: State, n: State, tick: Tick, k: RowKey)
    requires OnlyTakes(ready, n, tick.task) && ReturnsAreSound(ready)
    ensures RecordedRuns(n, k) == RecordedRuns(ready, k)
  {
    forall o
      ensures o in RecordedRuns(n, k) <==> o in RecordedRuns(ready, k)
    {
      RecordedByReturn(ready, k, o);
      RecordedByReturn(n, k, o);
    }
  }

  lemma JobsAfterTick(ready: State, n: State, tick: Tick, k: RowKey) returns (more: set<JobId>)
    requires OnlyTakes(ready, n, tick.task)
    ensures more ==
      set j | j in NewJobs(ready, n) && n.jobs[j].source == FromTask(k.task) && k.minion in n.jobs[j].targets
    ensures |JobsOf(n, k)| == |JobsOf(ready, k)| + |more|
  {
    more := set j | j in NewJobs(ready, n) && n.jobs[j].source == FromTask(k.task) && k.minion in n.jobs[j].targets;
    forall j
      ensures j in JobsOf(n, k) <==> j in JobsOf(ready, k) || j in more
      ensures !(j in JobsOf(ready, k) && j in more)
    {
    }
    AddedCount(JobsOf(ready, k), more, JobsOf(n, k));
  }

  lemma AddedCount(before: set<JobId>, more: set<JobId>, after: set<JobId>)
    requires forall j :: j in after <==> j in before || j in more
    requires before !! more
    ensures |after| == |before| + |more|
  {
    assert after == before + more;
  }

  lemma PingedAfterTick(ready: State, n: State, tick: Tick, k: RowKey)
    requires JobsCoverTaken(ready, n, tick)
    ensures IsPinged(n, k) <==> IsPinged(ready, k)
  {
    if IsPinged(ready, k) {
      var o :| o in ready.jobs && ready.jobs[o].source == FromPing(k.task) && k.minion in ready.jobs[o].targets;
      assert n.jobs[o] == ready.jobs[o];
    }
    if IsPinged(n, k) {
      var o :| o in n.jobs && n.jobs[o].source == FromPing(k.task) && k.minion in n.jobs[o].targets;
      assert o in NewJobs(ready, n) ==> IsStartOf(n, tick, o);
      assert o in ready.jobs;
    }
  }

  lemma NewJobsOf(ready: State, n: State, tick: Tick, k: RowKey, more: set<JobId>)
    requires JobsCoverTaken(ready, n, tick)
    requires more ==
      set j | j in NewJobs(ready, n) && n.jobs[j].source == FromTask(k.task) && k.minion in n.jobs[j].targets
    ensures |more| == if IsTaken(ready, n, tick.task, k) then 1 else 0
  {
    forall j | j in more
      ensures k.task == tick.task && IsTargeted(ready, n, k.minion)
    {
      assert IsStartOf(n, tick, j);
    }
    if IsTaken(ready, n, tick.task, k) {
      var j :| j in NewJobs(ready, n) && k.minion in n.jobs[j].targets;
      assert IsStartOf(n, tick, j) && j in more;
      forall o | o in more
        ensures o == j
      {
      }
      assert more == {j};
    } else {
      forall j
        ensures j !in more
      {
      }
      assert more == {};
    }
  }

  /** A tick changes nothing about the policies of other tasks. */
  lemma TickElsewhere(s: State, n: State, r: TickRecord, k: RowKey)
    requires IsTick(s, n, r) && ReturnsAreSound(s) && k in s.rows && k.task != r.tick.task
    ensures IsSameRow(s, n, k) && n.tasks == s.tasks
  {
    ReadyElsewhere(s, r, n, k);
    assert r.ready == s.(rows := r.ready.rows);
    SameCounts(s, r.ready, k);
    TickCounts(r.ready, r.scheduled, r.tick, k);
    SyncedIsSame(r.scheduled, r.tick.task, k);
  }

  lemma SyncedIsSame(n: State, t: TaskId, k: RowKey)
    ensures var done := Synced(n, t);
            && done.rows == n.rows && done.tasks == n.tasks && SameRecords(n, done)
            && |JobsOf(done, k)| == |JobsOf(n, k)| && CountRuns(done, k) == CountRuns(n, k)
            && (IsPinged(done, k) <==> IsPinged(n, k))
  {
    SameCounts(n, Synced(n, t), k);
  }

  /** Seen from a minion of the policy, a tick is the step Tick of its queue. */
  lemma TickIsQueueStep(s: State, n: State, r: TickRecord, slots: Slots, m: Minion) returns (step: PolicyQueue.Step)
    requires IsTick(s, n, r) && IsReadable(s, slots, m)
    requires IsSlotTask(slots, r.tick.task) ==> JudgesInQueue(r, slots, m)
    ensures step.Tick? && step.id == r.tick.task
    ensures HasRows(n, slots, m) && QueueIn(n, slots, m) == PolicyQueue.AfterStep(QueueIn(s, slots, m), step)
  {
    var t := r.tick.task;
    TickKeepsTasks(s, n, r);
    OthersAfterTick(s, n, r, slots, m);
    if i :| 0 <= i < |slots| && slots[i].task == t {
      assert slots[i] in slots && IsSlotTask(slots, t);
      step := TickAtSlot(s, n, r, slots, m, i);
      assert forall j :: 0 <= j < |slots| && slots[j].task == t ==> j == i;
      assert forall slot :: slot in slots && slot.task == t ==> slot == slots[i];
    } else {
      step := PolicyQueue.Tick(t, false, false);
      assert forall slot :: slot in slots ==> slot.task != t;
    }
    QueueSteps(s, n, slots, m, step);
  }

  lemma OthersAfterTick(s: State, n: State, r: TickRecord, slots: Slots, m: Minion)
    requires IsTick(s, n, r) && ReturnsAreSound(s) && HasRows(s, slots, m)
    ensures forall slot :: slot in slots && slot.task != r.tick.task ==>
      HasRow(n, slot, m) && IsSameRow(s, n, RowKey(slot.task, m))
  {
    forall slot | slot in slots && slot.task != r.tick.task
      ensures HasRow(n, slot, m) && IsSameRow(s, n, RowKey(slot.task, m))
    {
      assert HasRow(s, slot, m);
      TickElsewhere(s, n, r, RowKey(slot.task, m));
    }
  }

  lemma TickKeepsTasks(s: State, n: State, r: TickRecord)
    requires IsTick(s, n, r)
    ensures n.tasks == s.tasks
  {
  }

  lemma TickAtSlot(s: State, n: State, r: TickRecord, slots: Slots, m: Minion, i: nat) returns (step: PolicyQueue.Step)
    requires IsTick(s, n, r) && IsReadable(s, slots, m) && JudgesInQueue(r, slots, m)
    requires i < |slots| && slots[i].task == r.tick.task
    ensures step.Tick? && step.id == r.tick.task && n.tasks == s.tasks
    ensures HasRow(n, slots[i], m) && PolicyIn(n, slots[i], m) == PolicyQueue.Stepped(QueueIn(s, slots, m), step, i)
  {
    var held := ReadyRow(s, r, n, slots, m, i);
    assert r.ready == s.(rows := r.ready.rows);
    SameCounts(s, r.ready, RowKey(r.tick.task, m));
    step := PolicyQueue.Tick(
      r.tick.task, held, IsTaken(r.ready, r.scheduled, r.tick.task, RowKey(r.tick.task, m)));
    TickedRow(s, n, r, slots[i], m);
  }

  lemma TakenStatus(ready: State, n: State, t: TaskId, k: RowKey)
    requires OnlyTakes(ready, n, t) && k.task == t && k in ready.rows
    ensures n.tasks == ready.tasks && k in n.rows
    ensures IsTaken(ready, n, t, k) ==> ready.rows[k].status == Pending && n.rows[k].status == InWork
    ensures !IsTaken(ready, n, t, k) ==> n.rows[k] == ready.rows[k]
  {
  }

  lemma StartedRow(ready: State, n: State, tick: Tick, slot: Slot, m: Minion)
    requires JobsCoverTaken(ready, n, tick) && ReturnsAreSound(ready)
    requires HasRow(ready, slot, m) && slot.task == tick.task
    ensures HasRow(n, slot, m)
    ensures PolicyIn(n, slot, m) ==
      PolicyQueue.Started(PolicyIn(ready, slot, m), IsTaken(ready, n, slot.task, RowKey(slot.task, m)))
  {
    TickCounts(ready, n, tick, RowKey(slot.task, m));
    TakenStatus(ready, n, tick.task, RowKey(slot.task, m));
  }

  lemma SyncedRow(n: State, slot: Slot, m: Minion)
    requires HasRow(n, slot, m)
    ensures HasRow(Synced(n, slot.task), slot, m) && PolicyIn(Synced(n, slot.task), slot, m) == PolicyIn(n, slot, m)
  {
    SyncedIsSame(n, slot.task, RowKey(slot.task, m));
  }

  /** The row of the tick's task is the one that was ready, started if it was taken. */
  lemma TickedRow(s: State, n: State, r: TickRecord, slot: Slot, m: Minion)
    requires IsTick(s, n, r) && ReturnsAreSound(r.ready) && HasRow(r.ready, slot, m) && slot.task == r.tick.task
    ensures n.tasks == s.tasks && HasRow(n, slot, m)
    ensures PolicyIn(n, slot, m) ==
      PolicyQueue.Started(
        PolicyIn(r.ready, slot, m), IsTaken(r.ready, r.scheduled, slot.task, RowKey(slot.task, m)))
  {
    TickKeepsTasks(s, n, r);
    StartedRow(r.ready, r.scheduled, r.tick, slot, m);
    SyncedRow(r.scheduled, slot, m);
  }

  lemma TickKeepsReadable(s: State, n: State, r: TickRecord, slots: Slots, m: Minion)
    requires IsTick(s, n, r) && IsReadable(s, slots, m)
    requires IsSlotTask(slots, r.tick.task) ==> JudgesInQueue(r, slots, m)
    ensures IsReadable(n, slots, m)
  {
    var step := TickIsQueueStep(s, n, r, slots, m);
    assert r.ready == s.(rows := r.ready.rows);
    TickKeepsReturnsSound(s, n, r);
  }

  lemma TickKeepsReturnsSound(s: State, n: State, r: TickRecord)
    requires IsTick(s, n, r) && ReturnsAreSound(s) && r.ready == s.(rows := r.ready.rows)
    ensures ReturnsAreSound(n)
    ensures TargetsAnswer(s) ==> TargetsAnswer(n)
  {
    ReadyKeepsReturnsSound(s, r.ready);
    SchedulingKeepsReturnsSound(r.ready, r.scheduled, r.tick);
    SyncKeepsReturnsSound(r.scheduled, r.tick.task);
  }

  lemma ReadyKeepsReturnsSound(s: State, ready: State)
    requires ReturnsAreSound(s) && ready == s.(rows := ready.rows)
    ensures ReturnsAreSound(ready) && (TargetsAnswer(s) ==> TargetsAnswer(ready))
  {
  }

  lemma SchedulingKeepsReturnsSound(ready: State, n: State, tick: Tick)
    requires JobsCoverTaken(ready, n, tick) && ReturnsAreSound(ready)
    ensures ReturnsAreSound(n) && (TargetsAnswer(ready) ==> TargetsAnswer(n))
  {
  }

  lemma SyncKeepsReturnsSound(n: State, t: TaskId)
    requires ReturnsAreSound(n)
    ensures ReturnsAreSound(Synced(n, t)) && (TargetsAnswer(n) ==> TargetsAnswer(Synced(n, t)))
  {
  }

  // ---------- histories ----------

  /** An event, a tick of a running task, perhaps with a ping, or the check of a policy that waits for minions. */
  datatype Move =
    | Event(step: Step)
    | TickMove(r: TickRecord)
    | PingMove(r: TickRecord, ticked: State, job: JobId, record: Job)
    | Check(task: TaskId, layouts: Layouts, statuses: map<TaskId, TaskStatus>)

  ghost predicate IsMove(s: State, move: Move, n: State, slots: Slots, m: Minion)
    requires HasRows(s, slots, m)
  {
    match move
    case Event(step) => IsEnabled(s, step) && IsEvent(s, step, slots, m) && n == Next(s, step)
    case TickMove(r) => IsTick(s, n, r) && (IsSlotTask(slots, r.tick.task) ==> JudgesInQueue(r, slots, m))
    case PingMove(r, ticked, j, record) =>
      && IsTick(s, ticked, r) && (IsSlotTask(slots, r.tick.task) ==> JudgesInQueue(r, slots, m))
      && IsEnabled(ticked, CreateJob(j, record)) && n == Next(ticked, CreateJob(j, record))
      && IsPingOf(ticked, r.tick.task, record)
    case Check(t, layouts, statuses) =>
      && AreLayouts(s, layouts) && n == Rechecked(s, t, Verdicts(s, t, layouts, statuses))
      && (IsSlotTask(slots, t) ==>
           && m in layouts && layouts[m] == slots
           && forall slot :: slot in slots ==> slot.task in statuses && statuses[slot.task] in {WaitMinions, Running})
  }

  /** check_unactive_minions: the ping goes to minions whose rows are pending then, judged or freed by this tick. */
  predicate IsPingOf(s: State, t: TaskId, record: Job) {
    && record.source == FromPing(t)
    && forall m :: m in record.targets ==> RowKey(t, m) in s.rows && s.rows[RowKey(t, m)].status == Pending
  }

  /** A tick that finds the minion inactive is the step Ping of its queue. */
  lemma PingIsQueueStep(
    s: State, ticked: State, r: TickRecord, j: JobId, record: Job, slots: Slots, m: Minion)
    returns (step: PolicyQueue.Step)
    requires IsReadable(s, slots, m) && IsTick(s, ticked, r)
    requires IsSlotTask(slots, r.tick.task) ==> JudgesInQueue(r, slots, m)
    requires IsEnabled(ticked, CreateJob(j, record)) && IsPingOf(ticked, r.tick.task, record)
    ensures
      var n := Next(ticked, CreateJob(j, record));
      && IsReadable(n, slots, m)
      && QueueIn(n, slots, m) == PolicyQueue.AfterStep(QueueIn(s, slots, m), step)
    ensures step.id == r.tick.task && if m in record.targets then step.Ping? else step.Tick?
  {
    var tick := TickIsQueueStep(s, ticked, r, slots, m);
    TickKeepsReadable(s, ticked, r, slots, m);
    PingKeepsReadable(ticked, j, record, slots, m);
    step := if m in record.targets then PolicyQueue.Ping(tick.id, tick.heldElsewhere) else tick;
    DistinctPolicies(s, slots, m);
    PingAfterTick(QueueIn(s, slots, m), ticked, tick, j, record, slots, m);
  }

  lemma PingKeepsReadable(s: State, j: JobId, record: Job, slots: Slots, m: Minion)
    requires IsReadable(s, slots, m) && IsEnabled(s, CreateJob(j, record))
    ensures IsReadable(Next(s, CreateJob(j, record)), slots, m)
  {
    NewJobMarksPings(s, j, record, slots, m);
    StepKeepsReturnsSound(s, CreateJob(j, record));
    NewJobKeepsAnswers(s, Next(s, CreateJob(j, record)), j);
  }

  lemma PingAfterTick(
    queue: seq<PolicyQueue.Policy>, ticked: State, tick: PolicyQueue.Step, j: JobId, record: Job, slots: Slots,
    m: Minion)
    requires IsReadable(ticked, slots, m) && tick.Tick? && PolicyOrdering.DistinctIds(PolicyQueue.ItemsOf(queue))
    requires QueueIn(ticked, slots, m) == PolicyQueue.AfterStep(queue, tick)
    requires IsEnabled(ticked, CreateJob(j, record)) && IsPingOf(ticked, tick.id, record)
    ensures
      var n := Next(ticked, CreateJob(j, record));
      && HasRows(n, slots, m)
      && QueueIn(n, slots, m) == PolicyQueue.AfterStep(
           queue, if m in record.targets then PolicyQueue.Ping(tick.id, tick.heldElsewhere) else tick)
  {
    NewJobMarksPings(ticked, j, record, slots, m);
    PingAddsToTick(
      queue, QueueIn(ticked, slots, m), QueueIn(Next(ticked, CreateJob(j, record)), slots, m), tick, record, m);
  }

  lemma PingAddsToTick(
    queue: seq<PolicyQueue.Policy>, ticked: seq<PolicyQueue.Policy>, after: seq<PolicyQueue.Policy>,
    tick: PolicyQueue.Step, record: Job, m: Minion)
    requires tick.Tick? && ticked == PolicyQueue.AfterStep(queue, tick) && |after| == |ticked|
    requires PolicyOrdering.DistinctIds(PolicyQueue.ItemsOf(queue)) && record.source == FromPing(tick.id)
    requires forall i :: 0 <= i < |ticked| ==> after[i] == PingedBy(ticked[i], record, m)
    requires m in record.targets ==>
      forall i :: 0 <= i < |ticked| && ticked[i].id == tick.id ==> ticked[i].status == Pending
    ensures after == PolicyQueue.AfterStep(
      queue, if m in record.targets then PolicyQueue.Ping(tick.id, tick.heldElsewhere) else tick)
  {
    PolicyQueue.StepKeepsPolicies(queue, tick);
    if m in record.targets {
      match PolicyQueue.IndexOf(queue, tick.id)
      case None =>
        assert forall i :: 0 <= i < |queue| ==> queue[i] in queue;
        assert after == queue;
      case Some(k) =>
        var p := PolicyQueue.Stepped(queue, PolicyQueue.Ping(tick.id, tick.heldElsewhere), k);
        forall i | 0 <= i < |queue|
          ensures after[i] == queue[k := p][i]
        {
          if i != k {
            PolicyQueue.FoundAt(queue, i);
          }
        }
    } else {
      assert after == ticked;
    }
  }

  lemma CheckIsQueueStep(
    s: State, n: State, t: TaskId, layouts: Layouts, statuses: map<TaskId, TaskStatus>, slots: Slots, m: Minion)
    requires IsReadable(s, slots, m) && IsMove(s, Check(t, layouts, statuses), n, slots, m)
    ensures IsReadable(n, slots, m)
    ensures QueueIn(n, slots, m) == PolicyQueue.AfterStep(QueueIn(s, slots, m), PolicyQueue.Evaluate(t))
  {
    SlotRows(s, slots, m);
    forall i | 0 <= i < |slots| && slots[i].task == t
      ensures PolicyIn(s, slots[i], m).(status := n.rows[RowKey(t, m)].status)
        == PolicyQueue.Stepped(QueueIn(s, slots, m), PolicyQueue.Evaluate(t), i)
    {
      assert slots[i] in slots && IsSlotTask(slots, t);
      ActiveVerdict(s, t, slots, m, statuses);
      FoundInQueue(s, slots, m, i);
    }
    RowStep(s, n, slots, m, PolicyQueue.Evaluate(t));
  }

  /** Every move is at most one step of the queue. */
  lemma MoveIsQueueStep(s: State, move: Move, n: State, slots: Slots, m: Minion)
    returns (step: Option<PolicyQueue.Step>)
    requires IsReadable(s, slots, m) && IsMove(s, move, n, slots, m)
    ensures IsReadable(n, slots, m)
    ensures QueueIn(n, slots, m) == AfterMaybe(QueueIn(s, slots, m), step)
    ensures move.Event? ==> step == QueueStep(s, move.step, m)
    ensures !move.Event? ==> step.Some? && (step.value.Tick? || step.value.Ping? || step.value.Evaluate?)
  {
    match move
    case Event(event) =>
      EventIsQueueStep(s, event, slots, m);
      EventKeepsReadable(s, event, slots, m);
      step := QueueStep(s, event, m);
    case TickMove(r) =>
      var tick := TickIsQueueStep(s, n, r, slots, m);
      TickKeepsReadable(s, n, r, slots, m);
      step := Some(tick);
    case PingMove(r, ticked, j, record) =>
      var ping := PingIsQueueStep(s, ticked, r, j, record, slots, m);
      step := Some(ping);
    case Check(t, layouts, statuses) =>
      CheckIsQueueStep(s, n, t, layouts, statuses, slots, m);
      step := Some(PolicyQueue.Evaluate(t));
  }

  /** Successive states of the records. */
  ghost predicate IsHistory(states: seq<State>, moves: seq<Move>, slots: Slots, m: Minion) {
    && |states| == |moves| + 1
    && (forall i :: 0 <= i < |states| ==> HasRows(states[i], slots, m))
    && forall i :: 0 <= i < |moves| ==> IsMove(states[i], moves[i], states[i + 1], slots, m)
  }

  /** An outcome that comes to a row of the queue that is resolved already, and would change it. */
  predicate IsLateMove(s: State, move: Move, slots: Slots, m: Minion)
    requires HasRows(s, slots, m) && (move.Event? ==> IsEnabled(s, move.step))
  {
    && move.Event? && QueueStep(s, move.step, m).Some?
    && PolicyQueue.IsLateIn(QueueIn(s, slots, m), QueueStep(s, move.step, m).value)
  }

  ghost predicate NoneComesLate(states: seq<State>, moves: seq<Move>, slots: Slots, m: Minion)
    requires IsHistory(states, moves, slots, m)
  {
    forall i :: 0 <= i < |moves| ==> !IsLateMoveAt(states, moves, slots, m, i)
  }

  ghost predicate IsLateMoveAt(states: seq<State>, moves: seq<Move>, slots: Slots, m: Minion, i: nat)
    requires IsHistory(states, moves, slots, m) && i < |moves|
  {
    assert IsMove(states[i], moves[i], states[i + 1], slots, m);
    IsLateMove(states[i], moves[i], slots, m)
  }

  /** Every history of the records is, seen from the minion, a run of its queue; without late outcomes if none comes. */
  lemma {:induction false} HistoryIsQueueRun(states: seq<State>, moves: seq<Move>, slots: Slots, m: Minion)
    returns (steps: seq<PolicyQueue.Step>)
    requires IsHistory(states, moves, slots, m) && IsReadable(states[0], slots, m)
    ensures IsReadable(states[|moves|], slots, m)
    ensures QueueIn(states[|moves|], slots, m) == PolicyQueue.AfterSteps(QueueIn(states[0], slots, m), steps)
    ensures NoneComesLate(states, moves, slots, m) ==> PolicyQueue.NoneIsLate(QueueIn(states[0], slots, m), steps)
    decreases |moves|
  {
    steps := [];
    if moves != [] {
      var n := |moves| - 1;
      PrefixIsHistory(states, moves, slots, m);
      steps := HistoryIsQueueRun(states[..|moves|], moves[..n], slots, m);
      var first, before := QueueIn(states[0], slots, m), QueueIn(states[n], slots, m);
      var step := MoveIsQueueStep(states[n], moves[n], states[n + 1], slots, m);
      if step.Some? {
        if NoneComesLate(states, moves, slots, m) {
          assert !IsLateMoveAt(states, moves, slots, m, n);
          assert !PolicyQueue.IsLateIn(before, step.value);
        }
        OneStepAppended(first, steps, step.value);
        steps := steps + [step.value];
      }
    }
  }

  lemma PrefixIsHistory(states: seq<State>, moves: seq<Move>, slots: Slots, m: Minion)
    requires IsHistory(states, moves, slots, m) && moves != []
    ensures IsHistory(states[..|moves|], moves[..|moves| - 1], slots, m)
    ensures NoneComesLate(states, moves, slots, m) ==>
      NoneComesLate(states[..|moves|], moves[..|moves| - 1], slots, m)
  {
    var before, done := states[..|moves|], moves[..|moves| - 1];
    if NoneComesLate(states, moves, slots, m) {
      forall i | 0 <= i < |done|
        ensures !IsLateMoveAt(before, done, slots, m, i)
      {
        assert !IsLateMoveAt(states, moves, slots, m, i);
      }
    }
  }

  lemma OneStepAppended(queue: seq<PolicyQueue.Policy>, steps: seq<PolicyQueue.Step>, step: PolicyQueue.Step)
    ensures PolicyQueue.AfterSteps(queue, steps + [step]) ==
      PolicyQueue.AfterStep(PolicyQueue.AfterSteps(queue, steps), step)
    ensures PolicyQueue.NoneIsLate(queue, steps + [step]) <==>
      PolicyQueue.NoneIsLate(queue, steps) && !PolicyQueue.IsLateIn(PolicyQueue.AfterSteps(queue, steps), step)
  {
    assert (steps + [step])[..|steps|] == steps;
  }

  // ---------- what the queue proves of the records ----------

  /**
   Over every history of the stored records in which no outcome comes late: a row of a policy that has been started,
   pinged, held back or given an outcome stands behind resolved rows only, has its requirements satisfied, and its
   requirements do not lead into a cycle.
   */
  lemma RecordsRunInOrder(states: seq<State>, moves: seq<Move>, slots: Slots, m: Minion, i: nat)
    requires IsHistory(states, moves, slots, m) && IsReadable(states[0], slots, m)
    requires NoneComesLate(states, moves, slots, m)
    requires PolicyQueue.Consistent(QueueIn(states[0], slots, m)) && i < |slots|
    ensures var queue := QueueIn(states[|moves|], slots, m);
            PolicyQueue.IsTouched(queue[i]) ==>
              && PolicyQueue.AllResolved(queue[..i]) && PolicyQueue.AllSatisfied(queue, slots[i].requirements)
              && !PolicyQueue.IsStuckAt(QueueIn(states[0], slots, m), i)
  {
    var steps := HistoryIsQueueRun(states, moves, slots, m);
    PolicyQueue.PoliciesRunInOrder(QueueIn(states[0], slots, m), steps, i);
  }

  lemma DistinctPolicies(s: State, slots: Slots, m: Minion)
    requires HasRows(s, slots, m) && DistinctTasks(slots)
    ensures PolicyOrdering.DistinctIds(PolicyQueue.ItemsOf(QueueIn(s, slots, m)))
  {
  }

  /** Over every history at all no job is started for a policy whose requirements lead into a cycle. */
  lemma RecordsNeverStartStuck(states: seq<State>, moves: seq<Move>, slots: Slots, m: Minion, i: nat)
    requires IsHistory(states, moves, slots, m) && IsReadable(states[0], slots, m)
    requires PolicyQueue.IsFresh(QueueIn(states[0], slots, m)) && i < |slots|
    requires PolicyQueue.IsStuckAt(QueueIn(states[0], slots, m), i)
    ensures JobsOf(states[|moves|], RowKey(slots[i].task, m)) == {}
    ensures !PolicyQueue.IsTouched(QueueIn(states[|moves|], slots, m)[i])
  {
    var steps := HistoryIsQueueRun(states, moves, slots, m);
    DistinctPolicies(states[0], slots, m);
    PolicyQueue.StuckNeverStarts(QueueIn(states[0], slots, m), steps, i);
    assert slots[i] in slots;
  }

  /** Whatever the records are, a move that gives a row a job finds its policy in its turn, or held back before. */
  lemma RecordsStartInTurn(s: State, move: Move, n: State, slots: Slots, m: Minion, i: nat)
    requires IsReadable(s, slots, m) && IsMove(s, move, n, slots, m) && HasRows(n, slots, m) && i < |slots|
    requires QueueIn(n, slots, m)[i].started > QueueIn(s, slots, m)[i].started
    ensures move.TickMove? || move.PingMove?
    ensures PolicyLateness.IsInTurn(QueueIn(s, slots, m), i) || QueueIn(s, slots, m)[i].status == Busy
  {
    var queue := QueueIn(s, slots, m);
    var step := MoveIsQueueStep(s, move, n, slots, m);
    DistinctPolicies(s, slots, m);
    var k := PolicyQueue.IndexOf(queue, step.value.id).value;
    assert k == i;
    PolicyLateness.StartsInTurnUnlessHeldBack(queue, step.value, i);
  }

  // ---------- where the layout comes from ----------

  /** get_policies_for_minion: the queue it puts together is in order, whatever the rows are. */
  method LayoutForMinion(groups: seq<seq<PolicyOrdering.Item>>, retries: PolicyOrdering.Id -> nat)
    returns (slots: Slots)
    requires PolicySchedule.GroupsAreSeparate(groups)
    ensures DistinctTasks(slots)
    ensures forall s: State, m :: HasRows(s, slots, m) ==> PolicyQueue.WellOrdered(QueueIn(s, slots, m))
    ensures forall t :: IsSlotTask(slots, t) <==>
      exists i :: 0 <= i < |groups| && PolicyOrdering.IsId(groups[i], t)
  {
    var queue := PolicySchedule.QueueForMinion(groups, retries);
    slots := SlotsOf(queue);
    LayoutIsWellOrdered(queue);
  }

  function SlotsOf(queue: seq<PolicyQueue.Policy>): (slots: Slots)
    ensures |slots| == |queue|
    ensures forall i :: 0 <= i < |queue| ==> slots[i] == Slot(queue[i].id, queue[i].requirements)
  {
    seq(|queue|, i requires 0 <= i < |queue| => Slot(queue[i].id, queue[i].requirements))
  }

  lemma LayoutIsWellOrdered(queue: seq<PolicyQueue.Policy>)
    requires PolicyQueue.WellOrdered(queue)
    ensures DistinctTasks(SlotsOf(queue))
    ensures forall s: State, m :: HasRows(s, SlotsOf(queue), m) ==>
      PolicyQueue.WellOrdered(QueueIn(s, SlotsOf(queue), m))
    ensures forall t :: IsSlotTask(SlotsOf(queue), t) <==> PolicyQueue.Names(queue, t)
  {
    var slots := SlotsOf(queue);
    forall i, j | 0 <= i < j < |slots|
      ensures slots[i].task != slots[j].task
    {
      assert PolicyOrdering.Ids(PolicyQueue.ItemsOf(queue))[i] != PolicyOrdering.Ids(PolicyQueue.ItemsOf(queue))[j];
    }
    forall s: State, m | HasRows(s, slots, m)
      ensures PolicyQueue.WellOrdered(QueueIn(s, slots, m))
    {
      PolicyQueue.SameItemsAreWellOrdered(queue, QueueIn(s, slots, m));
    }
    forall t
      ensures IsSlotTask(slots, t) <==> PolicyQueue.Names(queue, t)
    {
      if slot :| slot in slots && slot.task == t {
        var i :| 0 <= i < |slots| && slots[i] == slot;
        assert queue[i] in queue;
      }
      if p :| p in queue && p.id == t {
        var i :| 0 <= i < |queue| && queue[i] == p;
        assert slots[i] in slots;
      }
    }
  }
}
