/** The queue of policies of a minion, read from the stored records (saltbox_core/tasks/services/tasks_minion.py). */
module TaskQueue {
  import opened Wrappers
  import opened Sequences
  import opened TaskStatuses
  import opened TaskProtocol
  import PolicyOrdering
  import PolicyQueue

  /** The place of a policy in the queue. */
  datatype Slot = Slot(task: TaskId, requirements: seq<PolicyOrdering.Requirement>)

  type Slots = seq<Slot>

  predicate HasRow(s: State, slot: Slot, m: Minion) {
    slot.task in s.tasks && RowKey(slot.task, m) in s.rows
  }

  /** The queue is made of rows of the minion. */
  predicate HasRows(s: State, slots: Slots, m: Minion) {
    forall slot :: slot in slots ==> HasRow(s, slot, m)
  }

  predicate IsPinged(s: State, k: RowKey) {
    exists j :: j in s.jobs && s.jobs[j].source == FromPing(k.task) && k.minion in s.jobs[j].targets
  }

  function PolicyIn(s: State, slot: Slot, m: Minion): PolicyQueue.Policy
    requires HasRow(s, slot, m)
  {
    var k := RowKey(slot.task, m);
    PolicyQueue.Policy(
      slot.task, slot.requirements, s.tasks[slot.task].maxRetries, s.rows[k].status,
      |JobsOf(s, k)|, CountRuns(s, k), IsPinged(s, k))
  }

  /** get_policies_for_minion, with the rows as they are. */
  function QueueIn(s: State, slots: Slots, m: Minion): (queue: seq<PolicyQueue.Policy>)
    requires HasRows(s, slots, m)
    ensures |queue| == |slots|
    ensures forall i :: 0 <= i < |queue| ==> queue[i] == PolicyIn(s, slots[i], m)
  {
    seq(|slots|, i requires 0 <= i < |slots| => PolicyIn(s, slots[i], m))
  }

  // ---------- verdicts ----------

  type Layouts = map<Minion, Slots>

  predicate AreLayouts(s: State, layouts: Layouts) {
    forall m :: m in layouts ==> HasRows(s, layouts[m], m)
  }

  predicate IsCandidateRow(s: State, t: TaskId, m: Minion) {
    RowKey(t, m) in s.rows && IsCandidate(s.rows[RowKey(t, m)].status)
  }

  /** resolve_execution_status among the active predecessors. */
  function VerdictFor(s: State, t: TaskId, slots: Slots, m: Minion, statuses: map<TaskId, TaskStatus>): Option<Status>
    requires HasRows(s, slots, m)
  {
    PolicyQueue.Resolve(PolicyQueue.Considered(QueueIn(s, slots, m), t, statuses), t)
  }

  /** The candidates whose policy is in their queue. */
  function Judged(s: State, t: TaskId, layouts: Layouts, statuses: map<TaskId, TaskStatus>): set<Minion>
    requires AreLayouts(s, layouts)
  {
    set m | m in layouts && IsCandidateRow(s, t, m) && VerdictFor(s, t, layouts[m], m, statuses).Some?
  }

  function Verdicts(s: State, t: TaskId, layouts: Layouts, statuses: map<TaskId, TaskStatus>): map<Minion, Status>
    requires AreLayouts(s, layouts)
  {
    map m | m in Judged(s, t, layouts, statuses) :: VerdictFor(s, t, layouts[m], m, statuses).value
  }

  /** The verdicts on the candidates that are not left. */
  ghost predicate AreVerdictsBut(
    s: State, t: TaskId, layouts: Layouts, statuses: map<TaskId, TaskStatus>, left: set<Minion>,
    verdicts: map<Minion, Status>)
    requires AreLayouts(s, layouts)
  {
    && verdicts.Keys == Judged(s, t, layouts, statuses) - left
    && forall m :: m in verdicts ==> Some(verdicts[m]) == VerdictFor(s, t, layouts[m], m, statuses)
  }

  lemma OneMoreVerdict(
    s: State, t: TaskId, layouts: Layouts, statuses: map<TaskId, TaskStatus>, left: set<Minion>,
    verdicts: map<Minion, Status>, m: Minion)
    requires AreLayouts(s, layouts) && m in layouts && IsCandidateRow(s, t, m) && m !in left
    requires AreVerdictsBut(s, t, layouts, statuses, left + {m}, verdicts)
    ensures
      match VerdictFor(s, t, layouts[m], m, statuses)
      case None => AreVerdictsBut(s, t, layouts, statuses, left, verdicts)
      case Some(verdict) => AreVerdictsBut(s, t, layouts, statuses, left, verdicts[m := verdict])
  {
  }

  lemma AllVerdicts(
    s: State, t: TaskId, layouts: Layouts, statuses: map<TaskId, TaskStatus>, verdicts: map<Minion, Status>)
    requires AreLayouts(s, layouts) && AreVerdictsBut(s, t, layouts, statuses, {}, verdicts)
    ensures verdicts == Verdicts(s, t, layouts, statuses)
  {
  }

  lemma VerdictsAreCandidates(s: State, t: TaskId, layouts: Layouts, statuses: map<TaskId, TaskStatus>)
    requires AreLayouts(s, layouts)
    ensures forall m :: m in Verdicts(s, t, layouts, statuses) ==> IsCandidate(Verdicts(s, t, layouts, statuses)[m])
  {
  }

  /** Without an inactive predecessor a verdict is the one of the whole queue. */
  lemma ActiveVerdict(s: State, t: TaskId, slots: Slots, m: Minion, statuses: map<TaskId, TaskStatus>)
    requires HasRows(s, slots, m)
    requires forall slot :: slot in slots ==> slot.task in statuses && statuses[slot.task] in {WaitMinions, Running}
    ensures VerdictFor(s, t, slots, m, statuses) == PolicyQueue.Resolve(QueueIn(s, slots, m), t)
  {
    var queue := QueueIn(s, slots, m);
    forall p | p in queue
      ensures p.id in statuses && statuses[p.id] in {WaitMinions, Running}
    {
      var i :| 0 <= i < |queue| && queue[i] == p;
      assert slots[i] in slots;
    }
    PolicyQueue.RunningTasksAreConsidered(queue, t, statuses);
  }
}
