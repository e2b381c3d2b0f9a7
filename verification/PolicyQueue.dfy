/**
 The queue of policies of one minion
 (resolve_execution_status and is_active_predecessor in saltbox_core/tasks/policy_ordering.py,
 driven by saltbox_core/tasks/services/tasks_lifespan.py).
 */
module PolicyQueue {
  import opened Wrappers
  import opened Graphs
  import opened Sequences
  import opened PolicyOrdering
  import opened TaskStatuses

  /**
   A policy in the queue of the minion: what it requires, how far it is, how many jobs it has started, how many of
   them have a return record (`count_runs`), and whether its minion was pinged for it.
   */
  datatype Policy = Policy(
    id: Id, requirements: seq<Requirement>, maxRetries: nat, status: Status, started: nat, counted: nat, pinged: bool)

  predicate IsResolved(status: Status) {
    status in {Success, Failed, Unreachable}
  }

  // ---------- resolve_execution_status ----------

  function IndexOf(queue: seq<Policy>, id: Id): (r: Option<nat>)
    ensures r.Some? ==> r.value < |queue| && queue[r.value].id == id
    ensures r.Some? ==> forall j :: 0 <= j < r.value ==> queue[j].id != id
    ensures r.None? ==> forall p :: p in queue ==> p.id != id
  {
    if queue == [] then None
    else if queue[0].id == id then Some(0)
    else
      match IndexOf(queue[1..], id)
      case Some(i) => Some(i + 1)
      case None => None
  }

  predicate AllResolved(queue: seq<Policy>) {
    forall p :: p in queue ==> IsResolved(p.status)
  }

  /** The status is one that the requirement asks for. */
  predicate Accepts(r: Requirement, status: Status) {
    match r.resultType
    case OnlySuccess => status == Success
    case OnlyFailed => status == Failed
    case AnyResult => status in {Success, Failed}
  }

  predicate IsSatisfied(queue: seq<Policy>, r: Requirement) {
    var at := IndexOf(queue, r.taskId);
    at.Some? && Accepts(r, queue[at.value].status)
  }

  predicate AllSatisfied(queue: seq<Policy>, requirements: seq<Requirement>) {
    forall r :: r in requirements ==> IsSatisfied(queue, r)
  }

  /** resolve_execution_status; ids in a queue are distinct. */
  function Resolve(queue: seq<Policy>, id: Id): Option<Status> {
    match IndexOf(queue, id)
    case None => None
    case Some(i) =>
      Some(if !AllResolved(queue[..i]) then Blocked
           else if AllSatisfied(queue, queue[i].requirements) then Pending
           else Unreachable)
  }

  predicate IsActivePredecessor(task: TaskStatus, minion: Status) {
    task in {WaitMinions, Running, Stopping} && (task == Stopping ==> minion == InWork)
  }

  /** The policies a policy is evaluated among: itself and the active ones. */
  function Considered(queue: seq<Policy>, id: Id, tasks: map<Id, TaskStatus>): seq<Policy> {
    if queue == [] then []
    else
      (if queue[0].id == id || (queue[0].id in tasks && IsActivePredecessor(tasks[queue[0].id], queue[0].status))
       then [queue[0]] else [])
      + Considered(queue[1..], id, tasks)
  }

  /**
   A policy is considered when it is the one in question, its task waits for minions or runs, or its task is stopping
   and it is in work; of tasks in other states, or unknown ones, nothing is. Nothing is considered twice.
   */
  lemma {:induction false} ConsideredExactly(queue: seq<Policy>, id: Id, tasks: map<Id, TaskStatus>, p: Policy)
    ensures multiset(Considered(queue, id, tasks))[p] ==
      if p.id == id || (p.id in tasks && (tasks[p.id] == WaitMinions || tasks[p.id] == Running
                                          || (tasks[p.id] == Stopping && p.status == InWork)))
      then multiset(queue)[p] else 0
  {
    if queue != [] {
      ConsideredExactly(queue[1..], id, tasks, p);
      assert queue == [queue[0]] + queue[1..];
    }
  }

  lemma FirstIsConsideredFirst(p: Policy, rest: seq<Policy>, id: Id, tasks: map<Id, TaskStatus>)
    ensures Considered([p] + rest, id, tasks) == Considered([p], id, tasks) + Considered(rest, id, tasks)
  {
    assert ([p] + rest)[1..] == rest && [p][1..] == [];
    assert Considered([], id, tasks) == [];
  }

  /** The policies that are considered stand in the order of the queue. */
  lemma {:induction false} ConsideredKeepsOrder(
    first: seq<Policy>, second: seq<Policy>, id: Id, tasks: map<Id, TaskStatus>)
    ensures Considered(first + second, id, tasks) == Considered(first, id, tasks) + Considered(second, id, tasks)
  {
    if first == [] {
      assert first + second == second;
    } else {
      ConsideredKeepsOrder(first[1..], second, id, tasks);
      FirstIsConsideredFirst(first[0], first[1..], id, tasks);
      FirstIsConsideredFirst(first[0], first[1..] + second, id, tasks);
      assert first == [first[0]] + first[1..] && first + second == [first[0]] + (first[1..] + second);
    }
  }

  /** While every task of the queue runs or waits for minions, nothing is filtered out. */
  lemma {:induction false} RunningTasksAreConsidered(queue: seq<Policy>, id: Id, tasks: map<Id, TaskStatus>)
    requires forall p :: p in queue ==> p.id in tasks && tasks[p.id] in {WaitMinions, Running}
    ensures Considered(queue, id, tasks) == queue
  {
    if queue != [] {
      assert queue[0] in queue;
      RunningTasksAreConsidered(queue[1..], id, tasks);
    }
  }

  // ---------- what happens to a queue ----------

  /** What can happen to the row of a policy. */
  datatype Step =
    | Evaluate(id: Id)
    | Tick(id: Id, heldElsewhere: bool, due: bool)
    | Ping(id: Id, heldElsewhere: bool)
    | Announce(id: Id)
    | Return(id: Id, ok: bool)
    | TimeOut(id: Id)
    | Error(id: Id)
    | Release(id: Id)
    | Revert(id: Id)

  /** check_policy_requirements_task_minions for one row */
  function Evaluated(queue: seq<Policy>, i: nat): Policy
    requires i < |queue|
  {
    var p := queue[i];
    if p.status in {Pending, Blocked, Unreachable} then p.(status := Resolve(queue, p.id).value) else p
  }

  /** check_busy_task_minions for one row */
  function Parked(p: Policy, heldElsewhere: bool): Policy {
    if p.status == Pending && heldElsewhere then p.(status := Busy)
    else if p.status == Busy && !heldElsewhere then p.(status := Pending)
    else p
  }

  /** create_job for one row */
  function Started(p: Policy, due: bool): Policy {
    if p.status == Pending && due then p.(status := InWork, started := p.started + 1) else p
  }

  /** check_unactive_minions for one row */
  function Pinged(p: Policy): Policy {
    if p.status == Pending then p.(pinged := true) else p
  }

  /** Whether a run that did not succeed is tried again. */
  function Retried(p: Policy): Policy {
    p.(status := if p.counted >= p.maxRetries then Failed else Pending)
  }

  /** process_task_job_return: a return of any of the jobs, early or late, whatever the status of the row. */
  function Returned(p: Policy, ok: bool): Policy {
    if p.counted == 0 then p
    else if ok then p.(status := Success)
    else Retried(p)
  }

  /** The policy the step is about, after it. */
  function Stepped(queue: seq<Policy>, step: Step, i: nat): Policy
    requires i < |queue|
  {
    var p := queue[i];
    match step
    case Evaluate(_) => Evaluated(queue, i)
    case Tick(_, held, due) => Started(Parked(Evaluated(queue, i), held), due)
    // the new-job event of the last job
    case Announce(_) => if p.counted < p.started then p.(counted := p.counted + 1) else p
    case Return(_, ok) => Returned(p, ok)
    case TimeOut(_) => if p.counted == 0 || p.status == Pending then p else Retried(p)
    // a tick that finds the minion inactive: check_unactive_minions takes the row if it is pending by then
    case Ping(_, held) => Pinged(Parked(Evaluated(queue, i), held))
    // process_task_job_error, for a job or a ping, without a look at the status or the retries
    case Error(_) => if p.started == 0 && !p.pinged then p else p.(status := Failed)
    case Release(_) => if p.status == InWork then Retried(p) else p
    // the launch fails after the job was stored
    case Revert(_) => if p.status == InWork && p.counted < p.started then p.(status := Pending) else p
  }

  function AfterStep(queue: seq<Policy>, step: Step): (after: seq<Policy>)
    ensures |after| == |queue|
  {
    match IndexOf(queue, step.id)
    case None => queue
    case Some(i) => queue[i := Stepped(queue, step, i)]
  }

  function AfterSteps(queue: seq<Policy>, steps: seq<Step>): (after: seq<Policy>)
    ensures |after| == |queue|
  {
    if steps == [] then queue
    else AfterStep(AfterSteps(queue, steps[..|steps| - 1]), steps[|steps| - 1])
  }

  // ---------- well-ordered queues ----------

  function ItemsOf(queue: seq<Policy>): (r: seq<Item>)
    ensures |r| == |queue|
    ensures forall i :: 0 <= i < |r| ==> r[i] == Item(queue[i].id, 0, queue[i].requirements)
  {
    seq(|queue|, i requires 0 <= i < |queue| => Item(queue[i].id, 0, queue[i].requirements))
  }

  ghost predicate IsStuckAt(queue: seq<Policy>, i: nat)
    requires i < |queue|
  {
    IsStuck(ItemsOf(queue), queue[i].id)
  }

  predicate Names(queue: seq<Policy>, id: Id) {
    exists p :: p in queue && p.id == id
  }

  predicate RequirementsBefore(queue: seq<Policy>, i: nat)
    requires i < |queue|
  {
    forall r :: r in queue[i].requirements && Names(queue, r.taskId) ==> Names(queue[..i], r.taskId)
  }

  /** No id twice; every policy stands behind what it requires, unless its requirements lead into a cycle. */
  ghost predicate WellOrdered(queue: seq<Policy>) {
    && DistinctIds(ItemsOf(queue))
    && forall i :: 0 <= i < |queue| ==> IsStuckAt(queue, i) || RequirementsBefore(queue, i)
  }

  lemma {:induction false} FoundAt(queue: seq<Policy>, i: nat)
    requires DistinctIds(ItemsOf(queue)) && i < |queue|
    ensures IndexOf(queue, queue[i].id) == Some(i)
  {
    assert queue[i] in queue;
    var j := IndexOf(queue, queue[i].id).value;
    assert Ids(ItemsOf(queue))[i] == Ids(ItemsOf(queue))[j];
  }

  /** A policy of the queue has the result that the requirement asks for. */
  predicate IsMet(queue: seq<Policy>, r: Requirement) {
    exists p :: p in queue && p.id == r.taskId &&
      match r.resultType
      case OnlySuccess => p.status == Success
      case OnlyFailed => p.status == Failed
      case AnyResult => p.status == Success || p.status == Failed
  }

  lemma AllSatisfiedIsMet(queue: seq<Policy>, requirements: seq<Requirement>)
    requires DistinctIds(ItemsOf(queue))
    ensures AllSatisfied(queue, requirements) <==> forall r :: r in requirements ==> IsMet(queue, r)
  {
    forall r
      ensures IsSatisfied(queue, r) <==> IsMet(queue, r)
    {
      SatisfiedIsMet(queue, r);
    }
  }

  lemma SatisfiedIsMet(queue: seq<Policy>, r: Requirement)
    requires DistinctIds(ItemsOf(queue))
    ensures IsSatisfied(queue, r) <==> IsMet(queue, r)
  {
    forall p | p in queue && p.id == r.taskId
      ensures IndexOf(queue, r.taskId).Some? && queue[IndexOf(queue, r.taskId).value] == p
    {
      var i :| 0 <= i < |queue| && queue[i] == p;
      FoundAt(queue, i);
    }
    if IsSatisfied(queue, r) {
      assert queue[IndexOf(queue, r.taskId).value] in queue;
    }
  }

  /** An earlier policy without a result blocks; otherwise the requirements decide between pending and unreachable. */
  lemma ResolvesExactly(queue: seq<Policy>, i: nat)
    requires DistinctIds(ItemsOf(queue)) && i < |queue|
    ensures
      var verdict := Resolve(queue, queue[i].id);
      var isTurn := forall j :: 0 <= j < i ==> queue[j].status in {Success, Failed, Unreachable};
      && (verdict == Some(Blocked) <==> !isTurn)
      && (verdict == Some(Pending) <==> isTurn && forall r :: r in queue[i].requirements ==> IsMet(queue, r))
      && (verdict == Some(Unreachable) <==> isTurn && exists r :: r in queue[i].requirements && !IsMet(queue, r))
  {
    FoundAt(queue, i);
    AllSatisfiedIsMet(queue, queue[i].requirements);
    forall j | 0 <= j < i
      ensures queue[j] in queue[..i]
    {
      assert queue[..i][j] == queue[j];
    }
  }

  lemma StuckRequiresStuck(queue: seq<Policy>, i: nat) returns (r: Requirement, k: nat)
    requires DistinctIds(ItemsOf(queue)) && i < |queue| && IsStuckAt(queue, i)
    ensures r in queue[i].requirements && k < |queue| && queue[k].id == r.taskId && IsStuckAt(queue, k)
  {
    var items := ItemsOf(queue);
    var g := RequirementGraph(items);
    LeadsOn(g, queue[i].id);
    var b :| Edge(g, queue[i].id, b) && LeadsToCycle(g, b);
    RequirementsAt(items, i);
    r :| r in queue[i].requirements && r.taskId == b;
    k :| 0 <= k < |items| && Ids(items)[k] == b;
  }

  // ---------- the invariant ----------

  /** The policy has been started or pinged, held back for its turn, or given an outcome. */
  predicate IsTouched(p: Policy) {
    p.status in {Busy, InWork, Success, Failed} || p.started > 0 || p.pinged
  }

  ghost predicate IsConsistentAt(queue: seq<Policy>, i: nat)
    requires i < |queue|
  {
    var p := queue[i];
    && p.counted <= p.started
    && (IsTouched(p) ==> AllResolved(queue[..i]) && AllSatisfied(queue, p.requirements))
    && (p.status == Unreachable ==> AllResolved(queue[..i]) && !AllSatisfied(queue, p.requirements))
    && (IsStuckAt(queue, i) ==> !IsTouched(p))
  }

  ghost predicate Consistent(queue: seq<Policy>) {
    WellOrdered(queue) && forall i :: 0 <= i < |queue| ==> IsConsistentAt(queue, i)
  }

  /** Policies whose requirements lead into a cycle have never run; this needs no order of the queue. */
  ghost predicate StuckAreUntouched(queue: seq<Policy>) {
    && DistinctIds(ItemsOf(queue))
    && forall i :: 0 <= i < |queue| && IsStuckAt(queue, i) ==> !IsTouched(queue[i]) && queue[i].counted == 0
  }

  /** Nothing has been decided or started yet. */
  predicate IsFresh(queue: seq<Policy>) {
    forall p :: p in queue ==> p.status == Pending && p.started == 0 && p.counted == 0 && !p.pinged
  }

  lemma FreshIsConsistent(queue: seq<Policy>)
    requires WellOrdered(queue) && IsFresh(queue)
    ensures Consistent(queue)
  {
    assert forall i :: 0 <= i < |queue| ==> queue[i] in queue;
  }

  /** A stuck policy is never evaluated to pending: one of its requirements is stuck too, so has not run. */
  lemma StuckIsUnsatisfied(queue: seq<Policy>, i: nat)
    requires StuckAreUntouched(queue) && i < |queue| && IsStuckAt(queue, i)
    ensures !AllSatisfied(queue, queue[i].requirements)
  {
    var r, k := StuckRequiresStuck(queue, i);
    FoundAt(queue, k);
    assert !IsSatisfied(queue, r);
  }

  lemma ConsistentLeavesStuck(queue: seq<Policy>)
    requires Consistent(queue)
    ensures StuckAreUntouched(queue)
  {
    forall i | 0 <= i < |queue| && IsStuckAt(queue, i)
      ensures !IsTouched(queue[i]) && queue[i].counted == 0
    {
      assert IsConsistentAt(queue, i);
    }
  }

  // ---------- every step keeps the invariant ----------

  /** Steps change nothing of a policy but its status and its counts. */
  predicate IsSamePolicy(p: Policy, q: Policy) {
    p == q.(status := p.status, started := p.started, counted := p.counted, pinged := p.pinged)
  }

  /** The step changes at most the status and the counts of one policy. */
  lemma {:induction false} StepChangesOne(queue: seq<Policy>, step: Step) returns (i: nat)
    requires DistinctIds(ItemsOf(queue)) && Names(queue, step.id)
    ensures i < |queue| && queue[i].id == step.id && IndexOf(queue, step.id) == Some(i)
    ensures AfterStep(queue, step) == queue[i := Stepped(queue, step, i)]
    ensures IsSamePolicy(Stepped(queue, step, i), queue[i])
  {
    i := IndexOf(queue, step.id).value;
    SteppedShape(queue, step, i);
  }

  lemma {:induction false} SteppedShape(queue: seq<Policy>, step: Step, i: nat)
    requires i < |queue|
    ensures IsSamePolicy(Stepped(queue, step, i), queue[i])
  {
  }

  lemma ChangeKeepsShape(queue: seq<Policy>, i: nat, p: Policy)
    requires i < |queue| && p.id == queue[i].id && p.requirements == queue[i].requirements
    ensures ItemsOf(queue[i := p]) == ItemsOf(queue)
    ensures forall id :: Names(queue[i := p], id) <==> Names(queue, id)
  {
    var after := queue[i := p];
    assert forall k :: 0 <= k < |queue| ==> ItemsOf(after)[k] == ItemsOf(queue)[k];
    forall id
      ensures Names(after, id) <==> Names(queue, id)
    {
      if q :| q in queue && q.id == id {
        var k :| 0 <= k < |queue| && queue[k] == q;
        assert after[k] in after && after[k].id == id;
      }
      if q :| q in after && q.id == id {
        var k :| 0 <= k < |after| && after[k] == q;
        assert queue[k] in queue && queue[k].id == id;
      }
    }
  }

  lemma ChangeKeepsWellOrdered(queue: seq<Policy>, i: nat, p: Policy)
    requires WellOrdered(queue)
    requires i < |queue| && p.id == queue[i].id && p.requirements == queue[i].requirements
    ensures WellOrdered(queue[i := p])
  {
    var after := queue[i := p];
    ChangeKeepsShape(queue, i, p);
    forall k | 0 <= k < |after|
      ensures IsStuckAt(after, k) || RequirementsBefore(after, k)
    {
      assert IsStuckAt(queue, k) || RequirementsBefore(queue, k);
      if RequirementsBefore(queue, k) {
        forall r | r in after[k].requirements && Names(after, r.taskId)
          ensures Names(after[..k], r.taskId)
        {
          if i < k {
            ChangeKeepsShape(queue[..k], i, p);
            assert after[..k] == queue[..k][i := p];
          } else {
            assert after[..k] == queue[..k];
          }
        }
      }
    }
  }

  /** The order of a queue is one of ids and requirements. */
  lemma SameItemsAreWellOrdered(queue: seq<Policy>, other: seq<Policy>)
    requires WellOrdered(queue) && ItemsOf(other) == ItemsOf(queue)
    ensures WellOrdered(other)
  {
    forall k | 0 <= k < |other|
      ensures IsStuckAt(other, k) || RequirementsBefore(other, k)
    {
      assert ItemsOf(queue)[k] == ItemsOf(other)[k];
      assert IsStuckAt(queue, k) || RequirementsBefore(queue, k);
      if RequirementsBefore(queue, k) {
        forall r | r in other[k].requirements && Names(other, r.taskId)
          ensures Names(other[..k], r.taskId)
        {
          SameNames(other, queue, |queue|, r.taskId);
          SameNames(queue, other, k, r.taskId);
        }
      }
    }
  }

  lemma {:induction false} SameNames(queue: seq<Policy>, other: seq<Policy>, n: nat, id: Id)
    requires ItemsOf(other) == ItemsOf(queue) && n <= |queue| && Names(queue[..n], id)
    ensures Names(other[..n], id) && queue[..|queue|] == queue && other[..|other|] == other
  {
    var p :| p in queue[..n] && p.id == id;
    var k :| 0 <= k < n && queue[k] == p;
    assert ItemsOf(queue)[k] == ItemsOf(other)[k] && other[..n][k] in other[..n];
  }

  lemma {:induction false} SameIdsSameIndex(a: seq<Policy>, b: seq<Policy>, id: Id)
    requires |a| == |b| && forall k :: 0 <= k < |a| ==> a[k].id == b[k].id
    ensures IndexOf(a, id) == IndexOf(b, id)
  {
    if a != [] {
      SameIdsSameIndex(a[1..], b[1..], id);
    }
  }

  /** Requirements on policies other than the i-th are as they were. */
  lemma SatisfiedElsewhere(queue: seq<Policy>, i: nat, p: Policy, r: Requirement)
    requires i < |queue| && p.id == queue[i].id
    requires IndexOf(queue, r.taskId) != Some(i)
    ensures IsSatisfied(queue[i := p], r) <==> IsSatisfied(queue, r)
  {
    SameIdsSameIndex(queue[i := p], queue, r.taskId);
  }

  lemma RequirementsFoundBefore(queue: seq<Policy>, j: nat, r: Requirement)
    requires WellOrdered(queue) && j < |queue| && RequirementsBefore(queue, j) && r in queue[j].requirements
    ensures var at := IndexOf(queue, r.taskId); at.Some? ==> at.value < j
  {
    var at := IndexOf(queue, r.taskId);
    if at.Some? {
      assert queue[at.value] in queue && Names(queue, r.taskId);
      var q :| q in queue[..j] && q.id == r.taskId;
      var k :| 0 <= k < j && queue[k] == q;
      FoundAt(queue, k);
    }
  }

  lemma EarlierRequirementsStay(queue: seq<Policy>, i: nat, p: Policy, j: nat)
    requires WellOrdered(queue) && i < |queue| && p.id == queue[i].id
    requires j <= i && RequirementsBefore(queue, j)
    ensures AllSatisfied(queue[i := p], queue[j].requirements) <==> AllSatisfied(queue, queue[j].requirements)
  {
    forall r | r in queue[j].requirements
      ensures IsSatisfied(queue[i := p], r) <==> IsSatisfied(queue, r)
    {
      RequirementsFoundBefore(queue, j, r);
      SatisfiedElsewhere(queue, i, p, r);
    }
  }

  /** A stuck policy stays unsatisfied, whatever happens to one policy, as long as stuck ones stay untouched. */
  lemma StuckStaysUnsatisfied(queue: seq<Policy>, i: nat, p: Policy, j: nat)
    requires Consistent(queue) && i < |queue| && p.id == queue[i].id && p.requirements == queue[i].requirements
    requires IsStuckAt(queue, i) ==> !IsTouched(p)
    requires j < |queue| && IsStuckAt(queue, j)
    ensures !AllSatisfied(queue[i := p], queue[j].requirements)
  {
    var r, k := StuckRequiresStuck(queue, j);
    FoundAt(queue, k);
    SameIdsSameIndex(queue[i := p], queue, r.taskId);
    assert IsConsistentAt(queue, k);
    assert !IsSatisfied(queue[i := p], r);
  }

  lemma SameStatusSatisfies(queue: seq<Policy>, i: nat, p: Policy, r: Requirement)
    requires i < |queue| && p.id == queue[i].id && p.status == queue[i].status
    ensures IsSatisfied(queue[i := p], r) <==> IsSatisfied(queue, r)
  {
    SameIdsSameIndex(queue[i := p], queue, r.taskId);
  }

  lemma SameStatusResolved(queue: seq<Policy>, i: nat, p: Policy, j: nat)
    requires i < |queue| && j <= |queue| && p.status == queue[i].status
    ensures AllResolved(queue[i := p][..j]) <==> AllResolved(queue[..j])
  {
    var after := queue[i := p];
    if AllResolved(queue[..j]) {
      forall q | q in after[..j]
        ensures IsResolved(q.status)
      {
        var k :| 0 <= k < j && after[k] == q;
        assert queue[k] in queue[..j];
      }
    }
    if AllResolved(after[..j]) {
      forall q | q in queue[..j]
        ensures IsResolved(q.status)
      {
        var k :| 0 <= k < j && queue[k] == q;
        assert after[k] in after[..j];
      }
    }
  }

  /** A change that leaves a resolved policy its status leaves the others consistent. */
  lemma OthersStayConsistent(queue: seq<Policy>, i: nat, p: Policy, j: nat)
    requires Consistent(queue) && i < |queue| && p.id == queue[i].id && p.requirements == queue[i].requirements
    requires !IsResolved(queue[i].status) || p.status == queue[i].status
    requires IsStuckAt(queue, i) ==> !IsTouched(p)
    requires j < |queue| && j != i
    ensures IsConsistentAt(queue[i := p], j)
  {
    ChangeKeepsShape(queue, i, p);
    assert IsConsistentAt(queue, j);
    if p.status == queue[i].status {
      SameStatusResolved(queue, i, p, j);
      forall r
        ensures IsSatisfied(queue[i := p], r) <==> IsSatisfied(queue, r)
      {
        SameStatusSatisfies(queue, i, p, r);
      }
    } else if i < j {
      assert queue[i] in queue[..j];
    } else {
      EarlierStaysConsistent(queue, i, p, j);
    }
  }

  /** Whatever becomes of a policy, an earlier one stays consistent as long as it required nothing of it. */
  lemma EarlierStaysConsistent(queue: seq<Policy>, i: nat, p: Policy, j: nat)
    requires Consistent(queue) && i < |queue| && p.id == queue[i].id && p.requirements == queue[i].requirements
    requires IsStuckAt(queue, i) ==> !IsTouched(p)
    requires j < i
    ensures IsConsistentAt(queue[i := p], j)
  {
    var after := queue[i := p];
    ChangeKeepsShape(queue, i, p);
    assert IsConsistentAt(queue, j);
    assert after[..j] == queue[..j];
    if IsStuckAt(queue, j) {
      StuckStaysUnsatisfied(queue, i, p, j);
    } else {
      EarlierRequirementsStay(queue, i, p, j);
    }
  }

  lemma EvaluationIsConsistent(queue: seq<Policy>, i: nat)
    requires Consistent(queue) && i < |queue| && queue[i].status in {Pending, Blocked}
    ensures var s := Evaluated(queue, i).status;
            && (s == Pending <==> AllResolved(queue[..i]) && AllSatisfied(queue, queue[i].requirements))
            && (s == Unreachable <==> AllResolved(queue[..i]) && !AllSatisfied(queue, queue[i].requirements))
            && s in {Pending, Blocked, Unreachable}
            && (IsStuckAt(queue, i) ==> s != Pending)
  {
    FoundAt(queue, i);
    if IsStuckAt(queue, i) {
      ConsistentLeavesStuck(queue);
      StuckIsUnsatisfied(queue, i);
    }
  }

  /** The new state of the policy itself, by cases over what the step did. */
  lemma ChangedIsConsistent(queue: seq<Policy>, i: nat, p: Policy)
    requires Consistent(queue) && i < |queue| && IsJustified(queue, i, p)
    ensures IsConsistentAt(queue[i := p], i)
  {
    var after := queue[i := p];
    ChangeKeepsShape(queue, i, p);
    assert after[..i] == queue[..i];
    if IsStuckAt(queue, i) {
      StuckStaysUnsatisfied(queue, i, p, i);
    } else {
      EarlierRequirementsStay(queue, i, p, i);
    }
  }

  /** The policy may be started. */
  ghost predicate IsEligible(queue: seq<Policy>, i: nat)
    requires i < |queue|
  {
    !IsStuckAt(queue, i) && AllResolved(queue[..i]) && AllSatisfied(queue, queue[i].requirements)
  }

  /** The policy may be as `p` now: only an eligible one is touched, only an unsatisfied one given up. */
  ghost predicate IsJustified(queue: seq<Policy>, i: nat, p: Policy)
    requires i < |queue|
  {
    && IsSamePolicy(p, queue[i]) && p.counted <= p.started
    && (IsTouched(p) ==> IsEligible(queue, i))
    && (p.status == Unreachable ==> AllResolved(queue[..i]) && !AllSatisfied(queue, p.requirements))
  }

  lemma EvaluatedIsJustified(queue: seq<Policy>, i: nat)
    requires Consistent(queue) && i < |queue|
    ensures IsJustified(queue, i, Evaluated(queue, i))
    ensures Evaluated(queue, i).status == Pending ==> IsEligible(queue, i)
    ensures IsResolved(queue[i].status) ==> Evaluated(queue, i) == queue[i]
  {
    assert IsConsistentAt(queue, i);
    FoundAt(queue, i);
    if queue[i].status in {Pending, Blocked} {
      EvaluationIsConsistent(queue, i);
    }
  }

  lemma StartedIsJustified(queue: seq<Policy>, i: nat, p: Policy, held: bool, due: bool)
    requires i < |queue| && IsJustified(queue, i, p) && (p.status == Pending ==> IsEligible(queue, i))
    ensures IsJustified(queue, i, Started(Parked(p, held), due))
  {
  }

  /** A policy is touched, or given up, only on the grounds the invariant asks for. */
  lemma StepIsJustified(queue: seq<Policy>, step: Step, i: nat)
    requires Consistent(queue) && i < |queue|
    ensures IsJustified(queue, i, Stepped(queue, step, i))
  {
    assert IsConsistentAt(queue, i);
    match step
    case Evaluate(_) => EvaluatedIsJustified(queue, i);
    case Tick(_, held, due) =>
      EvaluatedIsJustified(queue, i);
      StartedIsJustified(queue, i, Evaluated(queue, i), held, due);
    case Ping(_, held) => EvaluatedIsJustified(queue, i);
    case _ =>
  }

  // ---------- outcomes that come late ----------

  /** The step is an outcome that changes the status of a policy that is resolved already. */
  predicate IsLateOutcome(p: Policy, step: Step) {
    match step
    case Return(_, ok) =>
      && p.counted > 0
      && if ok then p.status in {Failed, Unreachable}
         else p.status in {Success, Unreachable} || (p.status == Failed && p.counted < p.maxRetries)
    case TimeOut(_) =>
      p.counted > 0 && (p.status in {Success, Unreachable} || (p.status == Failed && p.counted < p.maxRetries))
    case Error(_) => (p.started > 0 || p.pinged) && p.status in {Success, Unreachable}
    case _ => false
  }

  predicate Evaluates(step: Step) {
    step.Evaluate? || step.Tick? || step.Ping?
  }

  /**
   A resolved policy gets another status exactly by a late outcome: nothing guards against one. In a queue whose order
   was broken before, an evaluation can change an unreachable one, too.
   */
  lemma ResolvedChangesOnlyLate(queue: seq<Policy>, step: Step, i: nat)
    requires i < |queue| && IsResolved(queue[i].status)
    requires Evaluates(step) ==> Consistent(queue) || queue[i].status != Unreachable
    ensures Stepped(queue, step, i).status != queue[i].status <==> IsLateOutcome(queue[i], step)
  {
    if Evaluates(step) && queue[i].status == Unreachable {
      EvaluatedIsJustified(queue, i);
    }
  }

  predicate IsLateIn(queue: seq<Policy>, step: Step) {
    match IndexOf(queue, step.id)
    case None => false
    case Some(i) => IsLateOutcome(queue[i], step)
  }

  /** Every outcome of the run came before the policy was resolved, or confirmed its result. */
  ghost predicate NoneIsLate(queue: seq<Policy>, steps: seq<Step>) {
    steps == [] || (
      var n := |steps| - 1;
      NoneIsLate(queue, steps[..n]) && !IsLateIn(AfterSteps(queue, steps[..n]), steps[n]))
  }

  lemma StepKeepsConsistent(queue: seq<Policy>, step: Step)
    requires Consistent(queue) && !IsLateIn(queue, step)
    ensures Consistent(AfterStep(queue, step))
  {
    if IndexOf(queue, step.id).Some? {
      assert queue[IndexOf(queue, step.id).value] in queue;
      var i := StepChangesOne(queue, step);
      StepIsJustified(queue, step, i);
      if IsResolved(queue[i].status) {
        ResolvedChangesOnlyLate(queue, step, i);
      }
      OneChangeKeepsConsistent(queue, i, Stepped(queue, step, i));
    }
  }

  lemma OneChangeKeepsConsistent(queue: seq<Policy>, i: nat, p: Policy)
    requires Consistent(queue) && i < |queue| && IsJustified(queue, i, p)
    requires !IsResolved(queue[i].status) || p.status == queue[i].status
    ensures Consistent(queue[i := p])
  {
    ChangedIsConsistent(queue, i, p);
    ChangeKeepsWellOrdered(queue, i, p);
    var after := queue[i := p];
    forall j | 0 <= j < |after| && j != i
      ensures IsConsistentAt(after, j)
    {
      OthersStayConsistent(queue, i, p, j);
    }
  }

  // ---------- every run, late outcomes included ----------

  /** A run is its first steps and then the rest. */
  lemma {:induction false} RunsOn(queue: seq<Policy>, steps: seq<Step>, more: seq<Step>)
    ensures AfterSteps(queue, steps + more) == AfterSteps(AfterSteps(queue, steps), more)
    decreases |more|
  {
    if more == [] {
      assert steps + more == steps;
    } else {
      var n := |more| - 1;
      assert (steps + more)[..|steps + more| - 1] == steps + more[..n];
      RunsOn(queue, steps, more[..n]);
    }
  }

  lemma StepKeepsPolicies(queue: seq<Policy>, step: Step)
    requires DistinctIds(ItemsOf(queue))
    ensures |AfterStep(queue, step)| == |queue|
    ensures forall i :: 0 <= i < |queue| ==> IsSamePolicy(AfterStep(queue, step)[i], queue[i])
    ensures ItemsOf(AfterStep(queue, step)) == ItemsOf(queue)
    ensures WellOrdered(queue) ==> WellOrdered(AfterStep(queue, step))
  {
    if IndexOf(queue, step.id).Some? {
      assert queue[IndexOf(queue, step.id).value] in queue;
      var i := StepChangesOne(queue, step);
      ChangeKeepsShape(queue, i, Stepped(queue, step, i));
      if WellOrdered(queue) {
        ChangeKeepsWellOrdered(queue, i, Stepped(queue, step, i));
      }
    }
  }

  lemma {:induction false} RunKeepsPolicies(queue: seq<Policy>, steps: seq<Step>)
    requires DistinctIds(ItemsOf(queue))
    ensures |AfterSteps(queue, steps)| == |queue|
    ensures forall i :: 0 <= i < |queue| ==> IsSamePolicy(AfterSteps(queue, steps)[i], queue[i])
    ensures ItemsOf(AfterSteps(queue, steps)) == ItemsOf(queue)
    ensures WellOrdered(queue) ==> WellOrdered(AfterSteps(queue, steps))
  {
    if steps != [] {
      var n := |steps| - 1;
      RunKeepsPolicies(queue, steps[..n]);
      StepKeepsPolicies(AfterSteps(queue, steps[..n]), steps[n]);
    }
  }

  /** A stuck policy has no outcome to come late, and no evaluation frees it. */
  lemma StepLeavesStuck(queue: seq<Policy>, step: Step)
    requires StuckAreUntouched(queue)
    ensures StuckAreUntouched(AfterStep(queue, step))
  {
    StepKeepsPolicies(queue, step);
    if IndexOf(queue, step.id).Some? {
      assert queue[IndexOf(queue, step.id).value] in queue;
      var i := StepChangesOne(queue, step);
      if IsStuckAt(queue, i) {
        StuckStaysUntouched(queue, step, i);
      }
    }
  }

  lemma StuckStaysUntouched(queue: seq<Policy>, step: Step, i: nat)
    requires StuckAreUntouched(queue) && i < |queue| && IsStuckAt(queue, i)
    ensures !IsTouched(Stepped(queue, step, i)) && Stepped(queue, step, i).counted == 0
  {
    StuckIsUnsatisfied(queue, i);
    FoundAt(queue, i);
  }

  lemma {:induction false} RunLeavesStuck(queue: seq<Policy>, steps: seq<Step>)
    requires StuckAreUntouched(queue)
    ensures StuckAreUntouched(AfterSteps(queue, steps))
  {
    if steps != [] {
      var n := |steps| - 1;
      RunLeavesStuck(queue, steps[..n]);
      StepLeavesStuck(AfterSteps(queue, steps[..n]), steps[n]);
    }
  }

  /** Over every run at all a policy whose requirements lead into a cycle is never started or parked. */
  lemma StuckNeverStarts(queue: seq<Policy>, steps: seq<Step>, i: nat)
    requires DistinctIds(ItemsOf(queue)) && IsFresh(queue) && i < |queue| && IsStuckAt(queue, i)
    ensures i < |AfterSteps(queue, steps)| && !IsTouched(AfterSteps(queue, steps)[i])
  {
    assert forall k :: 0 <= k < |queue| ==> queue[k] in queue;
    RunKeepsPolicies(queue, steps);
    RunLeavesStuck(queue, steps);
  }

  // ---------- every run without late outcomes ----------

  /** Runs without late outcomes keep the invariant. */
  lemma {:induction false} RunKeepsConsistent(queue: seq<Policy>, steps: seq<Step>)
    requires Consistent(queue) && NoneIsLate(queue, steps)
    ensures Consistent(AfterSteps(queue, steps)) && |AfterSteps(queue, steps)| == |queue|
  {
    if steps != [] {
      var n := |steps| - 1;
      RunKeepsConsistent(queue, steps[..n]);
      StepKeepsConsistent(AfterSteps(queue, steps[..n]), steps[n]);
    }
  }

  /** Every step but a late outcome leaves a resolved policy its status. */
  lemma StepKeepsResolved(queue: seq<Policy>, step: Step, i: nat)
    requires Consistent(queue) && !IsLateIn(queue, step) && i < |queue|
    ensures |AfterStep(queue, step)| == |queue| && IsSamePolicy(AfterStep(queue, step)[i], queue[i])
    ensures IsResolved(queue[i].status) ==> AfterStep(queue, step)[i].status == queue[i].status
  {
    if IndexOf(queue, step.id).Some? {
      assert queue[IndexOf(queue, step.id).value] in queue;
      var k := StepChangesOne(queue, step);
      if k == i && IsResolved(queue[i].status) {
        ResolvedChangesOnlyLate(queue, step, i);
      }
    }
  }

  lemma {:induction false} ResolvedIsFinal(queue: seq<Policy>, steps: seq<Step>, i: nat)
    requires Consistent(queue) && NoneIsLate(queue, steps) && i < |queue|
    ensures |AfterSteps(queue, steps)| == |queue| && IsSamePolicy(AfterSteps(queue, steps)[i], queue[i])
    ensures IsResolved(queue[i].status) ==> AfterSteps(queue, steps)[i].status == queue[i].status
  {
    if steps != [] {
      var n := |steps| - 1;
      ResolvedIsFinal(queue, steps[..n], i);
      RunKeepsConsistent(queue, steps[..n]);
      StepKeepsResolved(AfterSteps(queue, steps[..n]), steps[n], i);
    }
  }

  /**
   From a queue that is in order, as a fresh one is, after any steps without a late outcome: whatever has ever been
   started stands behind resolved policies only, has all its requirements satisfied, and does not lead into a cycle.
   */
  lemma PoliciesRunInOrder(queue: seq<Policy>, steps: seq<Step>, i: nat)
    requires Consistent(queue) && NoneIsLate(queue, steps) && i < |queue|
    ensures var after := AfterSteps(queue, steps);
            && i < |after|
            && (IsTouched(after[i]) ==>
                  AllResolved(after[..i]) && AllSatisfied(after, after[i].requirements) && !IsStuckAt(queue, i))
  {
    RunKeepsConsistent(queue, steps);
    RunKeepsPolicies(queue, steps);
    assert IsConsistentAt(AfterSteps(queue, steps), i);
  }

  /** When all is resolved, a policy is unreachable exactly when a requirement of it is met by no policy. */
  lemma VerdictIsRight(queue: seq<Policy>, steps: seq<Step>, i: nat)
    requires Consistent(queue) && NoneIsLate(queue, steps) && i < |queue|
    requires AllResolved(AfterSteps(queue, steps))
    ensures var after := AfterSteps(queue, steps);
            after[i].status == Unreachable <==> exists r :: r in queue[i].requirements && !IsMet(after, r)
  {
    RunKeepsConsistent(queue, steps);
    RunKeepsPolicies(queue, steps);
    var after := AfterSteps(queue, steps);
    assert IsConsistentAt(after, i) && after[i] in after;
    AllSatisfiedIsMet(after, queue[i].requirements);
  }
}
