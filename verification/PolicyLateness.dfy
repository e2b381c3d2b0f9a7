/** What breaks the order of the queue of policies of one minion, and when exactly. */
module PolicyLateness {
  import opened Wrappers
  import opened Graphs
  import opened Sequences
  import opened PolicyOrdering
  import opened TaskStatuses
  import opened PolicyQueue

  // ---------- starts ----------

  /** The policy may be started by the rules: all before it are resolved and its requirements are satisfied. */
  predicate IsInTurn(queue: seq<Policy>, i: nat)
    requires i < |queue|
  {
    AllResolved(queue[..i]) && AllSatisfied(queue, queue[i].requirements)
  }

  predicate IsStart(queue: seq<Policy>, step: Step, i: nat)
    requires i < |queue|
  {
    Stepped(queue, step, i).started > queue[i].started
  }

  /**
   Over every queue with distinct ids, whatever has happened to it: a job starts exactly in a tick that finds the
   minion free and the policy in its turn, or held back by another task before: such a policy is started without a
   look at the queue, so a start is out of turn exactly when one is freed that is not in its turn any more.
   */
  lemma {:induction false} StartsInTurnUnlessHeldBack(queue: seq<Policy>, step: Step, i: nat)
    requires DistinctIds(ItemsOf(queue)) && i < |queue|
    ensures IsStart(queue, step, i) <==>
      && step.Tick? && !step.heldElsewhere && step.due
      && (queue[i].status == Busy || (queue[i].status in {Pending, Blocked, Unreachable} && IsInTurn(queue, i)))
    ensures IsStart(queue, step, i) && !IsInTurn(queue, i) <==>
      step.Tick? && !step.heldElsewhere && step.due && queue[i].status == Busy && !IsInTurn(queue, i)
  {
    FoundAt(queue, i);
  }

  predicate IsPing(queue: seq<Policy>, step: Step, i: nat)
    requires i < |queue|
  {
    Stepped(queue, step, i).pinged && !queue[i].pinged
  }

  /** The same of the ping that a tick sends to an inactive minion. */
  lemma {:induction false} PingsInTurnUnlessHeldBack(queue: seq<Policy>, step: Step, i: nat)
    requires DistinctIds(ItemsOf(queue)) && i < |queue|
    ensures IsPing(queue, step, i) <==>
      && step.Ping? && !step.heldElsewhere && !queue[i].pinged
      && (queue[i].status == Busy || (queue[i].status in {Pending, Blocked, Unreachable} && IsInTurn(queue, i)))
    ensures IsPing(queue, step, i) && !IsInTurn(queue, i) <==>
      step.Ping? && !step.heldElsewhere && !queue[i].pinged && queue[i].status == Busy && !IsInTurn(queue, i)
  {
    FoundAt(queue, i);
  }

  /** Over every run, late outcomes included; without them every start is in turn. */
  lemma {:induction false} RunsStartInTurn(queue: seq<Policy>, steps: seq<Step>, step: Step, i: nat)
    requires WellOrdered(queue) && IsFresh(queue) && i < |AfterSteps(queue, steps)|
    requires IsStart(AfterSteps(queue, steps), step, i)
    ensures IsInTurn(AfterSteps(queue, steps), i) || AfterSteps(queue, steps)[i].status == Busy
    ensures NoneIsLate(queue, steps) ==> IsInTurn(AfterSteps(queue, steps), i)
  {
    var before := AfterSteps(queue, steps);
    RunKeepsPolicies(queue, steps);
    StartsInTurnUnlessHeldBack(before, step, i);
    if NoneIsLate(queue, steps) && before[i].status == Busy {
      FreshIsConsistent(queue);
      PoliciesRunInOrder(queue, steps, i);
    }
  }

  // ---------- late outcomes ----------

  /** The policy has been started, held back, given an outcome or given up. */
  predicate IsDecided(p: Policy) {
    IsTouched(p) || p.status == Unreachable
  }

  /** A late outcome that makes the policy pending again. */
  predicate IsPutBack(p: Policy, step: Step) {
    IsLateOutcome(p, step) && (step.TimeOut? || (step.Return? && !step.ok)) && p.counted < p.maxRetries
  }

  /** The result any other late outcome gives the policy. */
  function NewResult(step: Step): Status {
    if step.Return? && step.ok then Success else Failed
  }

  /** All that the policy requires of the one with that id accepts the status. */
  predicate AllAccept(requirements: seq<Requirement>, id: Id, status: Status) {
    forall r :: r in requirements && r.taskId == id ==> Accepts(r, status)
  }

  /** Another status of the i-th policy is all the same to the j-th, which misses another one or takes both alike. */
  predicate IsIndifferent(queue: seq<Policy>, i: nat, status: Status, j: nat)
    requires i < |queue| && j < |queue|
  {
    || (exists r :: r in queue[j].requirements && r.taskId != queue[i].id && !IsSatisfied(queue, r))
    || (AllAccept(queue[j].requirements, queue[i].id, queue[i].status) <==>
        AllAccept(queue[j].requirements, queue[i].id, status))
  }

  /**
   A late outcome that puts a policy back leaves the queue in order exactly when nothing behind it has been started,
   held back or given up. One that turns a result into another does exactly when it makes no difference to what has.
   */
  lemma {:induction false} LateOutcomeBreaksOrder(queue: seq<Policy>, step: Step, i: nat)
    requires Consistent(queue) && IndexOf(queue, step.id) == Some(i) && i < |queue| && IsLateOutcome(queue[i], step)
    ensures IsPutBack(queue[i], step) ==>
      (Consistent(AfterStep(queue, step)) <==> forall j :: i < j < |queue| ==> !IsDecided(queue[j]))
    ensures !IsPutBack(queue[i], step) ==>
      (Consistent(AfterStep(queue, step)) <==>
       forall j :: i < j < |queue| && IsDecided(queue[j]) ==> IsIndifferent(queue, i, NewResult(step), j))
  {
    var p := Stepped(queue, step, i);
    assert IsConsistentAt(queue, i);
    StepIsJustified(queue, step, i);
    SteppedShape(queue, step, i);
    LateStatus(queue, step, i);
    if IsPutBack(queue[i], step) {
      PutBackBreaksOrder(queue, i, p);
    } else {
      FlipBreaksOrder(queue, i, p);
      forall j | 0 <= j < |queue|
        ensures KeepsVerdict(queue, queue[i := p], j) <==> IsIndifferent(queue, i, NewResult(step), j)
      {
        IndifferentKeepVerdict(queue, i, p, j);
      }
    }
  }

  lemma {:induction false} LateStatus(queue: seq<Policy>, step: Step, i: nat)
    requires i < |queue| && IsLateOutcome(queue[i], step)
    ensures Stepped(queue, step, i).status == if IsPutBack(queue[i], step) then Pending else NewResult(step)
  {
  }

  /** Its requirements are satisfied as before. */
  predicate KeepsVerdict(queue: seq<Policy>, after: seq<Policy>, j: nat)
    requires j < |queue|
  {
    AllSatisfied(after, queue[j].requirements) <==> AllSatisfied(queue, queue[j].requirements)
  }

  lemma {:induction false} IndifferentKeepVerdict(queue: seq<Policy>, i: nat, p: Policy, j: nat)
    requires DistinctIds(ItemsOf(queue)) && i < |queue| && j < |queue| && IsSamePolicy(p, queue[i])
    ensures KeepsVerdict(queue, queue[i := p], j) <==> IsIndifferent(queue, i, p.status, j)
  {
    forall r | r in queue[j].requirements
      ensures r.taskId == queue[i].id ==> (IsSatisfied(queue, r) <==> Accepts(r, queue[i].status))
      ensures r.taskId == queue[i].id ==> (IsSatisfied(queue[i := p], r) <==> Accepts(r, p.status))
      ensures r.taskId != queue[i].id ==> (IsSatisfied(queue[i := p], r) <==> IsSatisfied(queue, r))
    {
      RequirementAfterChange(queue, i, p, r);
    }
  }

  lemma {:induction false} RequirementAfterChange(queue: seq<Policy>, i: nat, p: Policy, r: Requirement)
    requires DistinctIds(ItemsOf(queue)) && i < |queue| && IsSamePolicy(p, queue[i])
    ensures r.taskId == queue[i].id ==> (IsSatisfied(queue, r) <==> Accepts(r, queue[i].status))
    ensures r.taskId == queue[i].id ==> (IsSatisfied(queue[i := p], r) <==> Accepts(r, p.status))
    ensures r.taskId != queue[i].id ==> (IsSatisfied(queue[i := p], r) <==> IsSatisfied(queue, r))
  {
    FoundAt(queue, i);
    SameIdsSameIndex(queue[i := p], queue, r.taskId);
  }

  lemma {:induction false} PutBackBreaksOrder(queue: seq<Policy>, i: nat, p: Policy)
    requires Consistent(queue) && i < |queue| && IsJustified(queue, i, p) && !IsResolved(p.status)
    ensures Consistent(queue[i := p]) <==> forall j :: i < j < |queue| ==> !IsDecided(queue[j])
  {
    var after := queue[i := p];
    if Consistent(after) {
      forall j | i < j < |queue|
        ensures !IsDecided(queue[j])
      {
        assert IsConsistentAt(after, j) && after[i] in after[..j];
      }
    }
    if forall j :: i < j < |queue| ==> !IsDecided(queue[j]) {
      UntouchedStayConsistent(queue, i, p);
    }
  }

  /** As long as both are results, what is resolved stays so. */
  lemma {:induction false} FlipKeepsResolved(queue: seq<Policy>, i: nat, p: Policy, j: nat)
    requires i < |queue| && j <= |queue| && IsResolved(queue[i].status) && IsResolved(p.status)
    ensures AllResolved(queue[i := p][..j]) <==> AllResolved(queue[..j])
  {
    var after := queue[i := p];
    if AllResolved(queue[..j]) {
      forall q | q in after[..j]
        ensures IsResolved(q.status)
      {
        var k :| 0 <= k < j && after[k] == q;
        assert queue[k] in queue[..j];
      }
    }
    if AllResolved(after[..j]) {
      forall q | q in queue[..j]
        ensures IsResolved(q.status)
      {
        var k :| 0 <= k < j && queue[k] == q;
        assert after[k] in after[..j];
      }
    }
  }

  lemma {:induction false} FlipBreaksOrder(queue: seq<Policy>, i: nat, p: Policy)
    requires Consistent(queue) && i < |queue| && IsJustified(queue, i, p)
    requires IsResolved(queue[i].status) && IsResolved(p.status)
    ensures Consistent(queue[i := p]) <==>
      forall j :: i < j < |queue| && IsDecided(queue[j]) ==> KeepsVerdict(queue, queue[i := p], j)
  {
    var after := queue[i := p];
    ChangeKeepsShape(queue, i, p);
    ChangeKeepsWellOrdered(queue, i, p);
    ChangedIsConsistent(queue, i, p);
    forall j | 0 <= j < i
      ensures IsConsistentAt(after, j)
    {
      EarlierStaysConsistent(queue, i, p, j);
    }
    forall j | i < j < |queue|
      ensures IsConsistentAt(after, j) <==> (IsDecided(queue[j]) ==> KeepsVerdict(queue, after, j))
    {
      assert IsConsistentAt(queue, j);
      FlipKeepsResolved(queue, i, p, j);
    }
  }

  lemma {:induction false} UntouchedStayConsistent(queue: seq<Policy>, i: nat, p: Policy)
    requires Consistent(queue) && i < |queue| && IsJustified(queue, i, p)
    requires forall j :: i < j < |queue| ==> !IsTouched(queue[j]) && queue[j].status != Unreachable
    ensures Consistent(queue[i := p])
  {
    ChangedIsConsistent(queue, i, p);
    ChangeKeepsWellOrdered(queue, i, p);
    ChangeKeepsShape(queue, i, p);
    var after := queue[i := p];
    forall j | 0 <= j < |after| && j != i
      ensures IsConsistentAt(after, j)
    {
      assert IsConsistentAt(queue, j);
      if j < i {
        EarlierStaysConsistent(queue, i, p, j);
      }
    }
  }

  // ---------- verdicts ----------

  /** Exactly the policies with a missed requirement are unreachable. */
  predicate AreVerdictsRight(queue: seq<Policy>) {
    forall j :: 0 <= j < |queue| ==> (queue[j].status == Unreachable <==> !AllSatisfied(queue, queue[j].requirements))
  }

  /** A late outcome between two results leaves the verdicts right exactly when it makes no difference to any policy. */
  lemma {:induction false} LateOutcomeBreaksVerdicts(queue: seq<Policy>, step: Step, i: nat)
    requires Consistent(queue) && AllResolved(queue) && AreVerdictsRight(queue)
    requires IndexOf(queue, step.id) == Some(i) && i < |queue| && IsLateOutcome(queue[i], step)
    requires !IsPutBack(queue[i], step)
    ensures AreVerdictsRight(AfterStep(queue, step)) <==>
      forall j :: 0 <= j < |queue| ==> IsIndifferent(queue, i, NewResult(step), j)
  {
    var p := Stepped(queue, step, i);
    SteppedShape(queue, step, i);
    assert IsConsistentAt(queue, i);
    LateStatus(queue, step, i);
    FlipBreaksVerdicts(queue, AfterStep(queue, step), i, p);
    forall j | 0 <= j < |queue|
      ensures KeepsVerdict(queue, AfterStep(queue, step), j) <==> IsIndifferent(queue, i, NewResult(step), j)
    {
      IndifferentKeepVerdict(queue, i, p, j);
    }
  }

  lemma {:induction false} FlipBreaksVerdicts(queue: seq<Policy>, after: seq<Policy>, i: nat, p: Policy)
    requires i < |queue| && after == queue[i := p] && AreVerdictsRight(queue) && IsSamePolicy(p, queue[i])
    requires queue[i].status != Unreachable && p.status != Unreachable
    ensures AreVerdictsRight(after) <==> forall j :: 0 <= j < |queue| ==> KeepsVerdict(queue, after, j)
  {
    forall j | 0 <= j < |queue|
      ensures (after[j].status == Unreachable <==> !AllSatisfied(after, after[j].requirements))
        <==> KeepsVerdict(queue, after, j)
    {
      assert after[j].requirements == queue[j].requirements;
    }
  }

  // ---------- a policy that comes in ----------

  function Inserted(queue: seq<Policy>, i: nat, p: Policy): seq<Policy>
    requires i <= |queue|
  {
    queue[..i] + [p] + queue[i..]
  }

  /**
   A new policy that comes in at its place leaves the queue in order exactly when nothing behind it has been started,
   held back or given up, and it closes no cycle of requirements through a policy that has.
   */
  lemma {:induction false} InsertionBreaksOrder(queue: seq<Policy>, i: nat, p: Policy)
    requires Consistent(queue) && i <= |queue| && IsFresh([p]) && WellOrdered(Inserted(queue, i, p))
    ensures Consistent(Inserted(queue, i, p)) <==>
      && (forall j :: i <= j < |queue| ==> !IsDecided(queue[j]))
      && (forall j :: 0 <= j < i && IsTouched(queue[j]) ==> !IsStuckAt(Inserted(queue, i, p), j))
  {
    var after := Inserted(queue, i, p);
    NewIsConsistent(queue, i, p);
    forall j | 0 <= j < i
      ensures IsConsistentAt(after, j) <==> (IsTouched(queue[j]) ==> !IsStuckAt(after, j))
    {
      EarlierAfterInsertion(queue, i, p, j);
    }
    forall j | i <= j < |queue|
      ensures IsConsistentAt(after, j + 1) <==> !IsDecided(queue[j])
    {
      LaterAfterInsertion(queue, i, p, j);
    }
    forall j | i < j < |after|
      ensures IsConsistentAt(after, j) <==> !IsDecided(queue[j - 1])
    {
      LaterAfterInsertion(queue, i, p, j - 1);
    }
  }

  lemma {:induction false} NewIsConsistent(queue: seq<Policy>, i: nat, p: Policy)
    requires i <= |queue| && IsFresh([p])
    ensures IsConsistentAt(Inserted(queue, i, p), i)
  {
    assert p in [p] && Inserted(queue, i, p)[i] == p;
  }

  lemma {:induction false} EarlierAfterInsertion(queue: seq<Policy>, i: nat, p: Policy, j: nat)
    requires Consistent(queue) && j < i <= |queue| && IsFresh([p]) && WellOrdered(Inserted(queue, i, p))
    ensures
      var after := Inserted(queue, i, p);
      IsConsistentAt(after, j) <==> (IsTouched(queue[j]) ==> !IsStuckAt(after, j))
  {
    var after := Inserted(queue, i, p);
    assert p in [p];
    assert after[..j] == queue[..j] && after[j] == queue[j] && IsConsistentAt(queue, j);
    InsertionKeepsSatisfied(queue, i, p, queue[j].requirements);
  }

  lemma {:induction false} LaterAfterInsertion(queue: seq<Policy>, i: nat, p: Policy, j: nat)
    requires Consistent(queue) && i <= j < |queue| && IsFresh([p])
    ensures IsConsistentAt(Inserted(queue, i, p), j + 1) <==> !IsDecided(queue[j])
  {
    var after := Inserted(queue, i, p);
    assert p in [p];
    assert after[j + 1] == queue[j] && after[..j + 1][i] == p && p in after[..j + 1];
    assert IsConsistentAt(queue, j);
  }

  /** The new policy has no result, so it satisfies no requirement, and it moves none away. */
  lemma {:induction false} InsertionKeepsSatisfied(
    queue: seq<Policy>, i: nat, p: Policy, requirements: seq<Requirement>)
    requires i <= |queue| && p.status == Pending && DistinctIds(ItemsOf(Inserted(queue, i, p)))
    requires DistinctIds(ItemsOf(queue))
    ensures AllSatisfied(Inserted(queue, i, p), requirements) <==> AllSatisfied(queue, requirements)
  {
    forall r | r in requirements
      ensures IsSatisfied(Inserted(queue, i, p), r) <==> IsSatisfied(queue, r)
    {
      InsertionKeepsOne(queue, i, p, r);
    }
  }

  lemma {:induction false} InsertionKeepsOne(queue: seq<Policy>, i: nat, p: Policy, r: Requirement)
    requires i <= |queue| && p.status == Pending && DistinctIds(ItemsOf(Inserted(queue, i, p)))
    requires DistinctIds(ItemsOf(queue))
    ensures IsSatisfied(Inserted(queue, i, p), r) <==> IsSatisfied(queue, r)
  {
    var after := Inserted(queue, i, p);
    assert after[i] == p;
    var at := IndexOf(queue, r.taskId);
    if at.Some? {
      var k := if at.value < i then at.value else at.value + 1;
      assert after[k] == queue[at.value];
      FoundAt(after, k);
    } else if r.taskId == p.id {
      FoundAt(after, i);
    } else {
      forall q | q in after
        ensures q.id != r.taskId
      {
        assert q == p || q in queue;
      }
    }
  }

  // ---------- runs ----------

  /** A policy that may run m times, and one that requires its success. */
  function Pair(m: nat, status: Status, started: nat, counted: nat, second: Policy): seq<Policy> {
    [Policy(0, [], m, status, started, counted, false), second]
  }

  function Second(status: Status, started: nat, counted: nat): Policy {
    Policy(1, [Requirement(0, OnlySuccess)], 1, status, started, counted, false)
  }

  function FreshPair(m: nat): seq<Policy> {
    Pair(m, Pending, 0, 0, Second(Pending, 0, 0))
  }

  /** Step by step through the states. */
  lemma {:induction false} RunsThrough(states: seq<seq<Policy>>, steps: seq<Step>)
    requires |states| == |steps| + 1
    requires forall k :: 0 <= k < |steps| ==> AfterStep(states[k], steps[k]) == states[k + 1]
    ensures AfterSteps(states[0], steps) == states[|steps|]
  {
    if steps != [] {
      RunsThrough(states[..|steps|], steps[..|steps| - 1]);
    }
  }

  lemma {:induction false} PairFound(m: nat, status: Status, started: nat, counted: nat, second: Policy)
    requires second.id == 1
    ensures IndexOf(Pair(m, status, started, counted, second), 0) == Some(0)
    ensures IndexOf(Pair(m, status, started, counted, second), 1) == Some(1)
  {
    var queue := Pair(m, status, started, counted, second);
    assert IndexOf(queue[1..], 1) == Some(0);
  }

  lemma {:induction false} FirstStarts(m: nat, started: nat, counted: nat, second: Policy)
    requires second.id == 1
    ensures AfterStep(Pair(m, Pending, started, counted, second), Tick(0, false, true)) ==
      Pair(m, InWork, started + 1, counted, second)
  {
    PairFound(m, Pending, started, counted, second);
    assert AllResolved(Pair(m, Pending, started, counted, second)[..0]);
  }

  /** An outcome, or the new-job event, of the first policy. */
  lemma {:induction false} FirstChanges(m: nat, status: Status, started: nat, counted: nat, second: Policy, step: Step)
    requires second.id == 1 && step.id == 0 && (step.Announce? || step.Return? || step.TimeOut? || step.Error?)
    ensures
      var p := Stepped(Pair(m, status, started, counted, second), step, 0);
      AfterStep(Pair(m, status, started, counted, second), step) == Pair(m, p.status, p.started, p.counted, second)
  {
    PairFound(m, status, started, counted, second);
  }

  /** A tick of the second policy, in its turn. */
  lemma {:induction false} SecondTicks(m: nat, started: nat, counted: nat, held: bool)
    ensures AfterStep(Pair(m, Success, started, counted, Second(Pending, 0, 0)), Tick(1, held, true)) ==
      Pair(m, Success, started, counted, if held then Second(Busy, 0, 0) else Second(InWork, 1, 0))
  {
    var queue := Pair(m, Success, started, counted, Second(Pending, 0, 0));
    PairFound(m, Success, started, counted, Second(Pending, 0, 0));
    assert AllResolved(queue[..1]) && AllSatisfied(queue, [Requirement(0, OnlySuccess)]);
  }

  /** A tick that frees the second policy, whatever the first has become. */
  lemma {:induction false} SecondIsFreed(m: nat, status: Status, started: nat, counted: nat)
    ensures AfterStep(Pair(m, status, started, counted, Second(Busy, 0, 0)), Tick(1, false, true)) ==
      Pair(m, status, started, counted, Second(InWork, 1, 0))
  {
    PairFound(m, status, started, counted, Second(Busy, 0, 0));
  }

  lemma {:induction false} SecondChanges(m: nat, started: nat, counted: nat, second: Policy, step: Step)
    requires second.id == 1 && step.id == 1 && (step.Announce? || step.Return?)
    ensures
      var queue := Pair(m, Success, started, counted, second);
      AfterStep(queue, step) == Pair(m, Success, started, counted, Stepped(queue, step, 1))
  {
    PairFound(m, Success, started, counted, second);
  }

  /** A run of the first policy that ends in that way. */
  function OneRun(outcome: Step): seq<Step> {
    [Tick(0, false, true), Announce(0), outcome]
  }

  lemma {:induction false} AfterOneRun(m: nat, done: nat, outcome: Step)
    requires outcome == TimeOut(0) || outcome == Return(0, true)
    ensures AfterSteps(Pair(m, Pending, done, done, Second(Pending, 0, 0)), OneRun(outcome)) ==
      Pair(m, if outcome.Return? then Success else if done + 1 >= m then Failed else Pending, done + 1, done + 1,
        Second(Pending, 0, 0))
  {
    var p := Second(Pending, 0, 0);
    FirstStarts(m, done, done, p);
    FirstChanges(m, InWork, done + 1, done, p, Announce(0));
    FirstChanges(m, InWork, done + 1, done + 1, p, outcome);
    var last := Stepped(Pair(m, InWork, done + 1, done + 1, p), outcome, 0);
    ThreeSteps(
      Pair(m, Pending, done, done, p), Tick(0, false, true), Pair(m, InWork, done + 1, done, p),
      Announce(0), Pair(m, InWork, done + 1, done + 1, p), outcome, Pair(m, last.status, done + 1, done + 1, p));
  }

  lemma ThreeSteps(
    queue: seq<Policy>, first: Step, one: seq<Policy>, second: Step, two: seq<Policy>, third: Step, three: seq<Policy>)
    requires AfterStep(queue, first) == one && AfterStep(one, second) == two && AfterStep(two, third) == three
    ensures AfterSteps(queue, [first, second, third]) == three
  {
    RunsThrough([queue, one, two, three], [first, second, third]);
  }

  /** The first job times out and the second succeeds; a return of the first job can still come. */
  function TwoRuns(): seq<Step> {
    OneRun(TimeOut(0)) + OneRun(Return(0, true))
  }

  lemma {:induction false} AfterTwoRuns(m: nat)
    requires m > 2
    ensures AfterSteps(FreshPair(m), TwoRuns()) == Pair(m, Success, 2, 2, Second(Pending, 0, 0))
  {
    AfterOneRun(m, 0, TimeOut(0));
    AfterOneRun(m, 1, Return(0, true));
    RunsOn(FreshPair(m), OneRun(TimeOut(0)), OneRun(Return(0, true)));
  }

  lemma {:induction false} FirstIsUnresolved(m: nat, second: Policy)
    ensures !AllResolved(Pair(m, Pending, 2, 2, second)[..1])
  {
    assert Pair(m, Pending, 2, 2, second)[..1][0] in Pair(m, Pending, 2, 2, second)[..1];
  }

  /** At the end the second policy is running although the one it requires, and stands behind, is pending again. */
  lemma {:induction false} LateReturnBreaksOrder(m: nat)
    requires m > 2
    ensures IsFresh(FreshPair(m))
    ensures
      var after := AfterSteps(FreshPair(m), TwoRuns() + [Tick(1, false, true), Return(0, false)]);
      after == Pair(m, Pending, 2, 2, Second(InWork, 1, 0)) && !AllResolved(after[..1])
  {
    AfterTwoRuns(m);
    SecondTicks(m, 2, 2, false);
    FirstChanges(m, Success, 2, 2, Second(InWork, 1, 0), Return(0, false));
    RunsThrough(
      [Pair(m, Success, 2, 2, Second(Pending, 0, 0)), Pair(m, Success, 2, 2, Second(InWork, 1, 0)),
       Pair(m, Pending, 2, 2, Second(InWork, 1, 0))], [Tick(1, false, true), Return(0, false)]);
    RunsOn(FreshPair(m), TwoRuns(), [Tick(1, false, true), Return(0, false)]);
    FirstIsUnresolved(m, Second(InWork, 1, 0));
  }

  lemma {:induction false} HeldBackAfterReturn(m: nat)
    requires m > 2
    ensures AfterSteps(FreshPair(m), TwoRuns() + [Tick(1, true, true), Return(0, false)]) ==
      Pair(m, Pending, 2, 2, Second(Busy, 0, 0))
  {
    AfterTwoRuns(m);
    SecondTicks(m, 2, 2, true);
    FirstChanges(m, Success, 2, 2, Second(Busy, 0, 0), Return(0, false));
    RunsThrough(
      [Pair(m, Success, 2, 2, Second(Pending, 0, 0)), Pair(m, Success, 2, 2, Second(Busy, 0, 0)),
       Pair(m, Pending, 2, 2, Second(Busy, 0, 0))], [Tick(1, true, true), Return(0, false)]);
    RunsOn(FreshPair(m), TwoRuns(), [Tick(1, true, true), Return(0, false)]);
  }

  /** The second policy is held back, the first put back, and then a job of the second starts, out of its turn. */
  lemma {:induction false} FreedPolicyStartsOutOfTurn(m: nat)
    requires m > 2
    ensures IsFresh(FreshPair(m))
    ensures
      var before := AfterSteps(FreshPair(m), TwoRuns() + [Tick(1, true, true), Return(0, false)]);
      && before == Pair(m, Pending, 2, 2, Second(Busy, 0, 0)) && !IsInTurn(before, 1)
      && IsStart(before, Tick(1, false, true), 1)
      && AfterStep(before, Tick(1, false, true)) == Pair(m, Pending, 2, 2, Second(InWork, 1, 0))
  {
    HeldBackAfterReturn(m);
    FirstIsUnresolved(m, Second(Busy, 0, 0));
    SecondIsFreed(m, Pending, 2, 2);
  }

  /** Or its inactive minion is pinged, and a launch error fails the policy, which has never run. */
  lemma {:induction false} FreedPolicyFailsOutOfTurn(m: nat)
    requires m > 2
    ensures
      var before := AfterSteps(FreshPair(m), TwoRuns() + [Tick(1, true, true), Return(0, false)]);
      && before == Pair(m, Pending, 2, 2, Second(Busy, 0, 0))
      && !IsInTurn(before, 1) && IsPing(before, Ping(1, false), 1)
      && AfterSteps(before, [Ping(1, false), Error(1)]) ==
           Pair(m, Pending, 2, 2, Second(Failed, 0, 0).(pinged := true))
  {
    HeldBackAfterReturn(m);
    FirstIsUnresolved(m, Second(Busy, 0, 0));
    PairFound(m, Pending, 2, 2, Second(Busy, 0, 0));
    PairFound(m, Pending, 2, 2, Second(Pending, 0, 0).(pinged := true));
    RunsThrough(
      [Pair(m, Pending, 2, 2, Second(Busy, 0, 0)), Pair(m, Pending, 2, 2, Second(Pending, 0, 0).(pinged := true)),
       Pair(m, Pending, 2, 2, Second(Failed, 0, 0).(pinged := true))], [Ping(1, false), Error(1)]);
  }

  lemma {:induction false} SecondSucceeds(m: nat)
    ensures
      AfterSteps(
        Pair(m, Success, 2, 2, Second(Pending, 0, 0)), [Tick(1, false, true), Announce(1), Return(1, true), Error(0)])
      == Pair(m, Failed, 2, 2, Second(Success, 1, 1))
  {
    SecondTicks(m, 2, 2, false);
    SecondChanges(m, 2, 2, Second(InWork, 1, 0), Announce(1));
    SecondChanges(m, 2, 2, Second(InWork, 1, 1), Return(1, true));
    FirstChanges(m, Success, 2, 2, Second(Success, 1, 1), Error(0));
    RunsThrough(
      [Pair(m, Success, 2, 2, Second(Pending, 0, 0)), Pair(m, Success, 2, 2, Second(InWork, 1, 0)),
       Pair(m, Success, 2, 2, Second(InWork, 1, 1)), Pair(m, Success, 2, 2, Second(Success, 1, 1)),
       Pair(m, Failed, 2, 2, Second(Success, 1, 1))], [Tick(1, false, true), Announce(1), Return(1, true), Error(0)]);
  }

  lemma {:induction false} MissedRequirement(m: nat)
    ensures AllResolved(Pair(m, Failed, 2, 2, Second(Success, 1, 1)))
    ensures !AreVerdictsRight(Pair(m, Failed, 2, 2, Second(Success, 1, 1)))
  {
    var queue := Pair(m, Failed, 2, 2, Second(Success, 1, 1));
    PairFound(m, Failed, 2, 2, Second(Success, 1, 1));
    assert Requirement(0, OnlySuccess) in queue[1].requirements && !IsSatisfied(queue, Requirement(0, OnlySuccess));
  }

  /** Both policies succeed, then a launch error of the first arrives: the second is left with a missed requirement. */
  lemma {:induction false} LateErrorBreaksVerdict(m: nat)
    requires m > 2
    ensures
      var more := [Tick(1, false, true), Announce(1), Return(1, true), Error(0)];
      var after := AfterSteps(FreshPair(m), TwoRuns() + more);
      && after == Pair(m, Failed, 2, 2, Second(Success, 1, 1)) && AllResolved(after) && !AreVerdictsRight(after)
  {
    AfterTwoRuns(m);
    SecondSucceeds(m);
    RunsOn(FreshPair(m), TwoRuns(), [Tick(1, false, true), Announce(1), Return(1, true), Error(0)]);
    MissedRequirement(m);
  }
}
