/** How often the policies of one minion start, and that every fair schedule empties their queue. */
module PolicyDraining {
  import opened PolicyOrdering
  import opened TaskStatuses
  import opened PolicyQueue

  // ---------- how often a policy can start ----------

  function Allowance(p: Policy): nat {
    if p.maxRetries == 0 then 1 else p.maxRetries
  }

  predicate IsDone(status: Status) {
    status in {Success, Failed}
  }

  /** The step puts a policy back while a job of it has no return record, so that `count_runs` misses it. */
  predicate IsLoss(queue: seq<Policy>, step: Step, i: nat)
    requires i < |queue|
  {
    && (queue[i].status == InWork || IsDone(queue[i].status))
    && queue[i].counted < queue[i].started && Stepped(queue, step, i).status == Pending
  }

  /** How many runs of each policy were lost, one step later. */
  function LostAfterStep(queue: seq<Policy>, lost: seq<nat>, step: Step): (after: seq<nat>)
    requires |lost| == |queue|
    ensures |after| == |queue| && forall i :: 0 <= i < |lost| ==> lost[i] <= after[i]
  {
    match IndexOf(queue, step.id)
    case None => lost
    case Some(i) => if i < |queue| && IsLoss(queue, step, i) then lost[i := lost[i] + 1] else lost
  }

  function LostAfterSteps(queue: seq<Policy>, lost: seq<nat>, steps: seq<Step>): (after: seq<nat>)
    requires |lost| == |queue|
    ensures |after| == |queue|
  {
    if steps == [] then lost
    else
      var n := |steps| - 1;
      LostAfterStep(AfterSteps(queue, steps[..n]), LostAfterSteps(queue, lost, steps[..n]), steps[n])
  }

  function NoneLost(queue: seq<Policy>): (lost: seq<nat>)
    ensures |lost| == |queue|
  {
    seq(|queue|, i => 0)
  }

  /** The jobs started are within the allowance and the lost runs, with one to go before the next start. */
  predicate IsWithinAllowance(p: Policy, lost: nat) {
    && p.started <= Allowance(p) + lost
    && (p.status in {Pending, Blocked, Unreachable, Busy} ==> p.started < Allowance(p) + lost)
  }

  ghost predicate AreWithinAllowance(queue: seq<Policy>, lost: seq<nat>) {
    |lost| == |queue| && forall i :: 0 <= i < |queue| ==> IsWithinAllowance(queue[i], lost[i])
  }

  lemma {:induction false} StepKeepsAllowance(queue: seq<Policy>, lost: nat, step: Step, i: nat)
    requires i < |queue| && IsWithinAllowance(queue[i], lost)
    ensures IsWithinAllowance(Stepped(queue, step, i), lost + if IsLoss(queue, step, i) then 1 else 0)
  {
  }

  lemma {:induction false} RunKeepsAllowance(queue: seq<Policy>, lost: seq<nat>, steps: seq<Step>)
    requires DistinctIds(ItemsOf(queue)) && AreWithinAllowance(queue, lost)
    ensures AreWithinAllowance(AfterSteps(queue, steps), LostAfterSteps(queue, lost, steps))
  {
    if steps != [] {
      var n := |steps| - 1;
      var before, lostBefore := AfterSteps(queue, steps[..n]), LostAfterSteps(queue, lost, steps[..n]);
      RunKeepsAllowance(queue, lost, steps[..n]);
      RunKeepsPolicies(queue, steps[..n]);
      if IndexOf(before, steps[n].id).Some? {
        assert before[IndexOf(before, steps[n].id).value] in before;
        var i := StepChangesOne(before, steps[n]);
        StepKeepsAllowance(before, lostBefore[i], steps[n], i);
      }
    }
  }

  /** Over every run, late outcomes included, a policy starts at most its allowance of jobs, and one per lost run. */
  lemma {:induction false} StartsAreBounded(queue: seq<Policy>, steps: seq<Step>, i: nat)
    requires DistinctIds(ItemsOf(queue)) && IsFresh(queue) && i < |queue|
    ensures
      var after, lost := AfterSteps(queue, steps), LostAfterSteps(queue, NoneLost(queue), steps);
      i < |after| && IsSamePolicy(after[i], queue[i]) && after[i].started <= Allowance(queue[i]) + lost[i]
  {
    assert forall k :: 0 <= k < |queue| ==> queue[k] in queue;
    RunKeepsPolicies(queue, steps);
    RunKeepsAllowance(queue, NoneLost(queue), steps);
    assert IsWithinAllowance(AfterSteps(queue, steps)[i], LostAfterSteps(queue, NoneLost(queue), steps)[i]);
  }

  // ---------- what is final ----------

  /** What the draining relies on; every run from a fresh queue keeps it, late outcomes included. */
  ghost predicate IsSound(queue: seq<Policy>) {
    WellOrdered(queue) && StuckAreUntouched(queue)
  }

  lemma RunKeepsSound(queue: seq<Policy>, steps: seq<Step>)
    requires IsSound(queue)
    ensures IsSound(AfterSteps(queue, steps))
  {
    RunKeepsPolicies(queue, steps);
    RunLeavesStuck(queue, steps);
  }

  /** The policy has a result, or is given up for a requirement that is missed. */
  predicate IsFinalAt(queue: seq<Policy>, j: nat)
    requires j < |queue|
  {
    IsDone(queue[j].status) || (queue[j].status == Unreachable && !AllSatisfied(queue, queue[j].requirements))
  }

  predicate AreFinal(queue: seq<Policy>, n: nat) {
    n <= |queue| && forall j :: 0 <= j < n ==> IsFinalAt(queue, j)
  }

  lemma {:induction false} FinalAreResolved(queue: seq<Policy>, n: nat)
    requires AreFinal(queue, n)
    ensures AllResolved(queue[..n])
  {
    forall p | p in queue[..n]
      ensures IsResolved(p.status)
    {
      var j :| 0 <= j < n && queue[j] == p;
      assert IsFinalAt(queue, j);
    }
  }

  /** Without a late outcome a final policy behind final ones keeps its status. */
  lemma {:induction false} FinalKeepsStatus(queue: seq<Policy>, step: Step, n: nat, i: nat)
    requires DistinctIds(ItemsOf(queue)) && AreFinal(queue, n) && i < n && !IsLateOutcome(queue[i], step)
    ensures Stepped(queue, step, i).status == queue[i].status
  {
    assert IsFinalAt(queue, i);
    FinalAreResolved(queue, i);
    FoundAt(queue, i);
    if !Evaluates(step) {
      ResolvedChangesOnlyLate(queue, step, i);
    }
  }

  /** What is final from the front stays so. */
  lemma {:induction false} FinalStays(queue: seq<Policy>, step: Step, n: nat)
    requires IsSound(queue) && AreFinal(queue, n) && !IsLateIn(queue, step)
    ensures AreFinal(AfterStep(queue, step), n)
  {
    StepLeavesStuck(queue, step);
    StepKeepsPolicies(queue, step);
    if IndexOf(queue, step.id).Some? {
      assert queue[IndexOf(queue, step.id).value] in queue;
      var i := StepChangesOne(queue, step);
      if i < n {
        FinalKeepsStatus(queue, step, n, i);
      }
      forall j | 0 <= j < n
        ensures IsFinalAt(AfterStep(queue, step), j)
      {
        StaysFinalAt(queue, i, Stepped(queue, step, i), n, j);
      }
    }
  }

  lemma {:induction false} StaysFinalAt(queue: seq<Policy>, i: nat, p: Policy, n: nat, j: nat)
    requires IsSound(queue) && AreFinal(queue, n) && i < |queue| && IsSamePolicy(p, queue[i]) && j < n
    requires IsSound(queue[i := p]) && ItemsOf(queue[i := p]) == ItemsOf(queue)
    requires i < n ==> p.status == queue[i].status
    ensures IsFinalAt(queue[i := p], j)
  {
    assert IsFinalAt(queue, j);
    if IsStuckAt(queue, j) {
      StuckIsUnsatisfied(queue[i := p], j);
    } else if i < n {
      forall r
        ensures IsSatisfied(queue[i := p], r) <==> IsSatisfied(queue, r)
      {
        SameStatusSatisfies(queue, i, p, r);
      }
    } else {
      EarlierRequirementsStay(queue, i, p, j);
    }
  }

  // ---------- what is left to do ----------

  /** What a policy can still do that is to lose so many runs yet. */
  function Left(p: Policy, spare: int): int {
    if IsDone(p.status) then 0
    else if p.status == InWork then 1 + 2 * (spare + if p.started < Allowance(p) then Allowance(p) - p.started else 0)
    else 2 * (spare + if p.started < Allowance(p) then Allowance(p) - p.started else 1)
  }

  lemma {:induction false} SteppedNeverAdds(queue: seq<Policy>, step: Step, i: nat, spare: int)
    requires i < |queue| && !IsLateOutcome(queue[i], step) && spare >= 0
    ensures Left(Stepped(queue, step, i), spare) <= Left(queue[i], spare + if IsLoss(queue, step, i) then 1 else 0)
  {
    if IsDone(queue[i].status) {
      ResolvedChangesOnlyLate(queue, step, i);
    } else if Evaluates(step) {
      TickNeverAdds(queue, step, i, spare);
    }
  }

  lemma {:induction false} TickNeverAdds(queue: seq<Policy>, step: Step, i: nat, spare: int)
    requires i < |queue| && Evaluates(step) && spare >= 0 && !IsDone(queue[i].status)
    ensures Left(Stepped(queue, step, i), spare) <= Left(queue[i], spare)
  {
  }

  /**
   The environment takes care of a policy: its run ends, one way or the other, or it gets a tick in which its minion
   is free.
   */
  predicate Serves(queue: seq<Policy>, step: Step, i: nat)
    requires i < |queue|
  {
    && step.id == queue[i].id
    && if queue[i].status == InWork then Stepped(queue, step, i).status != InWork
       else step == Tick(queue[i].id, false, true)
  }

  /** Serving the first policy that is not final gets it on: it becomes final, starts a job, or leaves work. */
  lemma {:induction false} ServingGetsOn(queue: seq<Policy>, step: Step, i: nat, spare: int)
    requires DistinctIds(ItemsOf(queue)) && i < |queue| && Serves(queue, step, i)
    requires AreFinal(queue, i) && !IsFinalAt(queue, i) && spare >= 0
    ensures
      || Left(Stepped(queue, step, i), spare) < Left(queue[i], spare + if IsLoss(queue, step, i) then 1 else 0)
      || (Stepped(queue, step, i) == queue[i].(status := Unreachable) && !AllSatisfied(queue, queue[i].requirements))
  {
    FinalAreResolved(queue, i);
    FoundAt(queue, i);
  }

  /** The same for the i-th policy, of which so many runs were lost and so many will have been in the end. */
  function LeftAt(queue: seq<Policy>, lost: seq<nat>, most: seq<nat>, i: nat): int
    requires i < |queue| == |lost| == |most|
  {
    Left(queue[i], most[i] as int - lost[i])
  }

  function LeftFrom(queue: seq<Policy>, lost: seq<nat>, most: seq<nat>, n: nat): int
    requires n <= |queue| == |lost| == |most|
    decreases |queue| - n
  {
    if n == |queue| then 0 else LeftAt(queue, lost, most, n) + LeftFrom(queue, lost, most, n + 1)
  }

  ghost predicate AreAtMost(lost: seq<nat>, most: seq<nat>) {
    |lost| == |most| && forall i :: 0 <= i < |lost| ==> lost[i] <= most[i]
  }

  lemma {:induction false} LeftIsPositive(queue: seq<Policy>, lost: seq<nat>, most: seq<nat>, n: nat)
    requires |queue| == |lost| && AreAtMost(lost, most) && n <= |queue|
    ensures LeftFrom(queue, lost, most, n) >= 0
    ensures n < |queue| && !IsDone(queue[n].status) ==> LeftAt(queue, lost, most, n) > 0
    decreases |queue| - n
  {
    if n < |queue| {
      LeftIsPositive(queue, lost, most, n + 1);
    }
  }

  /** What is left from a later place on is less, by what is left before. */
  lemma {:induction false} LeftFromLater(queue: seq<Policy>, lost: seq<nat>, most: seq<nat>, n: nat, k: nat)
    requires |queue| == |lost| && AreAtMost(lost, most) && n <= k <= |queue|
    ensures LeftFrom(queue, lost, most, k) <= LeftFrom(queue, lost, most, n)
    decreases k - n
  {
    if n < k {
      LeftFromLater(queue, lost, most, n + 1, k);
      LeftIsPositive(queue, lost, most, n);
    }
  }

  lemma {:induction false} LessFrom(
    queue: seq<Policy>, lost: seq<nat>, next: seq<Policy>, nextLost: seq<nat>, most: seq<nat>, n: nat)
    requires n <= |queue| == |lost| == |next| == |nextLost| == |most|
    requires forall i :: n <= i < |queue| ==> LeftAt(next, nextLost, most, i) <= LeftAt(queue, lost, most, i)
    ensures LeftFrom(next, nextLost, most, n) <= LeftFrom(queue, lost, most, n)
    decreases |queue| - n
  {
    if n < |queue| {
      LessFrom(queue, lost, next, nextLost, most, n + 1);
    }
  }

  // ---------- a run ----------

  lemma {:induction false} StepNeverAdds(queue: seq<Policy>, lost: seq<nat>, most: seq<nat>, step: Step, i: nat)
    requires DistinctIds(ItemsOf(queue)) && !IsLateIn(queue, step) && i < |queue| == |lost|
    requires AreAtMost(LostAfterStep(queue, lost, step), most)
    ensures LeftAt(AfterStep(queue, step), LostAfterStep(queue, lost, step), most, i) <= LeftAt(queue, lost, most, i)
  {
    if IndexOf(queue, step.id).Some? {
      assert queue[IndexOf(queue, step.id).value] in queue;
      var k := StepChangesOne(queue, step);
      OneChangeNeverAdds(queue, lost, LostAfterStep(queue, lost, step), most, step, k, i);
    }
  }

  lemma {:induction false} OneChangeNeverAdds(
    queue: seq<Policy>, lost: seq<nat>, nextLost: seq<nat>, most: seq<nat>, step: Step, k: nat, i: nat)
    requires k < |queue| == |lost| == |nextLost| && i < |queue| && AreAtMost(nextLost, most)
    requires !IsLateOutcome(queue[k], step) && nextLost[i] >= lost[i]
    requires nextLost[k] == lost[k] + if IsLoss(queue, step, k) then 1 else 0
    ensures LeftAt(queue[k := Stepped(queue, step, k)], nextLost, most, i) <= LeftAt(queue, lost, most, i)
  {
    if k == i {
      SteppedNeverAdds(queue, step, i, most[i] as int - nextLost[i]);
    }
  }

  lemma {:induction false} RunNeverAdds(
    queue: seq<Policy>, lost: seq<nat>, most: seq<nat>, steps: seq<Step>, i: nat)
    requires DistinctIds(ItemsOf(queue)) && NoneIsLate(queue, steps) && i < |queue| == |lost|
    requires AreAtMost(LostAfterSteps(queue, lost, steps), most)
    ensures
      LeftAt(AfterSteps(queue, steps), LostAfterSteps(queue, lost, steps), most, i) <= LeftAt(queue, lost, most, i)
  {
    if steps != [] {
      var n := |steps| - 1;
      RunKeepsPolicies(queue, steps);
      RunKeepsPolicies(queue, steps[..n]);
      RunNeverAdds(queue, lost, most, steps[..n], i);
      StepNeverAdds(AfterSteps(queue, steps[..n]), LostAfterSteps(queue, lost, steps[..n]), most, steps[n], i);
    }
  }

  lemma {:induction false} RunKeepsFinal(queue: seq<Policy>, steps: seq<Step>, n: nat)
    requires IsSound(queue) && AreFinal(queue, n) && NoneIsLate(queue, steps)
    ensures AreFinal(AfterSteps(queue, steps), n)
  {
    if steps != [] {
      RunKeepsFinal(queue, steps[..|steps| - 1], n);
      RunKeepsSound(queue, steps[..|steps| - 1]);
      FinalStays(AfterSteps(queue, steps[..|steps| - 1]), steps[|steps| - 1], n);
    }
  }

  lemma {:induction false} LostGrows(queue: seq<Policy>, lost: seq<nat>, steps: seq<Step>)
    requires DistinctIds(ItemsOf(queue)) && |lost| == |queue|
    ensures AreAtMost(lost, LostAfterSteps(queue, lost, steps))
  {
    RunKeepsPolicies(queue, steps);
    if steps != [] {
      LostGrows(queue, lost, steps[..|steps| - 1]);
      RunKeepsPolicies(queue, steps[..|steps| - 1]);
    }
  }

  /** A run is its first steps and then the rest, with what they lose. */
  lemma {:induction false} RunSplits(queue: seq<Policy>, lost: seq<nat>, steps: seq<Step>, k: nat)
    requires |lost| == |queue| && k <= |steps|
    ensures
      var mid, midLost := AfterSteps(queue, steps[..k]), LostAfterSteps(queue, lost, steps[..k]);
      && AfterSteps(mid, steps[k..]) == AfterSteps(queue, steps)
      && LostAfterSteps(mid, midLost, steps[k..]) == LostAfterSteps(queue, lost, steps)
      && (NoneIsLate(queue, steps) ==> NoneIsLate(queue, steps[..k]) && NoneIsLate(mid, steps[k..]))
  {
    assert steps == steps[..k] + steps[k..];
    RunsOn(queue, steps[..k], steps[k..]);
    LosesOn(queue, lost, steps[..k], steps[k..]);
    if NoneIsLate(queue, steps) {
      NoneIsLateOn(queue, steps[..k], steps[k..]);
    }
  }

  lemma {:induction false} LosesOn(queue: seq<Policy>, lost: seq<nat>, first: seq<Step>, rest: seq<Step>)
    requires |lost| == |queue|
    ensures LostAfterSteps(AfterSteps(queue, first), LostAfterSteps(queue, lost, first), rest)
      == LostAfterSteps(queue, lost, first + rest)
    decreases |rest|
  {
    if rest == [] {
      assert first + rest == first;
    } else {
      var n := |rest| - 1;
      assert (first + rest)[..|first + rest| - 1] == first + rest[..n];
      LosesOn(queue, lost, first, rest[..n]);
      RunsOn(queue, first, rest[..n]);
    }
  }

  lemma {:induction false} NoneIsLateOn(queue: seq<Policy>, first: seq<Step>, rest: seq<Step>)
    requires NoneIsLate(queue, first + rest)
    ensures NoneIsLate(queue, first) && NoneIsLate(AfterSteps(queue, first), rest)
    decreases |rest|
  {
    if rest == [] {
      assert first + rest == first;
    } else {
      var n := |rest| - 1;
      assert (first + rest)[..|first + rest| - 1] == first + rest[..n];
      NoneIsLateOn(queue, first, rest[..n]);
      RunsOn(queue, first, rest[..n]);
    }
  }

  lemma {:induction false} OneStep(queue: seq<Policy>, lost: seq<nat>, step: Step)
    requires |lost| == |queue|
    ensures AfterSteps(queue, [step]) == AfterStep(queue, step)
    ensures LostAfterSteps(queue, lost, [step]) == LostAfterStep(queue, lost, step)
    ensures NoneIsLate(queue, [step]) <==> !IsLateIn(queue, step)
  {
    assert [step][..0] == [];
  }

  // ---------- a round ----------

  ghost predicate IsServedAt(queue: seq<Policy>, steps: seq<Step>, i: nat, k: nat)
    requires k < |steps|
  {
    var before := AfterSteps(queue, steps[..k]);
    i < |before| && Serves(before, steps[k], i)
  }

  ghost predicate IsServed(queue: seq<Policy>, steps: seq<Step>, i: nat) {
    exists k :: 0 <= k < |steps| && IsServedAt(queue, steps, i, k)
  }

  /** Whatever else happens in between, every policy is served at least once. */
  ghost predicate IsRound(queue: seq<Policy>, steps: seq<Step>) {
    forall i :: 0 <= i < |queue| ==> IsServed(queue, steps, i)
  }

  /** When the first policy that is not final is served it becomes final, or gets on. */
  lemma {:induction false} ServingFirst(queue: seq<Policy>, lost: seq<nat>, most: seq<nat>, step: Step, f: nat)
    requires IsSound(queue) && !IsLateIn(queue, step) && f < |queue| == |lost|
    requires AreAtMost(LostAfterStep(queue, lost, step), most)
    requires AreFinal(queue, f) && !IsFinalAt(queue, f) && Serves(queue, step, f)
    ensures
      var next, nextLost := AfterStep(queue, step), LostAfterStep(queue, lost, step);
      IsFinalAt(next, f) || LeftAt(next, nextLost, most, f) < LeftAt(queue, lost, most, f)
  {
    FoundAt(queue, f);
    var p := Stepped(queue, step, f);
    ServingGetsOn(queue, step, f, most[f] as int - LostAfterStep(queue, lost, step)[f]);
    if p == queue[f].(status := Unreachable) && !AllSatisfied(queue, queue[f].requirements) {
      StepLeavesStuck(queue, step);
      StepKeepsPolicies(queue, step);
      if IsStuckAt(queue, f) {
        StuckIsUnsatisfied(queue[f := p], f);
      } else {
        EarlierRequirementsStay(queue, f, p, f);
      }
    }
  }

  lemma {:induction false} RoundGetsOn(queue: seq<Policy>, lost: seq<nat>, most: seq<nat>, steps: seq<Step>, f: nat)
    requires IsSound(queue) && NoneIsLate(queue, steps) && f < |queue| == |lost|
    requires AreAtMost(LostAfterSteps(queue, lost, steps), most)
    requires AreFinal(queue, f) && IsServed(queue, steps, f)
    ensures
      var next, nextLost := AfterSteps(queue, steps), LostAfterSteps(queue, lost, steps);
      && AreFinal(next, f)
      && (IsFinalAt(next, f) || LeftAt(next, nextLost, most, f) < LeftAt(queue, lost, most, f))
  {
    RunKeepsFinal(queue, steps, f);
    var k :| 0 <= k < |steps| && IsServedAt(queue, steps, f, k);
    var mid, midLost := AfterSteps(queue, steps[..k]), LostAfterSteps(queue, lost, steps[..k]);
    Halfway(queue, lost, most, steps, k, f);
    if IsFinalAt(mid, f) {
      RunKeepsFinal(mid, steps[k..], f + 1);
    } else {
      ServedGetsOn(mid, midLost, most, steps[k..], f);
    }
  }

  /** What holds where the run has come so far, and of the rest of it. */
  lemma {:induction false} Halfway(
    queue: seq<Policy>, lost: seq<nat>, most: seq<nat>, steps: seq<Step>, k: nat, f: nat)
    requires IsSound(queue) && NoneIsLate(queue, steps) && f < |queue| == |lost| && k <= |steps|
    requires AreAtMost(LostAfterSteps(queue, lost, steps), most) && AreFinal(queue, f)
    ensures
      var mid, midLost := AfterSteps(queue, steps[..k]), LostAfterSteps(queue, lost, steps[..k]);
      && IsSound(mid) && AreFinal(mid, f) && NoneIsLate(mid, steps[k..])
      && AfterSteps(mid, steps[k..]) == AfterSteps(queue, steps)
      && LostAfterSteps(mid, midLost, steps[k..]) == LostAfterSteps(queue, lost, steps)
      && LeftAt(mid, midLost, most, f) <= LeftAt(queue, lost, most, f)
  {
    var mid, midLost := AfterSteps(queue, steps[..k]), LostAfterSteps(queue, lost, steps[..k]);
    RunSplits(queue, lost, steps, k);
    RunKeepsSound(queue, steps[..k]);
    RunKeepsFinal(queue, steps[..k], f);
    LostGrows(mid, midLost, steps[k..]);
    RunNeverAdds(queue, lost, most, steps[..k], f);
  }

  /** The first step serves it, and nothing takes that back. */
  lemma {:induction false} ServedGetsOn(queue: seq<Policy>, lost: seq<nat>, most: seq<nat>, steps: seq<Step>, f: nat)
    requires IsSound(queue) && NoneIsLate(queue, steps) && f < |queue| == |lost|
    requires AreAtMost(LostAfterSteps(queue, lost, steps), most)
    requires AreFinal(queue, f) && !IsFinalAt(queue, f) && steps != [] && Serves(queue, steps[0], f)
    ensures
      var next, nextLost := AfterSteps(queue, steps), LostAfterSteps(queue, lost, steps);
      IsFinalAt(next, f) || LeftAt(next, nextLost, most, f) < LeftAt(queue, lost, most, f)
  {
    var mid, midLost := AfterStep(queue, steps[0]), LostAfterStep(queue, lost, steps[0]);
    FirstStepOff(queue, lost, most, steps);
    ServingFirst(queue, lost, most, steps[0], f);
    FinalStays(queue, steps[0], f);
    RunNeverAdds(mid, midLost, most, steps[1..], f);
    if IsFinalAt(mid, f) {
      RunKeepsFinal(mid, steps[1..], f + 1);
    }
  }

  /** The first step of a run, and the run of the rest. */
  lemma {:induction false} FirstStepOff(queue: seq<Policy>, lost: seq<nat>, most: seq<nat>, steps: seq<Step>)
    requires IsSound(queue) && NoneIsLate(queue, steps) && steps != [] && |lost| == |queue|
    requires AreAtMost(LostAfterSteps(queue, lost, steps), most)
    ensures
      var mid, midLost := AfterStep(queue, steps[0]), LostAfterStep(queue, lost, steps[0]);
      && IsSound(mid) && NoneIsLate(mid, steps[1..]) && !IsLateIn(queue, steps[0])
      && AfterSteps(mid, steps[1..]) == AfterSteps(queue, steps)
      && LostAfterSteps(mid, midLost, steps[1..]) == LostAfterSteps(queue, lost, steps) && AreAtMost(midLost, most)
  {
    RunSplits(queue, lost, steps, 1);
    assert steps[..1] == [steps[0]];
    OneStep(queue, lost, steps[0]);
    RunKeepsSound(queue, [steps[0]]);
    LostGrows(AfterStep(queue, steps[0]), LostAfterStep(queue, lost, steps[0]), steps[1..]);
  }

  function FirstNotFinal(queue: seq<Policy>, n: nat): (f: nat)
    requires AreFinal(queue, n)
    ensures n <= f <= |queue| && AreFinal(queue, f) && (f < |queue| ==> !IsFinalAt(queue, f))
    decreases |queue| - n
  {
    if n < |queue| && IsFinalAt(queue, n) then FirstNotFinal(queue, n + 1) else n
  }

  /** What the policies can still do from the first one on that is not final. */
  function LeftInAll(queue: seq<Policy>, lost: seq<nat>, most: seq<nat>): int
    requires |queue| == |lost| == |most|
  {
    LeftFrom(queue, lost, most, FirstNotFinal(queue, 0))
  }

  /** A round uses up some of what the queue can still do, whatever state the queue is in. */
  lemma {:induction false} RoundMakesProgress(queue: seq<Policy>, lost: seq<nat>, most: seq<nat>, steps: seq<Step>)
    requires IsSound(queue) && NoneIsLate(queue, steps) && IsRound(queue, steps) && |queue| == |lost| == |most|
    requires AreAtMost(LostAfterSteps(queue, lost, steps), most) && !AreFinal(queue, |queue|)
    ensures LeftInAll(AfterSteps(queue, steps), LostAfterSteps(queue, lost, steps), most) < LeftInAll(queue, lost, most)
  {
    var next, nextLost := AfterSteps(queue, steps), LostAfterSteps(queue, lost, steps);
    var f := FirstNotFinal(queue, 0);
    assert IsServed(queue, steps, f);
    RoundGetsOn(queue, lost, most, steps, f);
    LostGrows(queue, lost, steps);
    forall i | 0 <= i < |queue|
      ensures LeftAt(next, nextLost, most, i) <= LeftAt(queue, lost, most, i)
    {
      RunNeverAdds(queue, lost, most, steps, i);
    }
    LessInAll(queue, lost, next, nextLost, most, f);
  }

  lemma {:induction false} LessInAll(
    queue: seq<Policy>, lost: seq<nat>, next: seq<Policy>, nextLost: seq<nat>, most: seq<nat>, f: nat)
    requires f < |queue| == |lost| == |next| == |nextLost| && AreAtMost(lost, most) && AreAtMost(nextLost, most)
    requires f == FirstNotFinal(queue, 0) && AreFinal(next, f)
    requires forall i :: 0 <= i < |queue| ==> LeftAt(next, nextLost, most, i) <= LeftAt(queue, lost, most, i)
    requires IsFinalAt(next, f) || LeftAt(next, nextLost, most, f) < LeftAt(queue, lost, most, f)
    ensures LeftInAll(next, nextLost, most) < LeftInAll(queue, lost, most)
  {
    LeftIsPositive(queue, lost, most, f);
    LessFrom(queue, lost, next, nextLost, most, f + 1);
    var n := if IsFinalAt(next, f) then f + 1 else f;
    FirstIsNotEarlier(next, n);
    LeftFromLater(next, nextLost, most, n, FirstNotFinal(next, 0));
  }

  lemma {:induction false} FirstIsNotEarlier(queue: seq<Policy>, n: nat)
    requires AreFinal(queue, n)
    ensures FirstNotFinal(queue, 0) >= n
  {
  }

  // ---------- rounds ----------

  function AfterRounds(queue: seq<Policy>, rounds: seq<seq<Step>>): (after: seq<Policy>)
    ensures |after| == |queue|
    decreases |rounds|
  {
    if rounds == [] then queue else AfterRounds(AfterSteps(queue, rounds[0]), rounds[1..])
  }

  function LostAfterRounds(queue: seq<Policy>, lost: seq<nat>, rounds: seq<seq<Step>>): (after: seq<nat>)
    requires |lost| == |queue|
    ensures |after| == |queue|
    decreases |rounds|
  {
    if rounds == [] then lost
    else LostAfterRounds(AfterSteps(queue, rounds[0]), LostAfterSteps(queue, lost, rounds[0]), rounds[1..])
  }

  /** Rounds without a late outcome. */
  ghost predicate AreRounds(queue: seq<Policy>, rounds: seq<seq<Step>>)
    decreases |rounds|
  {
    rounds != [] ==>
      && NoneIsLate(queue, rounds[0]) && IsRound(queue, rounds[0])
      && AreRounds(AfterSteps(queue, rounds[0]), rounds[1..])
  }

  lemma {:induction false} LostGrowsInRounds(queue: seq<Policy>, lost: seq<nat>, rounds: seq<seq<Step>>)
    requires IsSound(queue) && |lost| == |queue|
    ensures AreAtMost(lost, LostAfterRounds(queue, lost, rounds))
    decreases |rounds|
  {
    if rounds != [] {
      LostGrows(queue, lost, rounds[0]);
      RunKeepsSound(queue, rounds[0]);
      LostGrowsInRounds(AfterSteps(queue, rounds[0]), LostAfterSteps(queue, lost, rounds[0]), rounds[1..]);
    }
  }

  lemma {:induction false} RoundsMakeFinal(
    queue: seq<Policy>, lost: seq<nat>, most: seq<nat>, rounds: seq<seq<Step>>)
    requires IsSound(queue) && AreRounds(queue, rounds) && |lost| == |queue| == |most|
    requires most == LostAfterRounds(queue, lost, rounds) && |rounds| >= LeftInAll(queue, lost, most)
    ensures AreFinal(AfterRounds(queue, rounds), |queue|)
    decreases |rounds|
  {
    LostGrowsInRounds(queue, lost, rounds);
    if rounds == [] {
      var f := FirstNotFinal(queue, 0);
      LeftIsPositive(queue, lost, most, f);
      if f < |queue| {
        LeftIsPositive(queue, lost, most, f + 1);
      }
    } else {
      var next, nextLost := AfterSteps(queue, rounds[0]), LostAfterSteps(queue, lost, rounds[0]);
      RunKeepsSound(queue, rounds[0]);
      LostGrowsInRounds(next, nextLost, rounds[1..]);
      if AreFinal(queue, |queue|) {
        RunKeepsFinal(queue, rounds[0], |queue|);
        FirstIsNotEarlier(next, |queue|);
      } else {
        RoundMakesProgress(queue, lost, most, rounds[0]);
      }
      RoundsMakeFinal(next, nextLost, most, rounds[1..]);
    }
  }

  lemma {:induction false} RoundsKeepSound(queue: seq<Policy>, rounds: seq<seq<Step>>)
    requires IsSound(queue)
    ensures IsSound(AfterRounds(queue, rounds))
    decreases |rounds|
  {
    if rounds != [] {
      RunKeepsSound(queue, rounds[0]);
      RoundsKeepSound(AfterSteps(queue, rounds[0]), rounds[1..]);
    }
  }

  lemma FreshIsSound(queue: seq<Policy>)
    requires WellOrdered(queue) && IsFresh(queue)
    ensures IsSound(queue)
  {
    FreshIsConsistent(queue);
    ConsistentLeavesStuck(queue);
  }

  /**
   Whatever has happened to a queue, late outcomes included, every fair schedule without further late ones drains it:
   after as many rounds as there is left to do, with twice the starts that the retries leave, and two for every run that
   is lost yet, every policy is success, failed or unreachable, and an unreachable one has missed a requirement.
   */
  lemma QueueDrains(queue: seq<Policy>, past: seq<Step>, rounds: seq<seq<Step>>)
    requires WellOrdered(queue) && IsFresh(queue) && AreRounds(AfterSteps(queue, past), rounds)
    requires
      var reached := AfterSteps(queue, past);
      var most := LostAfterRounds(reached, NoneLost(reached), rounds);
      |rounds| >= LeftInAll(reached, NoneLost(reached), most)
    ensures
      var after := AfterRounds(AfterSteps(queue, past), rounds);
      && AllResolved(after)
      && forall i :: 0 <= i < |after| && after[i].status == Unreachable ==>
           exists r :: r in after[i].requirements && !IsMet(after, r)
  {
    var reached := AfterSteps(queue, past);
    var after := AfterRounds(reached, rounds);
    FreshIsSound(queue);
    RunKeepsSound(queue, past);
    RoundsMakeFinal(reached, NoneLost(reached), LostAfterRounds(reached, NoneLost(reached), rounds), rounds);
    FinalAreResolved(after, |after|);
    assert after[..|after|] == after;
    RoundsKeepSound(reached, rounds);
    forall i | 0 <= i < |after| && after[i].status == Unreachable
      ensures exists r :: r in after[i].requirements && !IsMet(after, r)
    {
      assert IsFinalAt(after, i);
      AllSatisfiedIsMet(after, after[i].requirements);
    }
  }

  // ---------- a fair schedule exists ----------

  /** Any policy can be served without a late outcome or a lost run: by a free tick, or the end of its run. */
  lemma {:induction false} CanBeServed(queue: seq<Policy>, lost: seq<nat>, i: nat) returns (step: Step)
    requires DistinctIds(ItemsOf(queue)) && i < |queue| == |lost|
    ensures Serves(queue, step, i) && !IsLateIn(queue, step) && LostAfterStep(queue, lost, step) == lost
  {
    FoundAt(queue, i);
    step :=
      if queue[i].status != InWork then Tick(queue[i].id, false, true)
      else if queue[i].started > 0 then Error(queue[i].id)
      else Release(queue[i].id);
  }

  lemma {:induction false} ServedStaysServed(queue: seq<Policy>, steps: seq<Step>, step: Step, i: nat)
    requires IsServed(queue, steps, i)
    ensures IsServed(queue, steps + [step], i)
  {
    var k :| 0 <= k < |steps| && IsServedAt(queue, steps, i, k);
    assert (steps + [step])[..k] == steps[..k];
    assert IsServedAt(queue, steps + [step], i, k);
  }

  /** The policies up to n, one after another. */
  lemma {:induction false} CanServeFirst(queue: seq<Policy>, lost: seq<nat>, n: nat) returns (steps: seq<Step>)
    requires DistinctIds(ItemsOf(queue)) && n <= |queue| == |lost|
    ensures NoneIsLate(queue, steps) && LostAfterSteps(queue, lost, steps) == lost
    ensures forall i :: 0 <= i < n ==> IsServed(queue, steps, i)
  {
    steps := [];
    if n > 0 {
      var before := CanServeFirst(queue, lost, n - 1);
      RunKeepsPolicies(queue, before);
      var step := CanBeServed(AfterSteps(queue, before), lost, n - 1);
      OneMoreServed(queue, lost, before, step, n - 1);
      steps := before + [step];
    }
  }

  lemma {:induction false} OneMoreServed(queue: seq<Policy>, lost: seq<nat>, steps: seq<Step>, step: Step, n: nat)
    requires n < |queue| == |lost| && NoneIsLate(queue, steps) && LostAfterSteps(queue, lost, steps) == lost
    requires forall i :: 0 <= i < n ==> IsServed(queue, steps, i)
    requires Serves(AfterSteps(queue, steps), step, n) && !IsLateIn(AfterSteps(queue, steps), step)
    requires LostAfterStep(AfterSteps(queue, steps), lost, step) == lost
    ensures NoneIsLate(queue, steps + [step]) && LostAfterSteps(queue, lost, steps + [step]) == lost
    ensures forall i :: 0 <= i < n + 1 ==> IsServed(queue, steps + [step], i)
  {
    var all := steps + [step];
    assert all[..|steps|] == steps;
    forall i | 0 <= i < n + 1
      ensures IsServed(queue, all, i)
    {
      if i < n {
        ServedStaysServed(queue, steps, step, i);
      } else {
        assert IsServedAt(queue, all, i, |steps|);
      }
    }
  }

  lemma {:induction false} FairRounds(queue: seq<Policy>, lost: seq<nat>, n: nat) returns (rounds: seq<seq<Step>>)
    requires IsSound(queue) && |lost| == |queue|
    ensures |rounds| == n && AreRounds(queue, rounds) && LostAfterRounds(queue, lost, rounds) == lost
    decreases n
  {
    rounds := [];
    if n > 0 {
      var steps := CanServeFirst(queue, lost, |queue|);
      RunKeepsSound(queue, steps);
      var rest := FairRounds(AfterSteps(queue, steps), lost, n - 1);
      rounds := [steps] + rest;
      assert rounds[1..] == rest;
    }
  }

  /** So after every run at all there is a fair schedule without late outcomes that drains the queue. */
  lemma QueueCanDrain(queue: seq<Policy>, past: seq<Step>) returns (rounds: seq<seq<Step>>)
    requires WellOrdered(queue) && IsFresh(queue)
    ensures AreRounds(AfterSteps(queue, past), rounds) && AllResolved(AfterRounds(AfterSteps(queue, past), rounds))
  {
    var reached := AfterSteps(queue, past);
    var lost := NoneLost(reached);
    FreshIsSound(queue);
    RunKeepsSound(queue, past);
    LeftIsPositive(reached, lost, lost, FirstNotFinal(reached, 0));
    rounds := FairRounds(reached, lost, LeftInAll(reached, lost, lost));
    QueueDrains(queue, past, rounds);
  }

  // ---------- a fresh queue ----------

  function TotalAllowance(queue: seq<Policy>): nat {
    if queue == [] then 0 else TotalAllowance(queue[..|queue| - 1]) + Allowance(queue[|queue| - 1])
  }

  function Total(lost: seq<nat>): nat {
    if lost == [] then 0 else Total(lost[..|lost| - 1]) + lost[|lost| - 1]
  }

  lemma {:induction false} FreshHasTwiceItsAllowance(queue: seq<Policy>, most: seq<nat>, n: nat)
    requires IsFresh(queue) && n <= |most| == |queue|
    ensures LeftFrom(queue, NoneLost(queue), most, n) + 2 * (TotalAllowance(queue[..n]) + Total(most[..n]))
      == 2 * (TotalAllowance(queue) + Total(most))
    decreases |queue| - n
  {
    if n == |queue| {
      assert queue[..n] == queue && most[..n] == most;
    } else {
      assert queue[n] in queue;
      FreshHasTwiceItsAllowance(queue, most, n + 1);
      assert queue[..n + 1][..n] == queue[..n] && most[..n + 1][..n] == most[..n];
    }
  }

  lemma {:induction false} RoundsKeepConsistent(queue: seq<Policy>, rounds: seq<seq<Step>>)
    requires Consistent(queue) && AreRounds(queue, rounds)
    ensures Consistent(AfterRounds(queue, rounds))
    decreases |rounds|
  {
    if rounds != [] {
      RunKeepsConsistent(queue, rounds[0]);
      RoundsKeepConsistent(AfterSteps(queue, rounds[0]), rounds[1..]);
    }
  }

  /**
   From the beginning and without late outcomes these are twice as many rounds as all policies together may start jobs
   and lose runs, and in the end exactly the policies with a missed requirement are unreachable.
   */
  lemma FreshQueueDrains(queue: seq<Policy>, rounds: seq<seq<Step>>)
    requires WellOrdered(queue) && IsFresh(queue) && AreRounds(queue, rounds)
    requires |rounds| >= 2 * (TotalAllowance(queue) + Total(LostAfterRounds(queue, NoneLost(queue), rounds)))
    ensures
      var after := AfterRounds(queue, rounds);
      && AllResolved(after)
      && forall i :: 0 <= i < |after| ==>
           (after[i].status == Unreachable <==> exists r :: r in after[i].requirements && !IsMet(after, r))
  {
    var most, after := LostAfterRounds(queue, NoneLost(queue), rounds), AfterRounds(queue, rounds);
    FreshIsSound(queue);
    FreshIsConsistent(queue);
    LostGrowsInRounds(queue, NoneLost(queue), rounds);
    FreshHasTwiceItsAllowance(queue, most, 0);
    LeftFromLater(queue, NoneLost(queue), most, 0, FirstNotFinal(queue, 0));
    QueueDrains(queue, [], rounds);
    RoundsKeepConsistent(queue, rounds);
    forall i | 0 <= i < |after|
      ensures after[i].status == Unreachable <==> exists r :: r in after[i].requirements && !IsMet(after, r)
    {
      assert IsConsistentAt(after, i) && after[i] in after;
      AllSatisfiedIsMet(after, after[i].requirements);
    }
  }
}
