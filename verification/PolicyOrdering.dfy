/**
 Ordering policies by their requirements
 (order_ids_by_requirements in saltbox_core/tasks/policy_ordering.py).
 */
module PolicyOrdering {
  import opened Graphs
  import opened Sequences
  import opened Sorting

  type Id = nat

  datatype ResultType = OnlySuccess | OnlyFailed | AnyResult

  datatype Requirement = Requirement(taskId: Id, resultType: ResultType)

  datatype Item = Item(id: Id, weight: int, requirements: seq<Requirement>)

  // ---------- the specification ----------

  function Ids(items: seq<Item>): (r: seq<Id>)
    ensures |r| == |items| && forall i :: 0 <= i < |r| ==> r[i] == items[i].id
  {
    seq(|items|, i requires 0 <= i < |items| => items[i].id)
  }

  ghost predicate DistinctIds(items: seq<Item>) {
    Distinct(Ids(items))
  }

  predicate IsId(items: seq<Item>, id: Id) {
    id in Ids(items)
  }

  function RequirementsOf(items: seq<Item>, id: Id): seq<Requirement> {
    if items == [] then []
    else if items[0].id == id then items[0].requirements
    else RequirementsOf(items[1..], id)
  }

  function WeightOf(items: seq<Item>, id: Id): int {
    if items == [] then 0
    else if items[0].id == id then items[0].weight
    else WeightOf(items[1..], id)
  }

  function Weights(items: seq<Item>): Id -> int {
    (id: Id) => WeightOf(items, id)
  }

  /** a requires b, and b is one of the items. */
  predicate Requires(items: seq<Item>, a: Id, b: Id) {
    IsId(items, b) && exists r :: r in RequirementsOf(items, a) && r.taskId == b
  }

  function RequiredIds(items: seq<Item>, requirements: seq<Requirement>): (r: seq<Id>)
    ensures forall b :: b in r <==> IsId(items, b) && exists q :: q in requirements && q.taskId == b
  {
    if requirements == [] then []
    else
      (if IsId(items, requirements[0].taskId) then [requirements[0].taskId] else [])
      + RequiredIds(items, requirements[1..])
  }

  function RequirementGraph(items: seq<Item>): (g: map<Id, seq<Id>>)
    ensures forall a, b :: Edge(g, a, b) <==> IsId(items, a) && Requires(items, a, b)
  {
    map a | a in Ids(items) :: RequiredIds(items, RequirementsOf(items, a))
  }

  /** A chain of requirements leads from id into a cycle. */
  ghost predicate IsStuck(items: seq<Item>, id: Id) {
    LeadsToCycle(RequirementGraph(items), id)
  }

  /** Every requirement of id among the items is in done. */
  predicate IsReady(items: seq<Item>, id: Id, done: seq<Id>) {
    forall b {:trigger Requires(items, id, b)} :: b in Ids(items) && Requires(items, id, b) ==> b in done
  }

  /** No item that is not done and whose requirements are met is lighter than the one placed i-th. */
  ghost predicate IsLightestReady(items: seq<Item>, ordered: seq<Id>, i: nat)
    requires i < |ordered|
  {
    forall b :: b in Ids(items) && b !in ordered[..i] && IsReady(items, b, ordered[..i]) ==>
      WeightOf(items, ordered[i]) <= WeightOf(items, b)
  }

  /** Placed one after the other, each with its requirements met and lightest among those ready. */
  ghost predicate IsReadyOrder(items: seq<Item>, ordered: seq<Id>) {
    forall i :: 0 <= i < |ordered| ==>
      IsReady(items, ordered[i], ordered[..i]) && IsLightestReady(items, ordered, i)
  }

  function NotIn(ids: seq<Id>, placed: seq<Id>): (r: seq<Id>)
    ensures forall a :: a in r <==> a in ids && a !in placed
  {
    if ids == [] then []
    else (if ids[0] in placed then [] else [ids[0]]) + NotIn(ids[1..], placed)
  }

  // ---------- counting open requirements ----------

  function CountOf(requirements: seq<Requirement>, b: Id): nat {
    if requirements == [] then 0
    else (if requirements[|requirements| - 1].taskId == b then 1 else 0)
         + CountOf(requirements[..|requirements| - 1], b)
  }

  /** How many of the requirements name an item that is not done. */
  function OpenCount(items: seq<Item>, requirements: seq<Requirement>, done: seq<Id>): nat {
    if requirements == [] then 0
    else
      var last := requirements[|requirements| - 1].taskId;
      (if IsId(items, last) && last !in done then 1 else 0)
      + OpenCount(items, requirements[..|requirements| - 1], done)
  }

  lemma {:induction false} OpenCountIsZero(items: seq<Item>, requirements: seq<Requirement>, done: seq<Id>)
    ensures OpenCount(items, requirements, done) == 0 <==>
            forall q :: q in requirements && IsId(items, q.taskId) ==> q.taskId in done
  {
    if requirements != [] {
      var n := |requirements| - 1;
      OpenCountIsZero(items, requirements[..n], done);
      assert requirements == requirements[..n] + [requirements[n]];
    }
  }

  lemma {:induction false} OpenCountDrops(items: seq<Item>, requirements: seq<Requirement>, done: seq<Id>, b: Id)
    requires IsId(items, b) && b !in done
    ensures OpenCount(items, requirements, done) ==
            OpenCount(items, requirements, done + [b]) + CountOf(requirements, b)
  {
    if requirements != [] {
      OpenCountDrops(items, requirements[..|requirements| - 1], done, b);
    }
  }

  lemma {:induction false} CountIsZero(requirements: seq<Requirement>, b: Id)
    ensures CountOf(requirements, b) == 0 <==> forall q :: q in requirements ==> q.taskId != b
  {
    if requirements != [] {
      var n := |requirements| - 1;
      CountIsZero(requirements[..n], b);
      assert requirements == requirements[..n] + [requirements[n]];
    }
  }

  lemma ReadyMeansNoneOpen(items: seq<Item>, a: Id, done: seq<Id>)
    ensures IsReady(items, a, done) <==> OpenCount(items, RequirementsOf(items, a), done) == 0
  {
    OpenCountIsZero(items, RequirementsOf(items, a), done);
    if IsReady(items, a, done) {
      forall q | q in RequirementsOf(items, a) && IsId(items, q.taskId)
        ensures q.taskId in done
      {
        assert Requires(items, a, q.taskId);
      }
    }
  }

  lemma {:induction false} RequirementsAt(items: seq<Item>, i: nat)
    requires DistinctIds(items) && i < |items|
    ensures RequirementsOf(items, items[i].id) == items[i].requirements
  {
    if i > 0 {
      assert Ids(items)[0] != Ids(items)[i];
      assert forall j :: 0 <= j < |items| - 1 ==> Ids(items[1..])[j] == Ids(items)[j + 1];
      RequirementsAt(items[1..], i - 1);
    }
  }

  // ---------- the algorithm ----------

  function Occurrences(ids: seq<Id>, a: Id): nat {
    if ids == [] then 0
    else (if ids[|ids| - 1] == a then 1 else 0) + Occurrences(ids[..|ids| - 1], a)
  }

  lemma OccurrencesOfAppended(ids: seq<Id>, x: Id, a: Id)
    ensures Occurrences(ids + [x], a) == Occurrences(ids, a) + if x == a then 1 else 0
  {
    assert (ids + [x])[..|ids|] == ids;
  }

  lemma {:induction false} OccursMeansListed(ids: seq<Id>, a: Id)
    ensures Occurrences(ids, a) > 0 <==> a in ids
  {
    if ids != [] {
      var n := |ids| - 1;
      OccursMeansListed(ids[..n], a);
      assert ids == ids[..n] + [ids[n]];
    }
  }

  lemma {:induction false} PrefixOccursLess(ids: seq<Id>, k: nat, a: Id)
    requires k <= |ids|
    ensures Occurrences(ids[..k], a) <= Occurrences(ids, a)
    decreases |ids|
  {
    if k < |ids| {
      PrefixOccursLess(ids[..|ids| - 1], k, a);
      assert ids[..|ids| - 1][..k] == ids[..k];
    } else {
      assert ids[..k] == ids;
    }
  }

  /** How often a is listed among the dependents of b. */
  function DependentCount(dependents: map<Id, seq<Id>>, b: Id, a: Id): nat {
    Occurrences(Successors(dependents, b), a)
  }

  function RequiredCount(items: seq<Item>, requirements: seq<Requirement>, b: Id): nat {
    if IsId(items, b) then CountOf(requirements, b) else 0
  }

  /** dependents[b] holds a once for every time a requires b. */
  ghost predicate CountsDependents(items: seq<Item>, dependents: map<Id, seq<Id>>) {
    forall a, b {:trigger DependentCount(dependents, b, a)} ::
      DependentCount(dependents, b, a) ==
      if IsId(items, a) then RequiredCount(items, RequirementsOf(items, a), b) else 0
  }

  ghost predicate CountsOpen(items: seq<Item>, inDegree: map<Id, nat>, done: seq<Id>) {
    && (forall a :: a in inDegree <==> IsId(items, a))
    && forall a :: a in inDegree ==> inDegree[a] == OpenCount(items, RequirementsOf(items, a), done)
  }

  function WithDependent(dependents: map<Id, seq<Id>>, b: Id, a: Id): map<Id, seq<Id>> {
    dependents[b := Successors(dependents, b) + [a]]
  }

  lemma DependentAdded(dependents: map<Id, seq<Id>>, b: Id, a: Id, y: Id, x: Id)
    ensures DependentCount(WithDependent(dependents, b, a), y, x) ==
            DependentCount(dependents, y, x) + if y == b && x == a then 1 else 0
  {
    OccurrencesOfAppended(Successors(dependents, b), a, x);
  }

  /** dependents, with one more entry for item for each of the requirements. */
  ghost predicate AddsDependent(
    items: seq<Item>, id: Id, requirements: seq<Requirement>, before: map<Id, seq<Id>>, after: map<Id, seq<Id>>)
  {
    forall a, b {:trigger DependentCount(after, b, a)} ::
      DependentCount(after, b, a) ==
      DependentCount(before, b, a) + if a == id then RequiredCount(items, requirements, b) else 0
  }

  lemma NothingAdded(items: seq<Item>, id: Id, before: map<Id, seq<Id>>)
    ensures AddsDependent(items, id, [], before, before)
  {
    assert forall b :: RequiredCount(items, [], b) == 0;
  }

  lemma AddsOneMore(
    items: seq<Item>, id: Id, requirements: seq<Requirement>, before: map<Id, seq<Id>>, after: map<Id, seq<Id>>,
    r: Requirement)
    requires AddsDependent(items, id, requirements, before, after)
    ensures AddsDependent(items, id, requirements + [r], before,
                          if IsId(items, r.taskId) then WithDependent(after, r.taskId, id) else after)
  {
    assert (requirements + [r])[..|requirements|] == requirements;
    forall a, b
      ensures DependentCount(WithDependent(after, r.taskId, id), b, a) ==
              DependentCount(after, b, a) + if b == r.taskId && a == id then 1 else 0
    {
      DependentAdded(after, r.taskId, id, b, a);
    }
  }

  /** The inner loop over one item's requirements. */
  method AddRequirements(items: seq<Item>, item: Item, dependents: map<Id, seq<Id>>, inDegree: map<Id, nat>)
    returns (newDependents: map<Id, seq<Id>>, newInDegree: map<Id, nat>)
    requires item.id in inDegree
    ensures AddsDependent(items, item.id, item.requirements, dependents, newDependents)
    ensures newInDegree == inDegree[item.id := inDegree[item.id] + OpenCount(items, item.requirements, [])]
  {
    newDependents, newInDegree := dependents, inDegree;
    var reqs := item.requirements;
    assert reqs[..0] == [];
    NothingAdded(items, item.id, dependents);
    for j := 0 to |reqs|
      invariant AddsDependent(items, item.id, reqs[..j], dependents, newDependents)
      invariant newInDegree == inDegree[item.id := inDegree[item.id] + OpenCount(items, reqs[..j], [])]
    {
      var required := reqs[j].taskId;
      assert reqs[..j + 1] == reqs[..j] + [reqs[j]] && reqs[..j + 1][..j] == reqs[..j];
      AddsOneMore(items, item.id, reqs[..j], dependents, newDependents, reqs[j]);
      if IsId(items, required) {
        newDependents := WithDependent(newDependents, required, item.id);
        newInDegree := newInDegree[item.id := newInDegree[item.id] + 1];
      }
    }
    assert reqs[..|reqs|] == reqs;
  }

  ghost predicate CountsDependentsOf(items: seq<Item>, ids: seq<Id>, dependents: map<Id, seq<Id>>) {
    forall a, b {:trigger DependentCount(dependents, b, a)} ::
      DependentCount(dependents, b, a) == if a in ids then RequiredCount(items, RequirementsOf(items, a), b) else 0
  }

  lemma CountsOneMore(
    items: seq<Item>, ids: seq<Id>, id: Id, before: map<Id, seq<Id>>, after: map<Id, seq<Id>>)
    requires CountsDependentsOf(items, ids, before) && id !in ids
    requires AddsDependent(items, id, RequirementsOf(items, id), before, after)
    ensures CountsDependentsOf(items, ids + [id], after)
  {
  }

  /** Of the ids those that are done have their count, the others none yet. */
  ghost predicate CountsOpenOf(items: seq<Item>, ids: seq<Id>, done: seq<Id>, inDegree: map<Id, nat>) {
    && (forall a :: a in inDegree <==> a in ids)
    && forall a :: a in inDegree ==>
         inDegree[a] == if a in done then OpenCount(items, RequirementsOf(items, a), []) else 0
  }

  lemma OpenOneMore(items: seq<Item>, ids: seq<Id>, done: seq<Id>, id: Id, before: map<Id, nat>, after: map<Id, nat>)
    requires CountsOpenOf(items, ids, done, before) && id in ids && id !in done
    requires after == before[id := before[id] + OpenCount(items, RequirementsOf(items, id), [])]
    ensures CountsOpenOf(items, ids, done + [id], after)
  {
  }

  method CollectDependents(items: seq<Item>) returns (dependents: map<Id, seq<Id>>, inDegree: map<Id, nat>)
    requires DistinctIds(items)
    ensures CountsDependents(items, dependents)
    ensures CountsOpen(items, inDegree, [])
  {
    var ids := Ids(items);
    dependents := map[];
    inDegree := map a | a in ids :: 0;
    for i := 0 to |items|
      invariant CountsDependentsOf(items, ids[..i], dependents)
      invariant CountsOpenOf(items, ids, ids[..i], inDegree)
    {
      RequirementsAt(items, i);
      assert ids[i] == items[i].id && ids[i] !in ids[..i];
      assert ids[..i + 1] == ids[..i] + [ids[i]];
      ghost var before, degrees := dependents, inDegree;
      dependents, inDegree := AddRequirements(items, items[i], dependents, inDegree);
      CountsOneMore(items, ids[..i], ids[i], before, dependents);
      OpenOneMore(items, ids, ids[..i], ids[i], degrees, inDegree);
    }
    assert ids[..|ids|] == ids;
  }

  /** One finished policy is taken off its dependents; those with nothing left open become ready. */
  method ReleaseDependents(dependentIds: seq<Id>, inDegree: map<Id, nat>)
    returns (remaining: map<Id, nat>, newlyReady: seq<Id>)
    requires forall a :: a in dependentIds ==> a in inDegree && Occurrences(dependentIds, a) <= inDegree[a]
    ensures remaining.Keys == inDegree.Keys
    ensures forall a :: a in inDegree ==> remaining[a] == inDegree[a] - Occurrences(dependentIds, a)
    ensures Distinct(newlyReady)
    ensures forall a :: a in newlyReady <==> a in dependentIds && remaining[a] == 0
  {
    remaining := inDegree;
    newlyReady := [];
    for k := 0 to |dependentIds|
      invariant remaining.Keys == inDegree.Keys
      invariant forall a :: a in inDegree ==> remaining[a] == inDegree[a] - Occurrences(dependentIds[..k], a)
      invariant Distinct(newlyReady)
      invariant forall a :: a in newlyReady <==> a in dependentIds[..k] && remaining[a] == 0
    {
      var a := dependentIds[k];
      assert dependentIds[..k + 1] == dependentIds[..k] + [a];
      forall b
        ensures Occurrences(dependentIds[..k + 1], b) == Occurrences(dependentIds[..k], b) + if a == b then 1 else 0
      {
        OccurrencesOfAppended(dependentIds[..k], a, b);
      }
      PrefixOccursLess(dependentIds, k + 1, a);
      remaining := remaining[a := remaining[a] - 1];
      if remaining[a] == 0 {
        newlyReady := newlyReady + [a];
      }
    }
    assert dependentIds[..|dependentIds|] == dependentIds;
  }

  // ---------- one step of the main loop ----------

  /** Where the algorithm stands when it has placed `ordered` and holds `ready`. */
  ghost predicate Stands(items: seq<Item>, inDegree: map<Id, nat>, ready: seq<Id>, ordered: seq<Id>) {
    && CountsOpen(items, inDegree, ordered)
    && (forall a :: a in ordered ==> IsId(items, a))
    && Distinct(ordered) && IsReadyOrder(items, ordered)
    && (forall a :: a in ready <==> IsId(items, a) && a !in ordered && IsReady(items, a, ordered))
    && Distinct(ready) && SortedBy(ready, Weights(items))
  }

  lemma PlacedHaveNothingOpen(items: seq<Item>, ordered: seq<Id>, a: Id)
    requires IsReadyOrder(items, ordered) && a in ordered
    ensures IsReady(items, a, ordered)
  {
    var i :| 0 <= i < |ordered| && ordered[i] == a;
    assert IsReady(items, a, ordered[..i]);
  }

  /** Placing the first ready policy keeps the order built so far right. */
  lemma PlacingFirstReady(items: seq<Item>, ready: seq<Id>, ordered: seq<Id>)
    requires ready != [] && SortedBy(ready, Weights(items)) && IsReadyOrder(items, ordered)
    requires forall a :: a in ready <==> IsId(items, a) && a !in ordered && IsReady(items, a, ordered)
    ensures IsReadyOrder(items, ordered + [ready[0]])
  {
    var longer := ordered + [ready[0]];
    forall i | 0 <= i < |longer|
      ensures IsReady(items, longer[i], longer[..i]) && IsLightestReady(items, longer, i)
    {
      assert ready[0] in ready;
      if i < |ordered| {
        assert longer[..i] == ordered[..i] && longer[i] == ordered[i];
        assert IsLightestReady(items, ordered, i);
      } else {
        assert longer[..i] == ordered;
        forall b | b in Ids(items) && b !in ordered && IsReady(items, b, ordered)
          ensures WeightOf(items, ready[0]) <= WeightOf(items, b)
        {
          var k :| 0 <= k < |ready| && ready[k] == b;
          assert Weights(items)(ready[0]) <= Weights(items)(ready[k]);
        }
      }
    }
  }

  /** The next ready policies are the others that were ready and those released by the one placed. */
  lemma NextReady(items: seq<Item>, dependents: map<Id, seq<Id>>, ordered: seq<Id>, current: Id,
                  remaining: map<Id, nat>, a: Id)
    requires CountsDependents(items, dependents) && IsReadyOrder(items, ordered)
    requires IsId(items, current) && current !in ordered && IsReady(items, current, ordered)
    requires CountsOpen(items, remaining, ordered + [current])
    ensures var released := a in Successors(dependents, current) && a in remaining && remaining[a] == 0;
            && (IsId(items, a) && a !in ordered + [current] && IsReady(items, a, ordered + [current]) <==>
                released || (IsId(items, a) && a !in ordered && IsReady(items, a, ordered) && a != current))
            && (released ==> IsId(items, a) && !IsReady(items, a, ordered))
  {
    var reqs := RequirementsOf(items, a);
    OpenCountDrops(items, reqs, ordered, current);
    OccursMeansListed(Successors(dependents, current), a);
    assert DependentCount(dependents, current, a) == if IsId(items, a) then RequiredCount(items, reqs, current) else 0;
    ReadyMeansNoneOpen(items, a, ordered);
    ReadyMeansNoneOpen(items, a, ordered + [current]);
    if a in ordered {
      PlacedHaveNothingOpen(items, ordered, a);
    }
  }

  /** A policy is listed among the dependents of an open one at most as often as it has open requirements. */
  lemma DependentsAreOpen(items: seq<Item>, dependents: map<Id, seq<Id>>, inDegree: map<Id, nat>,
                          ordered: seq<Id>, current: Id, a: Id)
    requires CountsDependents(items, dependents) && CountsOpen(items, inDegree, ordered)
    requires IsId(items, current) && current !in ordered
    ensures a in Successors(dependents, current) ==> a in inDegree
    ensures a in inDegree ==>
              inDegree[a] == OpenCount(items, RequirementsOf(items, a), ordered + [current])
                             + Occurrences(Successors(dependents, current), a)
  {
    OccursMeansListed(Successors(dependents, current), a);
    assert DependentCount(dependents, current, a) ==
           if IsId(items, a) then RequiredCount(items, RequirementsOf(items, a), current) else 0;
    OpenCountDrops(items, RequirementsOf(items, a), ordered, current);
  }

  lemma NextReadyIsRight(items: seq<Item>, dependents: map<Id, seq<Id>>, ready: seq<Id>, ordered: seq<Id>,
                         remaining: map<Id, nat>, newlyReady: seq<Id>)
    requires CountsDependents(items, dependents) && IsReadyOrder(items, ordered)
    requires ready != [] && Distinct(ready) && Distinct(newlyReady)
    requires forall a :: a in ready <==> IsId(items, a) && a !in ordered && IsReady(items, a, ordered)
    requires CountsOpen(items, remaining, ordered + [ready[0]])
    requires forall a :: a in newlyReady <==>
               a in Successors(dependents, ready[0]) && a in remaining && remaining[a] == 0
    ensures Distinct(ready[1..] + newlyReady)
    ensures forall a :: a in ready[1..] + newlyReady <==>
              IsId(items, a) && a !in ordered + [ready[0]] && IsReady(items, a, ordered + [ready[0]])
  {
    var current := ready[0];
    assert current in ready;
    DistinctTail(ready);
    forall a
      ensures a in ready[1..] + newlyReady <==>
              IsId(items, a) && a !in ordered + [current] && IsReady(items, a, ordered + [current])
      ensures a in newlyReady ==> a !in ready
    {
      NextReady(items, dependents, ordered, current, remaining, a);
      assert a in ready[1..] + newlyReady <==> a in ready[1..] || a in newlyReady;
    }
    DistinctConcat(ready[1..], newlyReady);
  }

  lemma StandsAfterPlacing(items: seq<Item>, dependents: map<Id, seq<Id>>, inDegree: map<Id, nat>,
                           ready: seq<Id>, ordered: seq<Id>, remaining: map<Id, nat>, newlyReady: seq<Id>)
    requires CountsDependents(items, dependents) && Distinct(newlyReady)
    requires Stands(items, inDegree, ready, ordered) && ready != []
    requires CountsOpen(items, remaining, ordered + [ready[0]])
    requires forall a :: a in newlyReady <==>
               a in Successors(dependents, ready[0]) && a in remaining && remaining[a] == 0
    ensures ready[0] in Ids(items) && ready[0] !in ordered
    ensures Stands(items, remaining, StableSort(ready[1..] + newlyReady, Weights(items)), ordered + [ready[0]])
  {
    assert ready[0] in ready;
    NextReadyIsRight(items, dependents, ready, ordered, remaining, newlyReady);
    SortKeepsDistinct(ready[1..] + newlyReady, Weights(items));
    StableSortSorts(ready[1..] + newlyReady, Weights(items));
    PlacingFirstReady(items, ready, ordered);
  }

  method PlaceNext(items: seq<Item>, dependents: map<Id, seq<Id>>,
                   inDegree: map<Id, nat>, ready: seq<Id>, ordered: seq<Id>)
    returns (remaining: map<Id, nat>, nextReady: seq<Id>)
    requires CountsDependents(items, dependents)
    requires Stands(items, inDegree, ready, ordered) && ready != []
    ensures ready[0] in Ids(items) && ready[0] !in ordered
    ensures Stands(items, remaining, nextReady, ordered + [ready[0]])
    ensures Successors(dependents, ready[0]) == [] ==> nextReady == ready[1..]
  {
    var current := ready[0];
    assert current in ready;
    var dependentIds := Successors(dependents, current);
    forall a
      ensures a in dependentIds ==> a in inDegree && Occurrences(dependentIds, a) <= inDegree[a]
      ensures a in inDegree ==>
                inDegree[a] - Occurrences(dependentIds, a) ==
                OpenCount(items, RequirementsOf(items, a), ordered + [current])
    {
      DependentsAreOpen(items, dependents, inDegree, ordered, current, a);
    }
    var newlyReady;
    remaining, newlyReady := ReleaseDependents(dependentIds, inDegree);
    nextReady := StableSort(ready[1..] + newlyReady, Weights(items));
    StandsAfterPlacing(items, dependents, inDegree, ready, ordered, remaining, newlyReady);
    if dependentIds == [] {
      NonEmptyHasMember(newlyReady);
      assert newlyReady == [];
      SortedTailStays(items, ready);
    }
  }

  lemma SortedTailStays(items: seq<Item>, ready: seq<Id>)
    requires ready != [] && SortedBy(ready, Weights(items))
    ensures StableSort(ready[1..] + [], Weights(items)) == ready[1..]
  {
    assert ready[1..] + [] == ready[1..];
    SortedStays(ready[1..], Weights(items));
  }

  // ---------- what is left over ----------

  /** Along a chain of requirements the places in a ready order go down. */
  lemma {:induction false} ChainGoesDown(items: seq<Item>, ordered: seq<Id>, i: nat, p: seq<Id>, k: nat)
    requires IsReadyOrder(items, ordered) && i < |ordered|
    requires IsWalk(RequirementGraph(items), p) && p[0] == ordered[i] && k < |p|
    ensures k <= i && p[k] in ordered[..i - k + 1]
  {
    if k == 0 {
      assert ordered[..i + 1][i] == p[0];
    } else {
      ChainGoesDown(items, ordered, i, p, k - 1);
      var j :| 0 <= j < i - k + 2 && ordered[j] == p[k - 1];
      assert Edge(RequirementGraph(items), p[k - 1], p[k]);
      assert IsReady(items, ordered[j], ordered[..j]);
      assert p[k] in ordered[..j];
    }
  }

  lemma PlacedAreNotStuck(items: seq<Item>, ordered: seq<Id>, a: Id)
    requires IsReadyOrder(items, ordered) && Distinct(ordered) && a in ordered
    ensures !IsStuck(items, a)
  {
    var g := RequirementGraph(items);
    forall c | Reaches(g, c, c) && (c == a || Reaches(g, a, c))
      ensures false
    {
      ReachedArePlaced(items, ordered, a, c);
      var i :| 0 <= i < |ordered| && ordered[i] == c;
      var p :| IsWalkFromTo(g, p, c, c);
      ChainGoesDown(items, ordered, i, p, |p| - 1);
    }
  }

  lemma ReachedArePlaced(items: seq<Item>, ordered: seq<Id>, a: Id, c: Id)
    requires IsReadyOrder(items, ordered) && a in ordered
    requires c == a || Reaches(RequirementGraph(items), a, c)
    ensures c in ordered
  {
    if c != a {
      var p :| IsWalkFromTo(RequirementGraph(items), p, a, c);
      var i :| 0 <= i < |ordered| && ordered[i] == a;
      ChainGoesDown(items, ordered, i, p, |p| - 1);
    }
  }

  /** When nothing is ready any more, everything not placed waits for something not placed, so is stuck. */
  lemma LeftoversAreStuck(items: seq<Item>, ordered: seq<Id>, a: Id)
    requires forall b {:trigger IsReady(items, b, ordered)} :: IsId(items, b) && b !in ordered ==>
      !IsReady(items, b, ordered)
    requires IsId(items, a) && a !in ordered
    ensures IsStuck(items, a)
  {
    var g := RequirementGraph(items);
    var left := Elements(Ids(items)) - Elements(ordered);
    assert forall b :: b in left <==> IsId(items, b) && b !in ordered;
    LeftoversLeadToCycle(items, ordered, left, g, a);
  }

  lemma LeftoversLeadToCycle(items: seq<Item>, ordered: seq<Id>, left: set<Id>, g: map<Id, seq<Id>>, a: Id)
    requires forall b :: b in left <==> IsId(items, b) && b !in ordered
    requires forall b {:trigger IsReady(items, b, ordered)} :: b in left ==> !IsReady(items, b, ordered)
    requires forall b, c :: IsId(items, b) && Requires(items, b, c) ==> Edge(g, b, c)
    requires a in left
    ensures LeadsToCycle(g, a)
  {
    forall b {:trigger HasSuccessorIn(g, left, b)} | b in left
      ensures HasSuccessorIn(g, left, b)
    {
      WaitsForUnplaced(items, ordered, b, left, g);
    }
    EndlessMeansCycle(g, left, a);
  }

  lemma WaitsForUnplaced(items: seq<Item>, ordered: seq<Id>, b: Id, left: set<Id>, g: map<Id, seq<Id>>)
    requires IsId(items, b) && !IsReady(items, b, ordered)
    requires forall c :: c in left <==> IsId(items, c) && c !in ordered
    requires forall c :: Requires(items, b, c) ==> Edge(g, b, c)
    ensures HasSuccessorIn(g, left, b)
  {
    var c :| c in Ids(items) && Requires(items, b, c) && c !in ordered;
    assert c in left && Edge(g, b, c);
  }

  // ---------- the whole ordering ----------

  /** The requirements of every policy that is not stuck come before it, and the stuck ones come last. */
  ghost predicate IsPolicyOrder(items: seq<Item>, ordered: seq<Id>) {
    && multiset(ordered) == multiset(Ids(items))
    && (forall i :: 0 <= i < |ordered| && !IsStuck(items, ordered[i]) ==>
          IsReady(items, ordered[i], ordered[..i]) && IsLightestReady(items, ordered, i))
    && (forall i, j :: 0 <= i < j < |ordered| && IsStuck(items, ordered[i]) ==> IsStuck(items, ordered[j]))
  }

  ghost function StuckIds(items: seq<Item>, ids: seq<Id>): seq<Id> {
    if ids == [] then []
    else (if IsStuck(items, ids[0]) then [ids[0]] else []) + StuckIds(items, ids[1..])
  }

  ghost predicate HasNoRequirements(items: seq<Item>) {
    forall a, b :: IsId(items, a) ==> !Requires(items, a, b)
  }

  lemma {:induction false} NotPlacedAreStuck(items: seq<Item>, ids: seq<Id>, placed: seq<Id>)
    requires forall a :: a in ids ==> (a !in placed <==> IsStuck(items, a))
    ensures NotIn(ids, placed) == StuckIds(items, ids)
  {
    if ids != [] {
      assert ids[0] in ids;
      NotPlacedAreStuck(items, ids[1..], placed);
    }
  }

  lemma {:induction false} PlacedAndNotIn(ids: seq<Id>, placed: seq<Id>)
    requires Distinct(ids) && Distinct(placed) && forall a :: a in placed ==> a in ids
    ensures multiset(placed) + multiset(NotIn(ids, placed)) == multiset(ids)
  {
    var left := NotIn(ids, placed);
    NotInIsDistinct(ids, placed);
    DistinctByCount(ids);
    DistinctByCount(placed);
    DistinctByCount(left);
    forall a
      ensures multiset(placed)[a] + multiset(left)[a] == multiset(ids)[a]
    {
      assert a in ids <==> multiset(ids)[a] > 0;
      assert a in placed <==> multiset(placed)[a] > 0;
      assert a in left <==> multiset(left)[a] > 0;
    }
  }

  lemma {:induction false} NotInIsDistinct(ids: seq<Id>, placed: seq<Id>)
    requires Distinct(ids)
    ensures Distinct(NotIn(ids, placed))
  {
    if ids != [] {
      DistinctTail(ids);
      NotInIsDistinct(ids[1..], placed);
    }
  }

  function NotWaiting(ids: seq<Id>, inDegree: map<Id, nat>): (r: seq<Id>)
    requires forall a :: a in ids ==> a in inDegree
    ensures forall a :: a in r <==> a in ids && inDegree[a] == 0
  {
    if ids == [] then []
    else (if inDegree[ids[0]] == 0 then [ids[0]] else []) + NotWaiting(ids[1..], inDegree)
  }

  lemma {:induction false} NotWaitingIsDistinct(ids: seq<Id>, inDegree: map<Id, nat>)
    requires Distinct(ids) && forall a :: a in ids ==> a in inDegree
    ensures Distinct(NotWaiting(ids, inDegree))
  {
    if ids != [] {
      DistinctTail(ids);
      NotWaitingIsDistinct(ids[1..], inDegree);
    }
  }

  lemma {:induction false} NoneWaiting(ids: seq<Id>, inDegree: map<Id, nat>)
    requires forall a :: a in ids ==> a in inDegree && inDegree[a] == 0
    ensures NotWaiting(ids, inDegree) == ids
  {
    if ids != [] {
      assert ids[0] in ids;
      NoneWaiting(ids[1..], inDegree);
    }
  }

  lemma InitiallyReady(items: seq<Item>, inDegree: map<Id, nat>)
    requires DistinctIds(items) && CountsOpen(items, inDegree, [])
    ensures Stands(items, inDegree, StableSort(NotWaiting(Ids(items), inDegree), Weights(items)), [])
    ensures HasNoRequirements(items) ==> NotWaiting(Ids(items), inDegree) == Ids(items)
  {
    var ids := Ids(items);
    NotWaitingIsDistinct(ids, inDegree);
    SortKeepsDistinct(NotWaiting(ids, inDegree), Weights(items));
    StableSortSorts(NotWaiting(ids, inDegree), Weights(items));
    forall a | IsId(items, a)
      ensures inDegree[a] == 0 <==> IsReady(items, a, [])
    {
      ReadyMeansNoneOpen(items, a, []);
    }
    if HasNoRequirements(items) {
      NoneWaiting(ids, inDegree);
    }
  }

  lemma NothingDepends(items: seq<Item>, dependents: map<Id, seq<Id>>, current: Id)
    requires HasNoRequirements(items) && CountsDependents(items, dependents)
    ensures Successors(dependents, current) == []
  {
    forall a
      ensures a !in Successors(dependents, current)
    {
      assert DependentCount(dependents, current, a) ==
             if IsId(items, a) then RequiredCount(items, RequirementsOf(items, a), current) else 0;
      CountIsZero(RequirementsOf(items, a), current);
      assert IsId(items, a) ==> !Requires(items, a, current);
      OccursMeansListed(Successors(dependents, current), a);
    }
    NonEmptyHasMember(Successors(dependents, current));
  }

  lemma PlacingTheRest(items: seq<Item>, placed: seq<Id>, ordered: seq<Id>)
    requires DistinctIds(items) && Distinct(placed) && IsReadyOrder(items, placed)
    requires forall a :: a in placed ==> IsId(items, a)
    requires forall a {:trigger IsReady(items, a, placed)} ::
      IsId(items, a) && a !in placed ==> !IsReady(items, a, placed)
    requires ordered == placed + StableSort(NotIn(Ids(items), placed), Weights(items))
    ensures IsPolicyOrder(items, ordered)
    ensures NotIn(Ids(items), placed) == StuckIds(items, Ids(items))
    ensures |ordered| == |placed| + |StuckIds(items, Ids(items))|
  {
    var ids := Ids(items);
    var left := NotIn(ids, placed);
    var tail := StableSort(left, Weights(items));
    forall a | a in ids
      ensures a !in placed <==> IsStuck(items, a)
    {
      if a in placed {
        PlacedAreNotStuck(items, placed, a);
      } else {
        LeftoversAreStuck(items, placed, a);
      }
    }
    NotPlacedAreStuck(items, ids, placed);
    PlacedAndNotIn(ids, placed);
    StableSortSorts(left, Weights(items));
    assert |tail| == |multiset(tail)| && |left| == |multiset(left)|;
    forall i | 0 <= i < |ordered|
      ensures IsStuck(items, ordered[i]) <==> i >= |placed|
    {
      if i < |placed| {
        assert ordered[i] in placed;
      } else {
        assert tail[i - |placed|] in multiset(tail);
        assert ordered[i] in left;
      }
    }
    forall i | 0 <= i < |placed|
      ensures IsReady(items, ordered[i], ordered[..i]) && IsLightestReady(items, ordered, i)
    {
      assert ordered[..i] == placed[..i] && ordered[i] == placed[i];
      assert IsLightestReady(items, placed, i);
    }
  }

  lemma {:induction false} AllPlaced(items: seq<Item>, placed: seq<Id>)
    requires DistinctIds(items) && Distinct(placed) && forall a :: a in placed ==> IsId(items, a)
    ensures |placed| == |items| <==> NotIn(Ids(items), placed) == []
  {
    PlacedAndNotIn(Ids(items), placed);
    assert |multiset(placed) + multiset(NotIn(Ids(items), placed))| == |placed| + |NotIn(Ids(items), placed)|;
    assert |multiset(Ids(items))| == |items|;
  }

  /** The main loop: place what is ready until nothing is. */
  method PlaceAllReady(items: seq<Item>) returns (placed: seq<Id>)
    requires DistinctIds(items)
    ensures Distinct(placed) && IsReadyOrder(items, placed) && forall a :: a in placed ==> IsId(items, a)
    ensures forall a {:trigger IsReady(items, a, placed)} ::
              IsId(items, a) && a !in placed ==> !IsReady(items, a, placed)
    ensures HasNoRequirements(items) ==> placed == StableSort(Ids(items), Weights(items))
  {
    var ids := Ids(items);
    var dependents, inDegree := CollectDependents(items);
    var ready := StableSort(NotWaiting(ids, inDegree), Weights(items));
    placed := [];
    InitiallyReady(items, inDegree);
    while ready != []
      invariant Stands(items, inDegree, ready, placed)
      invariant HasNoRequirements(items) ==> placed + ready == StableSort(ids, Weights(items))
      decreases Elements(ids) - Elements(placed)
    {
      var current := ready[0];
      if HasNoRequirements(items) {
        NothingDepends(items, dependents, current);
        MoveHead(placed, ready);
      }
      inDegree, ready := PlaceNext(items, dependents, inDegree, ready, placed);
      OneFewerLeft(ids, placed, current);
      placed := placed + [current];
    }
  }

  method OrderIdsByRequirements(items: seq<Item>) returns (ordered: seq<Id>)
    requires DistinctIds(items)
    ensures IsPolicyOrder(items, ordered)
    // the stuck policies come last, in the order of a stable sort by weight
    ensures |StuckIds(items, Ids(items))| <= |ordered|
    ensures StableSort(StuckIds(items, Ids(items)), Weights(items)) ==
            ordered[|ordered| - |StuckIds(items, Ids(items))|..]
    ensures HasNoRequirements(items) ==> ordered == StableSort(Ids(items), Weights(items))
  {
    ordered := PlaceAllReady(items);
    ghost var placed := ordered;
    AllPlaced(items, placed);
    if |ordered| != |items| {
      ordered := ordered + StableSort(NotIn(Ids(items), ordered), Weights(items));
    }
    PlacingTheRest(items, placed, ordered);
    if HasNoRequirements(items) {
      StableSortSorts(Ids(items), Weights(items));
      assert |multiset(placed)| == |multiset(Ids(items))|;
    }
  }
}
