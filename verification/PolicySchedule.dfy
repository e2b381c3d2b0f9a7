/**
 The queue of a minion is put together group by group, one group for each target collection
 (get_policies_for_minion in saltbox_core/tasks/services/tasks_minion.py).
 */
module PolicySchedule {
  import opened Graphs
  import opened Sequences
  import opened PolicyOrdering
  import opened PolicyQueue
  import opened TaskStatuses

  /** The policies of one collection in the given order, none of them evaluated yet. */
  function QueueOf(items: seq<Item>, ordered: seq<Id>, retries: Id -> nat): (r: seq<Policy>)
    ensures |r| == |ordered|
    ensures forall i :: 0 <= i < |r| ==>
              r[i] == Policy(ordered[i], RequirementsOf(items, ordered[i]), retries(ordered[i]), Pending, 0, 0, false)
  {
    seq(|ordered|, i requires 0 <= i < |ordered| =>
      Policy(ordered[i], RequirementsOf(items, ordered[i]), retries(ordered[i]), Pending, 0, 0, false))
  }

  lemma IdsOfQueue(queue: seq<Policy>, id: Id)
    ensures IsId(ItemsOf(queue), id) <==> Names(queue, id)
  {
    if IsId(ItemsOf(queue), id) {
      var i :| 0 <= i < |queue| && Ids(ItemsOf(queue))[i] == id;
      assert queue[i] in queue;
    }
    if p :| p in queue && p.id == id {
      var i :| 0 <= i < |queue| && queue[i] == p;
      assert Ids(ItemsOf(queue))[i] == id;
    }
  }

  lemma OrderedQueueNames(items: seq<Item>, ordered: seq<Id>, retries: Id -> nat, n: nat, id: Id)
    requires n <= |ordered|
    ensures Names(QueueOf(items, ordered, retries)[..n], id) <==> id in ordered[..n]
  {
    var queue := QueueOf(items, ordered, retries);
    if p :| p in queue[..n] && p.id == id {
      var i :| 0 <= i < n && queue[i] == p;
      assert ordered[..n][i] == id;
    }
    if id in ordered[..n] {
      var i :| 0 <= i < n && ordered[i] == id;
      assert queue[..n][i] in queue[..n];
    }
  }

  /** The requirement graphs of the items and of the queue made from them have the same edges. */
  lemma SameRequirements(items: seq<Item>, ordered: seq<Id>, retries: Id -> nat, a: Id, b: Id)
    requires DistinctIds(items) && Distinct(ordered) && forall id :: id in ordered <==> IsId(items, id)
    requires Edge(RequirementGraph(items), a, b)
    ensures Edge(RequirementGraph(ItemsOf(QueueOf(items, ordered, retries))), a, b)
  {
    var queue := QueueOf(items, ordered, retries);
    assert queue[..|queue|] == queue && ordered[..|ordered|] == ordered;
    OrderedQueueNames(items, ordered, retries, |ordered|, a);
    OrderedQueueNames(items, ordered, retries, |ordered|, b);
    IdsOfQueue(queue, a);
    IdsOfQueue(queue, b);
    var i :| 0 <= i < |ordered| && ordered[i] == a;
    assert Ids(ItemsOf(queue)) == ordered;
    RequirementsAt(ItemsOf(queue), i);
  }

  lemma OrderIsPermutation(items: seq<Item>, ordered: seq<Id>)
    requires DistinctIds(items) && multiset(ordered) == multiset(Ids(items))
    ensures Distinct(ordered) && forall id :: id in ordered <==> IsId(items, id)
  {
    DistinctByCount(Ids(items));
    DistinctByCount(ordered);
    assert forall id :: id in ordered <==> id in multiset(ordered);
    assert forall id :: IsId(items, id) <==> id in multiset(Ids(items));
  }

  /** What the ordering guarantees is what the queue needs. */
  lemma OrderedQueueIsWellOrdered(items: seq<Item>, ordered: seq<Id>, retries: Id -> nat)
    requires DistinctIds(items) && IsPolicyOrder(items, ordered)
    ensures WellOrdered(QueueOf(items, ordered, retries)) && IsFresh(QueueOf(items, ordered, retries))
    ensures forall id :: Names(QueueOf(items, ordered, retries), id) <==> IsId(items, id)
  {
    var queue := QueueOf(items, ordered, retries);
    OrderIsPermutation(items, ordered);
    assert Ids(ItemsOf(queue)) == ordered;
    assert queue[..|queue|] == queue && ordered[..|ordered|] == ordered;
    forall id
      ensures Names(queue, id) <==> IsId(items, id)
    {
      OrderedQueueNames(items, ordered, retries, |ordered|, id);
    }
    forall i | 0 <= i < |queue|
      ensures IsStuckAt(queue, i) || RequirementsBefore(queue, i)
    {
      if IsStuck(items, ordered[i]) {
        StuckInQueue(items, ordered, retries, ordered[i]);
      } else {
        ReadyInQueue(items, ordered, retries, i);
      }
    }
  }

  lemma ReadyInQueue(items: seq<Item>, ordered: seq<Id>, retries: Id -> nat, i: nat)
    requires i < |ordered| && IsReady(items, ordered[i], ordered[..i])
    requires forall id :: Names(QueueOf(items, ordered, retries), id) <==> IsId(items, id)
    ensures RequirementsBefore(QueueOf(items, ordered, retries), i)
  {
    var queue := QueueOf(items, ordered, retries);
    forall r | r in queue[i].requirements && Names(queue, r.taskId)
      ensures Names(queue[..i], r.taskId)
    {
      assert Requires(items, ordered[i], r.taskId);
      OrderedQueueNames(items, ordered, retries, i, r.taskId);
    }
  }

  lemma StuckInQueue(items: seq<Item>, ordered: seq<Id>, retries: Id -> nat, id: Id)
    requires DistinctIds(items) && Distinct(ordered) && forall a :: a in ordered <==> IsId(items, a)
    requires IsStuck(items, id)
    ensures IsStuck(ItemsOf(QueueOf(items, ordered, retries)), id)
  {
    forall a, b | Edge(RequirementGraph(items), a, b)
      ensures Edge(RequirementGraph(ItemsOf(QueueOf(items, ordered, retries))), a, b)
    {
      SameRequirements(items, ordered, retries, a, b);
    }
    SubgraphLeadsToCycle(RequirementGraph(items), RequirementGraph(ItemsOf(QueueOf(items, ordered, retries))), id);
  }

  lemma SubgraphLeadsToCycle(g: map<Id, seq<Id>>, h: map<Id, seq<Id>>, a: Id)
    requires Subgraph(g, h) && LeadsToCycle(g, a)
    ensures LeadsToCycle(h, a)
  {
    var c :| Reaches(g, c, c) && (c == a || Reaches(g, a, c));
    SubgraphReaches(g, h, c, c);
    if c != a {
      SubgraphReaches(g, h, a, c);
    }
  }

  /** No policy of one queue is in, or requires something in, the other. */
  predicate AreSeparate(p: seq<Policy>, q: seq<Policy>) {
    && (forall a :: a in p ==> !Names(q, a.id))
    && (forall a, r :: a in p && r in a.requirements ==> !Names(q, r.taskId))
    && (forall a, r :: a in q && r in a.requirements ==> !Names(p, r.taskId))
  }

  lemma NamesInConcat(p: seq<Policy>, q: seq<Policy>, id: Id)
    ensures Names(p + q, id) <==> Names(p, id) || Names(q, id)
  {
    assert forall a :: a in p + q <==> a in p || a in q;
  }

  lemma PartRequires(queue: seq<Policy>, part: seq<Policy>, at: nat, a: Id, b: Id)
    requires DistinctIds(ItemsOf(queue)) && DistinctIds(ItemsOf(part))
    requires at + |part| <= |queue| && queue[at..at + |part|] == part
    requires IsId(ItemsOf(part), a) && Requires(ItemsOf(part), a, b)
    ensures IsId(ItemsOf(queue), a) && Requires(ItemsOf(queue), a, b)
  {
    var k := PartNames(queue, part, at, a);
    var l := PartNames(queue, part, at, b);
    RequirementsAt(ItemsOf(part), k);
    RequirementsAt(ItemsOf(queue), at + k);
  }

  lemma PartNames(queue: seq<Policy>, part: seq<Policy>, at: nat, a: Id) returns (k: nat)
    requires at + |part| <= |queue| && queue[at..at + |part|] == part && IsId(ItemsOf(part), a)
    ensures k < |part| && part[k] == queue[at + k] && part[k].id == a
    ensures Ids(ItemsOf(part))[k] == a && Ids(ItemsOf(queue))[at + k] == a && IsId(ItemsOf(queue), a)
  {
    k :| 0 <= k < |part| && Ids(ItemsOf(part))[k] == a;
    assert part[k] == queue[at + k];
    assert Ids(ItemsOf(queue))[at + k] == a;
  }

  /** queue contains part from position at on: what leads to a cycle in part does so in queue. */
  lemma StuckInPart(queue: seq<Policy>, part: seq<Policy>, at: nat, i: nat)
    requires DistinctIds(ItemsOf(queue)) && DistinctIds(ItemsOf(part))
    requires at + |part| <= |queue| && queue[at..at + |part|] == part
    requires i < |part| && IsStuckAt(part, i)
    ensures IsStuckAt(queue, at + i)
  {
    var g, h := RequirementGraph(ItemsOf(part)), RequirementGraph(ItemsOf(queue));
    forall a, b | Edge(g, a, b)
      ensures Edge(h, a, b)
    {
      PartRequires(queue, part, at, a, b);
    }
    assert part[i] == queue[at + i];
    SubgraphLeadsToCycle(g, h, part[i].id);
  }

  lemma ConcatHasDistinctIds(p: seq<Policy>, q: seq<Policy>)
    requires DistinctIds(ItemsOf(p)) && DistinctIds(ItemsOf(q)) && AreSeparate(p, q)
    ensures DistinctIds(ItemsOf(p + q))
  {
    var ids := Ids(ItemsOf(p + q));
    forall i, j | 0 <= i < j < |ids|
      ensures ids[i] != ids[j]
    {
      if j < |p| {
        assert Ids(ItemsOf(p))[i] != Ids(ItemsOf(p))[j];
      } else if i >= |p| {
        assert Ids(ItemsOf(q))[i - |p|] != Ids(ItemsOf(q))[j - |p|];
      } else {
        assert p[i] in p && q[j - |p|] in q;
      }
    }
  }

  /** Groups ordered one by one make a well-ordered queue. */
  lemma ConcatIsWellOrdered(p: seq<Policy>, q: seq<Policy>)
    requires WellOrdered(p) && WellOrdered(q) && AreSeparate(p, q)
    ensures WellOrdered(p + q)
  {
    ConcatHasDistinctIds(p, q);
    forall i | 0 <= i < |p + q|
      ensures IsStuckAt(p + q, i) || RequirementsBefore(p + q, i)
    {
      if i < |p| {
        FirstPartStands(p, q, i);
      } else {
        SecondPartStands(p, q, i - |p|);
      }
    }
  }

  lemma FirstPartStands(p: seq<Policy>, q: seq<Policy>, i: nat)
    requires WellOrdered(p) && WellOrdered(q) && AreSeparate(p, q) && DistinctIds(ItemsOf(p + q)) && i < |p|
    ensures IsStuckAt(p + q, i) || RequirementsBefore(p + q, i)
  {
    var queue := p + q;
    assert queue[0..|p|] == p && queue[..i] == p[..i] && p[i] in p;
    assert IsStuckAt(p, i) || RequirementsBefore(p, i);
    if IsStuckAt(p, i) {
      StuckInPart(queue, p, 0, i);
    } else {
      forall r | r in queue[i].requirements && Names(queue, r.taskId)
        ensures Names(queue[..i], r.taskId)
      {
        NamesInConcat(p, q, r.taskId);
      }
    }
  }

  lemma SecondPartStands(p: seq<Policy>, q: seq<Policy>, k: nat)
    requires WellOrdered(p) && WellOrdered(q) && AreSeparate(p, q) && DistinctIds(ItemsOf(p + q)) && k < |q|
    ensures IsStuckAt(p + q, |p| + k) || RequirementsBefore(p + q, |p| + k)
  {
    var queue := p + q;
    assert queue[|p|..|p| + |q|] == q && queue[..|p| + k] == p + q[..k] && q[k] in q;
    assert IsStuckAt(q, k) || RequirementsBefore(q, k);
    if IsStuckAt(q, k) {
      StuckInPart(queue, q, |p|, k);
    } else {
      forall r | r in queue[|p| + k].requirements && Names(queue, r.taskId)
        ensures Names(queue[..|p| + k], r.taskId)
      {
        NamesInConcat(p, q, r.taskId);
        NamesInConcat(p, q[..k], r.taskId);
      }
    }
  }

  /** Policies only require policies of their own collection, and a policy belongs to one collection. */
  ghost predicate GroupsAreSeparate(groups: seq<seq<Item>>) {
    && (forall i :: 0 <= i < |groups| ==> DistinctIds(groups[i]))
    && (forall i, j, a :: 0 <= i < |groups| && 0 <= j < |groups| && i != j && IsId(groups[i], a) ==>
          !IsId(groups[j], a) && forall r :: r in RequirementsOf(groups[i], a) ==> !IsId(groups[j], r.taskId))
  }

  ghost predicate ComesFrom(queue: seq<Policy>, groups: seq<seq<Item>>, n: nat)
    requires n <= |groups|
  {
    forall p :: p in queue ==> exists i :: 0 <= i < n && IsId(groups[i], p.id) &&
                                           p.requirements == RequirementsOf(groups[i], p.id)
  }

  /** get_policies_for_minion: the groups come in the order of their collections. */
  method QueueForMinion(groups: seq<seq<Item>>, retries: Id -> nat) returns (queue: seq<Policy>)
    requires GroupsAreSeparate(groups)
    ensures WellOrdered(queue) && IsFresh(queue)
    ensures forall id :: Names(queue, id) <==> exists i :: 0 <= i < |groups| && IsId(groups[i], id)
  {
    queue := [];
    for n := 0 to |groups|
      invariant WellOrdered(queue) && IsFresh(queue)
      invariant ComesFrom(queue, groups, n)
      invariant forall id :: Names(queue, id) <==> exists i :: 0 <= i < n && IsId(groups[i], id)
    {
      var ordered := OrderIdsByRequirements(groups[n]);
      var part := QueueOf(groups[n], ordered, retries);
      OrderedQueueIsWellOrdered(groups[n], ordered, retries);
      PartIsSeparate(queue, groups, n, part);
      ConcatIsWellOrdered(queue, part);
      forall id
        ensures Names(queue + part, id) <==> exists i :: 0 <= i < n + 1 && IsId(groups[i], id)
      {
        NamesInConcat(queue, part, id);
      }
      queue := queue + part;
    }
  }

  lemma PartIsSeparate(queue: seq<Policy>, groups: seq<seq<Item>>, n: nat, part: seq<Policy>)
    requires GroupsAreSeparate(groups) && n < |groups| && ComesFrom(queue, groups, n)
    requires forall id :: Names(queue, id) <==> exists i :: 0 <= i < n && IsId(groups[i], id)
    requires forall id :: Names(part, id) <==> IsId(groups[n], id)
    requires forall p :: p in part ==> p.requirements == RequirementsOf(groups[n], p.id)
    ensures AreSeparate(queue, part) && ComesFrom(queue + part, groups, n + 1)
  {
    forall a | a in part
      ensures IsId(groups[n], a.id)
    {
      assert Names(part, a.id);
    }
  }
}
