/**
 Directed graphs given by successor lists, and the depth-first cycle search of
 saltbox_core/minion_collections/utils/collection_filter.py.
 A node without an entry has no successors.
 */
module Graphs {
  import opened Sequences
  import opened Wrappers

  function Successors<K>(g: map<K, seq<K>>, a: K): seq<K> {
    if a in g then g[a] else []
  }

  predicate Edge<K(==)>(g: map<K, seq<K>>, a: K, b: K) {
    b in Successors(g, a)
  }

  /** A non-empty sequence of nodes, each joined to the next by an edge. */
  ghost predicate IsWalk<K>(g: map<K, seq<K>>, p: seq<K>) {
    && |p| > 0
    && forall i, j {:trigger Edge(g, p[i], p[j])} :: 0 <= i < |p| && j == i + 1 && j < |p| ==> Edge(g, p[i], p[j])
  }

  /** A walk from a to b with at least one edge. */
  ghost predicate IsWalkFromTo<K>(g: map<K, seq<K>>, p: seq<K>, a: K, b: K) {
    IsWalk(g, p) && |p| >= 2 && p[0] == a && p[|p| - 1] == b
  }

  ghost predicate Reaches<K(!new)>(g: map<K, seq<K>>, a: K, b: K) {
    exists p :: IsWalkFromTo(g, p, a, b)
  }

  ghost predicate Acyclic<K(!new)>(g: map<K, seq<K>>) {
    forall a :: !Reaches(g, a, a)
  }

  /** A closed walk through start that visits nothing else twice. */
  ghost predicate IsSimpleCycle<K>(g: map<K, seq<K>>, start: K, c: seq<K>) {
    IsWalkFromTo(g, c, start, start) && Distinct(c[..|c| - 1])
  }

  /** Every successor of a node of s is in s. */
  ghost predicate Closed<K(!new)>(g: map<K, seq<K>>, s: set<K>, into: set<K>) {
    forall a, b :: a in s && Edge(g, a, b) ==> b in into
  }

  lemma EdgeReaches<K(!new)>(g: map<K, seq<K>>, a: K, b: K)
    requires Edge(g, a, b)
    ensures Reaches(g, a, b)
  {
    assert IsWalkFromTo(g, [a, b], a, b);
  }

  /** Two walks that meet make one walk. */
  lemma JoinWalks<K>(g: map<K, seq<K>>, p: seq<K>, q: seq<K>)
    requires IsWalk(g, p) && IsWalk(g, q) && p[|p| - 1] == q[0]
    ensures IsWalk(g, p + q[1..])
  {
    var r := p + q[1..];
    forall i, j | 0 <= i < |r| && j == i + 1 && j < |r|
      ensures Edge(g, r[i], r[j])
    {
      if j >= |p| {
        assert r[j] == q[j - |p| + 1] && r[i] == q[i - |p| + 1];
      }
    }
  }

  lemma ReachesTransitive<K(!new)>(g: map<K, seq<K>>, a: K, b: K, c: K)
    requires Reaches(g, a, b) && Reaches(g, b, c)
    ensures Reaches(g, a, c)
  {
    var p :| IsWalkFromTo(g, p, a, b);
    var q :| IsWalkFromTo(g, q, b, c);
    JoinWalks(g, p, q);
    assert IsWalkFromTo(g, p + q[1..], a, c);
  }

  lemma ExtendWalk<K>(g: map<K, seq<K>>, p: seq<K>, b: K)
    requires IsWalk(g, p) && Edge(g, p[|p| - 1], b)
    ensures IsWalk(g, p + [b])
  {
    assert [p[|p| - 1], b][1..] == [b];
    JoinWalks(g, p, [p[|p| - 1], b]);
  }

  /** A contiguous part of a walk is a walk. */
  lemma SubWalk<K>(g: map<K, seq<K>>, p: seq<K>, lo: nat, hi: nat)
    requires IsWalk(g, p) && lo < hi <= |p|
    ensures IsWalk(g, p[lo..hi])
  {
    var r := p[lo..hi];
    forall i, j | 0 <= i < |r| && j == i + 1 && j < |r|
      ensures Edge(g, r[i], r[j])
    {
      assert r[i] == p[lo + i] && r[j] == p[lo + j];
    }
  }

  /** A walk that starts in a set closed under successors stays in it. */
  lemma {:induction false} WalkStaysIn<K(!new)>(g: map<K, seq<K>>, s: set<K>, p: seq<K>, k: nat)
    requires Closed(g, s, s) && IsWalk(g, p) && p[0] in s && k < |p|
    ensures p[k] in s
  {
    if k > 0 {
      WalkStaysIn(g, s, p, k - 1);
      assert Edge(g, p[k - 1], p[k]);
    }
  }

  /** A walk whose last node was visited before has entered a cycle. */
  lemma WalkEntersCycle<K(!new)>(g: map<K, seq<K>>, p: seq<K>, k: nat)
    requires IsWalk(g, p) && k < |p| - 1 && p[k] == p[|p| - 1]
    ensures Reaches(g, p[k], p[k]) && (k == 0 || Reaches(g, p[0], p[k]))
  {
    SubWalk(g, p, k, |p|);
    assert IsWalkFromTo(g, p[k..|p|], p[k], p[k]);
    SubWalk(g, p, 0, k + 1);
    if k > 0 {
      assert IsWalkFromTo(g, p[0..k + 1], p[0], p[k]);
    }
  }

  ghost predicate HasSuccessorIn<K(!new)>(g: map<K, seq<K>>, s: set<K>, a: K) {
    exists b :: b in s && Edge(g, a, b)
  }

  ghost predicate LeadsToCycle<K(!new)>(g: map<K, seq<K>>, a: K) {
    exists c :: Reaches(g, c, c) && (c == a || Reaches(g, a, c))
  }

  /** When every node of a finite set has a successor in the set, each of them leads to a cycle. */
  lemma EndlessMeansCycle<K(!new)>(g: map<K, seq<K>>, s: set<K>, a: K)
    requires forall b {:trigger HasSuccessorIn(g, s, b)} :: b in s ==> HasSuccessorIn(g, s, b)
    requires a in s
    ensures LeadsToCycle(g, a)
  {
    EndlessWalk(g, s, [a], s - {a});
  }

  lemma {:induction false} EndlessWalk<K(!new)>(g: map<K, seq<K>>, s: set<K>, p: seq<K>, unvisited: set<K>)
    requires forall b {:trigger HasSuccessorIn(g, s, b)} :: b in s ==> HasSuccessorIn(g, s, b)
    requires IsWalk(g, p) && p[|p| - 1] in s
    requires forall b :: b in s ==> b in p || b in unvisited
    ensures LeadsToCycle(g, p[0])
    decreases unvisited
  {
    var last := p[|p| - 1];
    assert HasSuccessorIn(g, s, last);
    var b :| b in s && Edge(g, last, b);
    ExtendWalk(g, p, b);
    if b in p {
      var k :| 0 <= k < |p| && p[k] == b;
      WalkEntersCycle(g, p + [b], k);
    } else {
      EndlessWalk(g, s, p + [b], unvisited - {b});
    }
  }

  /** Whatever leads to a cycle has a successor that does. */
  lemma LeadsOn<K(!new)>(g: map<K, seq<K>>, a: K)
    requires LeadsToCycle(g, a)
    ensures exists b :: Edge(g, a, b) && LeadsToCycle(g, b)
  {
    var c :| Reaches(g, c, c) && (c == a || Reaches(g, a, c));
    var p :| IsWalkFromTo(g, p, a, c);
    assert Edge(g, p[0], p[1]);
    if |p| > 2 {
      SubWalk(g, p, 1, |p|);
      assert IsWalkFromTo(g, p[1..|p|], p[1], c);
    }
    assert LeadsToCycle(g, p[1]);
  }

  ghost predicate Subgraph<K(!new)>(g: map<K, seq<K>>, h: map<K, seq<K>>) {
    forall a, b :: Edge(g, a, b) ==> Edge(h, a, b)
  }

  lemma SubgraphReaches<K(!new)>(g: map<K, seq<K>>, h: map<K, seq<K>>, a: K, b: K)
    requires Subgraph(g, h) && Reaches(g, a, b)
    ensures Reaches(h, a, b)
  {
    var p :| IsWalkFromTo(g, p, a, b);
    assert IsWalkFromTo(h, p, a, b);
  }

  // Several nodes change their edges at once. alone[t] is the graph in which only t has changed, g the
  // graph before, h the graph after. Every new edge leaves a changed node and is shared by all of them.

  ghost predicate IsSharedEdge<K(!new)>(g: map<K, seq<K>>, alone: map<K, map<K, seq<K>>>, t: K, a: K, b: K)
    requires t in alone
  {
    if Edge(g, a, b) then Edge(alone[t], a, b) else a in alone && Edge(alone[t], t, b)
  }

  ghost predicate IsSimultaneousChange<K(!new)>(g: map<K, seq<K>>, h: map<K, seq<K>>, alone: map<K, map<K, seq<K>>>) {
    forall a, b, t {:trigger IsSharedEdge(g, alone, t, a, b)} ::
      Edge(h, a, b) && t in alone ==> IsSharedEdge(g, alone, t, a, b)
  }

  /** p leads from something all changed nodes now lead to, to a changed node: cut it at its first new edge. */
  lemma {:induction false} FirstNewEdgeClosesWalk<K(!new)>(
    g: map<K, seq<K>>, h: map<K, seq<K>>, alone: map<K, map<K, seq<K>>>, p: seq<K>)
    requires IsSimultaneousChange(g, h, alone)
    requires IsWalk(h, p) && p[|p| - 1] in alone
    requires forall t :: t in alone ==> Edge(alone[t], t, p[0])
    ensures exists t :: t in alone && Reaches(alone[t], t, t)
    decreases |p|
  {
    var t := p[|p| - 1];
    if k :| 0 <= k < |p| - 1 && !Edge(g, p[k], p[k + 1]) {
      assert Edge(h, p[k], p[k + 1]) && IsSharedEdge(g, alone, t, p[k], p[k + 1]);
      SubWalk(h, p, 0, k + 1);
      FirstNewEdgeClosesWalk(g, h, alone, p[0..k + 1]);
    } else {
      forall i, j | 0 <= i < |p| && j == i + 1 && j < |p|
        ensures Edge(alone[t], p[i], p[j])
      {
        assert Edge(h, p[i], p[j]) && Edge(g, p[i], p[i + 1]) && IsSharedEdge(g, alone, t, p[i], p[j]);
      }
      JoinWalks(alone[t], [t, p[0]], p);
      assert IsWalkFromTo(alone[t], [t, p[0]] + p[1..], t, t);
    }
  }

  /** A closed walk, turned round to start behind its k-th edge. */
  lemma RotateWalk<K>(h: map<K, seq<K>>, p: seq<K>, a: K, k: nat) returns (q: seq<K>)
    requires IsWalkFromTo(h, p, a, a) && k < |p| - 1
    ensures IsWalk(h, q) && q[0] == p[k + 1] && q[|q| - 1] == p[k]
  {
    SubWalk(h, p, k + 1, |p|);
    SubWalk(h, p, 0, k + 1);
    JoinWalks(h, p[k + 1..|p|], p[0..k + 1]);
    q := p[k + 1..|p|] + p[0..k + 1][1..];
  }

  /** When no changed node reaches itself in the graph where it alone has changed, the change makes no cycle. */
  lemma SimultaneousChangeKeepsAcyclic<K(!new)>(g: map<K, seq<K>>, h: map<K, seq<K>>, alone: map<K, map<K, seq<K>>>)
    requires IsSimultaneousChange(g, h, alone)
    requires alone == map[] ==> Subgraph(h, g)
    requires Acyclic(g)
    requires forall t :: t in alone ==> !Reaches(alone[t], t, t)
    ensures Acyclic(h)
  {
    forall a, p | IsWalkFromTo(h, p, a, a)
      ensures false
    {
      if k :| 0 <= k < |p| - 1 && !Edge(g, p[k], p[k + 1]) {
        assert Edge(h, p[k], p[k + 1]);
        forall t | t in alone
          ensures Edge(alone[t], t, p[k + 1]) && p[k] in alone
        {
          assert IsSharedEdge(g, alone, t, p[k], p[k + 1]);
        }
        var q := RotateWalk(h, p, a, k);
        FirstNewEdgeClosesWalk(g, h, alone, q);
      } else {
        assert IsWalkFromTo(g, p, a, a);
        assert Reaches(g, a, a);
      }
    }
  }

  // ---------- the converse: one of several changes ----------

  /** What a alone newly leads to, every changed node leads to in h; the edges of the others are in h as before. */
  ghost predicate IsPartOfChange<K(!new)>(
    g: map<K, seq<K>>, h: map<K, seq<K>>, part: map<K, seq<K>>, t: K, changed: set<K>)
  {
    && t in changed
    && (forall a, b :: Edge(part, a, b) && !Edge(g, a, b) ==> a == t)
    && (forall a, b :: Edge(part, a, b) && !Edge(g, a, b) ==> forall u :: u in changed ==> Edge(h, u, b))
    && (forall a, b :: Edge(g, a, b) && a !in changed ==> Edge(h, a, b))
  }

  lemma {:induction false} FirstIn<K>(p: seq<K>, s: set<K>) returns (k: nat)
    requires |p| > 0 && p[|p| - 1] in s
    ensures k < |p| && p[k] in s && forall j :: 0 <= j < k ==> p[j] !in s
  {
    k := 0;
    while p[k] !in s
      invariant k < |p| && forall j :: 0 <= j < k ==> p[j] !in s
      decreases |p| - k
    {
      k := k + 1;
    }
  }

  /** From what t alone newly leads to, the walk comes to a changed node, which leads back there. */
  lemma {:induction false} NewEdgeClosesWalk<K(!new)>(
    g: map<K, seq<K>>, h: map<K, seq<K>>, part: map<K, seq<K>>, t: K, changed: set<K>, p: seq<K>)
    requires IsPartOfChange(g, h, part, t, changed)
    requires IsWalk(part, p) && p[|p| - 1] in changed
    requires forall u :: u in changed ==> Edge(h, u, p[0])
    ensures !Acyclic(h)
  {
    var k := FirstIn(p, changed);
    var q := [p[k]] + p[..k + 1];
    forall i, j | 0 <= i < |q| && j == i + 1 && j < |q|
      ensures Edge(h, q[i], q[j])
    {
      if i > 0 {
        assert q[i] == p[i - 1] && q[j] == p[i - 1 + 1];
        assert Edge(part, p[i - 1], p[i]);
      }
    }
    assert IsWalkFromTo(h, q, p[k], p[k]);
    assert Reaches(h, p[k], p[k]);
  }

  /** When all changes at once close no cycle, none of them closes one alone. */
  lemma {:induction false} PartOfChangeKeepsAcyclic<K(!new)>(
    g: map<K, seq<K>>, h: map<K, seq<K>>, part: map<K, seq<K>>, t: K, changed: set<K>)
    requires IsPartOfChange(g, h, part, t, changed) && Acyclic(g) && Acyclic(h)
    ensures !Reaches(part, t, t)
  {
    forall p | IsWalkFromTo(part, p, t, t)
      ensures false
    {
      if forall i :: 0 <= i < |p| - 1 ==> Edge(g, p[i], p[i + 1]) {
        assert IsWalkFromTo(g, p, t, t);
        assert Reaches(g, t, t);
      } else {
        var i :| 0 <= i < |p| - 1 && !Edge(g, p[i], p[i + 1]);
        assert Edge(part, p[i], p[i + 1]);
        SubWalk(part, p, i + 1, |p|);
        NewEdgeClosesWalk(g, h, part, t, changed, p[i + 1..|p|]);
      }
    }
  }

  /** All nodes that are some node's successor. */
  function Targets<K(!new)>(g: map<K, seq<K>>): (r: set<K>)
    ensures forall a, b :: Edge(g, a, b) ==> b in r
  {
    set a, b | a in g && b in g[a] :: b
  }

  /** The shared state of one search: the path being walked and every node met so far. */
  class CycleSearch<K(==, !new)> {
    const start: K
    const edges: map<K, seq<K>>
    var path: seq<K>
    var checked: set<K>

    constructor (start: K, edges: map<K, seq<K>>)
      ensures this.start == start && this.edges == edges
      ensures path == [start] && checked == {start}
    {
      this.start := start;
      this.edges := edges;
      path := [start];
      checked := {start};
    }

    ghost predicate Valid()
      reads this
    {
      && IsWalk(edges, path) && path[0] == start && Distinct(path)
      && (forall a :: a in path ==> a in checked)
      // a node already left behind has led nowhere new, and not back to start
      && Closed(edges, checked - Elements(path), checked - {start})
    }

    method Walk(node: K) returns (cycle: Option<seq<K>>)
      requires Valid() && path[|path| - 1] == node
      modifies this`path, this`checked
      ensures cycle.Some? ==> IsSimpleCycle(edges, start, cycle.value)
      ensures cycle.None? ==> Valid() && path == old(path) && old(checked) <= checked
      ensures cycle.None? ==> Closed(edges, {node}, checked - {start})
      decreases Targets(edges) - checked
    {
      var nexts := Successors(edges, node);
      for i := 0 to |nexts|
        invariant Valid() && path == old(path) && old(checked) <= checked
        invariant forall j :: 0 <= j < i ==> nexts[j] in checked - {start}
      {
        var next := nexts[i];
        assert Edge(edges, node, next);
        ExtendWalk(edges, path, next);
        if next == start {
          cycle := Some(path + [start]);
          assert cycle.value[..|cycle.value| - 1] == path;
          return;
        }
        if next in checked {
          continue;
        }
        ghost var before := path;
        ghost var left := checked - Elements(path);
        checked := checked + {next};
        path := path + [next];
        assert checked - Elements(path) == left;
        assert next in Targets(edges) && next !in old(checked);
        cycle := Walk(next);
        if cycle.Some? {
          return;
        }
        path := path[..|path| - 1];
        assert path == before;
      }
      cycle := None;
    }
  }

  /** find_cycle: a cycle through start is reported exactly when there is one. */
  method FindCycle<K(==, !new)>(start: K, edges: map<K, seq<K>>) returns (cycle: Option<seq<K>>)
    ensures cycle.Some? <==> Reaches(edges, start, start)
    ensures cycle.Some? ==> IsSimpleCycle(edges, start, cycle.value)
  {
    var search := new CycleSearch(start, edges);
    assert search.checked - Elements(search.path) == {};
    cycle := search.Walk(start);
    if cycle.None? {
      NoCycleThrough(edges, start, search.checked);
    }
  }

  lemma NoCycleThrough<K(!new)>(g: map<K, seq<K>>, start: K, checked: set<K>)
    requires start in checked && Closed(g, checked, checked - {start})
    ensures !Reaches(g, start, start)
  {
    forall p | IsWalkFromTo(g, p, start, start)
      ensures false
    {
      WalkStaysIn(g, checked, p, |p| - 2);
    }
  }
}
