/**
 What a write stores, and which writes are accepted
 (saltbox_core/minion_collections/repositories/collection.py).
 */
module StoreWrites {
  import opened Wrappers
  import opened Graphs
  import opened CollectionFilter
  import opened CollectionStore

  // ---------- what is stored ----------

  ghost predicate IsSameAt(nodes: Nodes, after: Nodes, a: Id) {
    && (a in after <==> a in nodes)
    && (a in nodes ==> after[a] == nodes[a])
  }

  ghost predicate HasChanged(before: Collection, after: Collection, change: Change) {
    && after.slug == before.slug
    && (match change.parent case Some(parent) => after.parent == parent case None => after.parent == before.parent)
    && (match change.query case Some(query) => after.query == query case None => after.query == before.query)
  }

  /** The store that a write asks for. */
  ghost predicate Asks(nodes: Nodes, w: Write, after: Nodes) {
    match w
    case Create(id, c) =>
      && id in after && after[id] == c
      && forall a :: a != id ==> IsSameAt(nodes, after, a)
    case Update(targets, change) =>
      && after.Keys == nodes.Keys
      && forall a :: a in nodes ==>
           if a in targets then HasChanged(nodes[a], after[a], change) else after[a] == nodes[a]
    case Move(target, parent) =>
      && after.Keys == nodes.Keys
      && (target in nodes ==> after[target] == Collection(nodes[target].slug, parent, nodes[target].query))
      && forall a :: a in nodes && a != target ==> after[a] == nodes[a]
    case Delete(ids) =>
      forall a :: if a in ids then a !in after else IsSameAt(nodes, after, a)
  }

  lemma CreateStores(nodes: Nodes, id: Id, c: Collection, after: Nodes)
    ensures Asks(nodes, Write.Create(id, c), after) <==> after == nodes[id := c]
  {
    if Asks(nodes, Write.Create(id, c), after) {
      forall a
        ensures a in after <==> a in nodes[id := c]
        ensures a in after ==> after[a] == nodes[id := c][a]
      {
        assert a != id ==> IsSameAt(nodes, after, a);
      }
      assert after.Keys == nodes[id := c].Keys;
    }
  }

  lemma UpdateStores(nodes: Nodes, targets: set<Id>, change: Change, after: Nodes)
    ensures Asks(nodes, Write.Update(targets, change), after) <==> after == WithChange(nodes, targets, change)
  {
    forall a | a in nodes && a in after
      ensures HasChanged(nodes[a], after[a], change) <==> after[a] == Changed(nodes[a], change)
    {
    }
    if Asks(nodes, Write.Update(targets, change), after) {
      assert after.Keys == WithChange(nodes, targets, change).Keys;
    }
  }

  lemma MoveStores(nodes: Nodes, target: Id, parent: Option<Id>, after: Nodes)
    ensures
      Asks(nodes, Write.Move(target, parent), after) <==>
        after == WithChange(nodes, {target}, Change(Some(parent), None))
  {
    if Asks(nodes, Write.Move(target, parent), after) {
      assert after.Keys == WithChange(nodes, {target}, Change(Some(parent), None)).Keys;
    }
  }

  lemma DeleteStores(nodes: Nodes, ids: set<Id>, after: Nodes)
    ensures Asks(nodes, Write.Delete(ids), after) <==> after == Without(nodes, ids)
  {
    if Asks(nodes, Write.Delete(ids), after) {
      forall a
        ensures a in after <==> a in Without(nodes, ids)
      {
        assert IsSameAt(nodes, after, a) ==> (a in after <==> a in nodes);
      }
      assert after.Keys == Without(nodes, ids).Keys;
    }
  }

  /** An accepted write leaves exactly the store that it asks for, a refused one the store as it was. */
  lemma WriteStoresWhatItAsks(nodes: Nodes, w: Write, after: Nodes)
    ensures Accepted(nodes, w) ==> (Asks(nodes, w, after) <==> after == After(nodes, w))
    ensures !Accepted(nodes, w) ==> After(nodes, w) == nodes
  {
    match w
    case Create(id, c) => CreateStores(nodes, id, c, after);
    case Update(targets, change) => UpdateStores(nodes, targets, change, after);
    case Move(target, parent) => MoveStores(nodes, target, parent, after);
    case Delete(ids) => DeleteStores(nodes, ids, after);
  }

  // ---------- what is accepted ----------

  /** Where slugs are unique, one that is named is left in the store when its collection is. */
  lemma NamedSlugStays(nodes: Nodes, after: Nodes, slug: string, b: Id)
    requires UniqueSlugs(nodes) && b in nodes && nodes[b].slug == slug && SlugExists(after, slug)
    requires forall a :: a in after ==> a in nodes && after[a].slug == nodes[a].slug
    ensures b in after
  {
    var a :| a in after && after[a].slug == slug;
    assert nodes[a].slug == nodes[b].slug;
  }

  /** Deletes are refused only where one would leave a reference to nothing. */
  lemma DeleteIsAccepted(nodes: Nodes, ids: set<Id>, after: Nodes)
    requires Sound(nodes) && Asks(nodes, Write.Delete(ids), after) && Sound(after)
    ensures Accepted(nodes, Write.Delete(ids))
  {
    forall a | a in after
      ensures a in nodes && after[a] == nodes[a] && a !in ids
    {
      assert IsSameAt(nodes, after, a);
    }
    forall a | a in nodes && a !in ids
      ensures a in after
    {
      assert IsSameAt(nodes, after, a);
    }
    forall a, b | a in after && b in nodes && Refers(nodes[a].query, nodes[b].slug)
      ensures b in after
    {
      NamedSlugStays(nodes, after, nodes[b].slug, b);
    }
    forall a | a in nodes && nodes[a].parent.Some? && nodes[a].parent.value in ids
      ensures a in ids
    {
      assert a in after ==> ParentExists(after, after[a].parent);
    }
  }

  /** Creates are refused only where one would break the store, or name its own empty slug. */
  lemma CreateIsAccepted(nodes: Nodes, id: Id, c: Collection, after: Nodes)
    requires Sound(nodes) && id !in nodes && Asks(nodes, Write.Create(id, c), after) && Sound(after)
    requires !Refers(c.query, c.slug)
    ensures CanCreate(nodes, c)
  {
    forall a | a in nodes
      ensures a in after && after[a] == nodes[a] && a != id
    {
      assert IsSameAt(nodes, after, a);
    }
    assert !SlugExists(nodes, c.slug) by {
      assert forall a :: a in nodes ==> after[a].slug != after[id].slug;
    }
    forall slug | Refers(c.query, slug)
      ensures SlugExists(nodes, slug)
    {
      assert SlugsExist(after, after[id].query);
      var b :| b in after && after[b].slug == slug;
      assert b != id && IsSameAt(nodes, after, b);
    }
    NotItsOwnParent(after, id);
    assert ParentExists(after, c.parent);
    if c.parent.Some? {
      assert IsSameAt(nodes, after, c.parent.value);
    }
  }

  lemma NotItsOwnParent(nodes: Nodes, a: Id)
    requires Acyclic(DependencyGraph(nodes, true)) && a in nodes
    ensures nodes[a].parent != Some(a)
  {
    if nodes[a].parent == Some(a) {
      assert DependsOn(nodes, a, a, true);
      EdgeReaches(DependencyGraph(nodes, true), a, a);
    }
  }

  /** An update of several targets closes a cycle whenever it would close one for a single target. */
  lemma UpdateClosesNoneAlone(
    nodes: Nodes, targets: set<Id>, change: Change, t: Id,
    g: map<Id, seq<Id>>, h: map<Id, seq<Id>>, part: map<Id, seq<Id>>)
    requires t in targets && t in nodes
    requires Pictures(g, nodes) && Pictures(h, WithChange(nodes, targets, change))
    requires Pictures(part, WithChange(nodes, {t}, change))
    requires Acyclic(g) && Acyclic(h)
    ensures !Reaches(part, t, t)
  {
    var changed := targets * nodes.Keys;
    assert IsPartOfChange(g, h, part, t, changed) by {
      forall a, b | Edge(part, a, b) && !Edge(g, a, b)
        ensures a == t && forall u :: u in changed ==> Edge(h, u, b)
      {
        assert DependsOn(WithChange(nodes, {t}, change), a, b, true) && !DependsOn(nodes, a, b, true);
        forall u | u in changed
          ensures Edge(h, u, b)
        {
          assert DependsOn(WithChange(nodes, targets, change), u, b, true);
        }
      }
      forall a, b | Edge(g, a, b) && a !in changed
        ensures Edge(h, a, b)
      {
        assert DependsOn(nodes, a, b, true);
        assert DependsOn(WithChange(nodes, targets, change), a, b, true);
      }
    }
    PartOfChangeKeepsAcyclic(g, h, part, t, changed);
  }

  /** Updates are refused only where one would break the store. */
  lemma UpdateIsAccepted(nodes: Nodes, targets: set<Id>, change: Change, t: Id)
    requires Sound(nodes) && Sound(WithChange(nodes, targets, change))
    requires t in targets && t in nodes
    ensures CanUpdate(nodes, targets, change)
  {
    var after := WithChange(nodes, targets, change);
    assert ParentExists(after, after[t].parent) && SlugsExist(after, after[t].query) && FiltersParse(after[t].query);
    forall slug | SlugExists(after, slug)
      ensures SlugExists(nodes, slug)
    {
      var a :| a in after && after[a].slug == slug;
      assert nodes[a].slug == slug;
    }
    forall u | u in targets && u in nodes
      ensures !Reaches(DependencyGraph(WithChange(nodes, {u}, change), true), u, u)
    {
      UpdateClosesNoneAlone(
        nodes, targets, change, u, DependencyGraph(nodes, true), DependencyGraph(after, true),
        DependencyGraph(WithChange(nodes, {u}, change), true));
    }
  }

  /** Whether there is anything to create, update or move. */
  ghost predicate HasTarget(nodes: Nodes, w: Write) {
    match w
    case Create(id, _) => id !in nodes
    case Update(targets, _) => exists t :: t in targets && t in nodes
    case Move(target, _) => target in nodes
    case Delete(_) => true
  }

  /** A new collection that names its own slug: with an empty slug the cycle check would not see it. */
  ghost predicate NamesItself(w: Write) {
    w.Create? && Refers(w.collection.query, w.collection.slug)
  }

  lemma AcceptedIfSound(nodes: Nodes, w: Write, after: Nodes)
    requires Sound(nodes) && HasTarget(nodes, w) && Asks(nodes, w, after) && Sound(after) && !NamesItself(w)
    ensures Accepted(nodes, w)
  {
    match w
    case Create(id, c) => CreateIsAccepted(nodes, id, c, after);
    case Update(targets, change) =>
      var t :| t in targets && t in nodes;
      UpdateStores(nodes, targets, change, after);
      UpdateIsAccepted(nodes, targets, change, t);
    case Move(target, parent) =>
      MoveStores(nodes, target, parent, after);
      UpdateIsAccepted(nodes, {target}, Change(Some(parent), None), target);
    case Delete(ids) => DeleteIsAccepted(nodes, ids, after);
  }

  /** A write is accepted exactly when the store that it asks for is sound and no new collection names itself. */
  lemma AcceptedExactly(nodes: Nodes, w: Write, after: Nodes)
    requires Sound(nodes) && HasTarget(nodes, w) && Asks(nodes, w, after)
    ensures Accepted(nodes, w) <==> Sound(after) && !NamesItself(w)
  {
    if Accepted(nodes, w) {
      WriteKeepsSound(nodes, w);
      WriteStoresWhatItAsks(nodes, w, after);
    } else if Sound(after) && !NamesItself(w) {
      AcceptedIfSound(nodes, w, after);
    }
  }

  /** A new collection that names its own slug is refused: only with an empty slug would the store be sound. */
  lemma SelfNamingIsRefused(nodes: Nodes, id: Id, c: Collection, after: Nodes)
    requires Sound(nodes) && id !in nodes && Asks(nodes, Write.Create(id, c), after)
    requires Refers(c.query, c.slug)
    ensures !Accepted(nodes, Write.Create(id, c)) && (Sound(after) ==> c.slug == "")
  {
    if Sound(after) && c.slug != "" {
      assert DependsOn(after, id, id, true);
      EdgeReaches(DependencyGraph(after, true), id, id);
    }
  }
}
