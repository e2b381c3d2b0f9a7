/**
 The write operations of the collection repository, as they run on the stored collections
 (saltbox_core/minion_collections/repositories/collection.py).
 */
module CollectionRepository {
  import opened Wrappers
  import opened Graphs
  import opened CollectionFilter
  import opened CollectionStore

  ghost predicate RefersInto(nodes: Nodes, a: Id, ids: set<Id>)
    requires a in nodes
  {
    exists b :: b in nodes && b in ids && Refers(nodes[a].query, nodes[b].slug)
  }

  /** The iteration order of a set is arbitrary. */
  method InSomeOrder(s: set<Id>) returns (r: seq<Id>)
    ensures forall a :: a in r <==> a in s
  {
    r := [];
    var rest := s;
    while rest != {}
      invariant rest <= s
      invariant forall a :: a in r <==> a in s && a !in rest
    {
      var a :| a in rest;
      r, rest := r + [a], rest - {a};
    }
  }

  class Repository {
    var nodes: Nodes

    constructor ()
      ensures nodes == map[] && Sound(nodes)
    {
      nodes := map[];
      EmptyStoreIsSound();
    }

    /** _validate_referenced_slugs_exist */
    method ValidateReferencedSlugsExist(query: Json) returns (r: Result<(), StoreError>)
      ensures !FiltersParse(query) <==> r == Err(MalformedQuery)
      ensures FiltersParse(query) ==> (r.Ok? <==> SlugsExist(nodes, query))
      ensures r.Err? && r.error.UnknownSlugs? ==>
                forall slug :: slug in r.error.slugs <==> Refers(query, slug) && !SlugExists(nodes, slug)
    {
      var referenced := GetReferencedSlugs(query);
      if referenced.Err? {
        return Err(MalformedQuery);
      }
      var unknown := set slug | slug in referenced.value && !SlugExists(nodes, slug);
      assert forall slug :: slug in unknown <==> Refers(query, slug) && !SlugExists(nodes, slug);
      r := if unknown == {} then Ok(()) else Err(UnknownSlugs(unknown));
    }

    /** _validate_no_reference_cycle: would the target, with this parent and query, reach itself? */
    method ValidateNoReferenceCycle(target: Id, parent: Option<Id>, query: Json) returns (r: Result<(), StoreError>)
      requires target in nodes && UniqueSlugs(nodes)
      ensures var changed := nodes[target := Collection(nodes[target].slug, parent, query)];
              && (!QueriesParse(changed) <==> r == Err(MalformedQuery))
              && (QueriesParse(changed) ==> (r.Ok? <==> !Reaches(DependencyGraph(changed, true), target, target)))
              && (r.Err? && r.error.ReferenceCycle? ==>
                    IsSimpleCycle(DependencyGraph(changed, true), target, r.error.cycle))
    {
      var changed := nodes[target := Collection(nodes[target].slug, parent, query)];
      var idsBySlug := IdsBySlug(changed);
      var edges: map<Id, seq<Id>> := map[];
      var rest := changed.Keys;
      while rest != {}
        invariant rest <= changed.Keys && edges.Keys == changed.Keys - rest
        invariant forall a :: a in edges ==> FiltersParse(changed[a].query)
        invariant forall a, b :: a in edges ==> (b in edges[a] <==> DependsOn(changed, a, b, true))
      {
        var a :| a in rest;
        var slugs := GetReferencedSlugs(changed[a].query);
        if slugs.Err? {
          return Err(MalformedQuery);
        }
        var dependencies := set slug | slug in slugs.value && slug in idsBySlug :: idsBySlug[slug];
        if changed[a].parent.Some? {
          dependencies := dependencies + {changed[a].parent.value};
        }
        forall b
          ensures b in dependencies <==> DependsOn(changed, a, b, true)
        {
          if DependsOn(changed, a, b, true) && changed[a].parent != Some(b) {
            assert changed[b].slug in slugs.value && idsBySlug[changed[b].slug] == b;
          }
        }
        var ordered := InSomeOrder(dependencies);
        edges, rest := edges[a := ordered], rest - {a};
      }
      var cycle := FindCycle(target, edges);
      SameReachability(edges, changed, target);
      r := if cycle.Some? then Err(ReferenceCycle(cycle.value)) else Ok(());
    }

    method Create(id: Id, c: Collection) returns (r: Result<(), StoreError>)
      requires Sound(nodes) && id !in nodes
      modifies this
      ensures r.Ok? <==> Accepted(old(nodes), Write.Create(id, c))
      ensures nodes == After(old(nodes), Write.Create(id, c)) && Sound(nodes)
    {
      WriteKeepsSound(nodes, Write.Create(id, c));
      if c.parent.Some? && c.parent.value !in nodes {
        return Err(ParentNotFound);
      }
      r := ValidateReferencedSlugsExist(c.query);
      if r.Err? {
        return;
      }
      if SlugExists(nodes, c.slug) {
        return Err(DuplicateSlug);
      }
      nodes := nodes[id := c];
    }

    /** The targets are looked at one after another, each as if it alone were to change. */
    method ValidateTargets(targets: set<Id>, change: Change) returns (r: Result<(), StoreError>)
      requires UniqueSlugs(nodes) && QueriesParse(nodes)
      requires change.query.Some? ==> FiltersParse(change.query.value)
      ensures r.Ok? <==> forall t :: t in targets && t in nodes ==>
                !Reaches(DependencyGraph(WithChange(nodes, {t}, change), true), t, t)
    {
      var found := set t | t in targets && t in nodes;
      var rest := found;
      while rest != {}
        invariant rest <= found
        invariant forall t :: t in found && t !in rest ==>
          !Reaches(DependencyGraph(WithChange(nodes, {t}, change), true), t, t)
      {
        var t :| t in rest;
        var c := Changed(nodes[t], change);
        assert nodes[t := c] == WithChange(nodes, {t}, change);
        r := ValidateNoReferenceCycle(t, c.parent, c.query);
        if r.Err? {
          return;
        }
        rest := rest - {t};
      }
      r := Ok(());
    }

    method Update(targets: set<Id>, change: Change) returns (r: Result<(), StoreError>)
      requires Sound(nodes)
      modifies this
      ensures r.Ok? <==> Accepted(old(nodes), Write.Update(targets, change))
      ensures nodes == After(old(nodes), Write.Update(targets, change)) && Sound(nodes)
    {
      WriteKeepsSound(nodes, Write.Update(targets, change));
      if change.parent.Some? && change.parent.value.Some? && change.parent.value.value !in nodes {
        return Err(ParentNotFound);
      }
      if change.query.Some? {
        r := ValidateReferencedSlugsExist(change.query.value);
        if r.Err? {
          return;
        }
      }
      if change.parent.Some? || change.query.Some? {
        r := ValidateTargets(targets, change);
        if r.Err? {
          return;
        }
      }
      nodes := WithChange(nodes, targets, change);
      r := Ok(());
    }

    /** The tree repository has found the target and its new parent before it asks. */
    method Move(target: Id, parent: Option<Id>) returns (r: Result<(), StoreError>)
      requires Sound(nodes) && target in nodes && ParentExists(nodes, parent)
      modifies this
      ensures r.Ok? <==> Accepted(old(nodes), Write.Move(target, parent))
      ensures nodes == After(old(nodes), Write.Move(target, parent)) && Sound(nodes)
    {
      WriteKeepsSound(nodes, Write.Move(target, parent));
      var moved := nodes[target].(parent := parent);
      MovedIsChanged(nodes, target, parent);
      r := ValidateNoReferenceCycle(target, parent, nodes[target].query);
      if r.Ok? {
        nodes := nodes[target := moved];
      }
    }

    /** ids are a collection and all its descendants, as the cascading tree repository collects them. */
    method Delete(ids: set<Id>) returns (r: Result<(), StoreError>)
      requires Sound(nodes) && HoldsWholeSubtrees(nodes, ids)
      modifies this
      ensures r.Ok? <==> Accepted(old(nodes), Write.Delete(ids))
      ensures nodes == After(old(nodes), Write.Delete(ids)) && Sound(nodes)
      ensures r.Err? ==> r.error.StillReferenced?
      ensures r.Err? ==> forall a :: a in r.error.referencing <==> a in nodes && a !in ids && RefersInto(nodes, a, ids)
    {
      WriteKeepsSound(nodes, Write.Delete(ids));
      var deletedSlugs := set a | a in nodes && a in ids :: nodes[a].slug;
      var referencing: set<Id> := {};
      var rest := nodes.Keys - ids;
      while rest != {}
        invariant nodes == old(nodes) && rest <= nodes.Keys - ids
        invariant forall a :: a in referencing <==>
          (a in nodes && a !in ids && a !in rest && RefersInto(nodes, a, ids))
      {
        var a :| a in rest;
        var slugs := GetReferencedSlugs(nodes[a].query);
        if slugs.Ok? && slugs.value * deletedSlugs != {} {
          ghost var slug :| slug in slugs.value * deletedSlugs;
          assert Refers(nodes[a].query, slug);
          assert RefersInto(nodes, a, ids);
          referencing := referencing + {a};
        } else {
          forall b | b in nodes && b in ids
            ensures !Refers(nodes[a].query, nodes[b].slug)
          {
            assert nodes[b].slug !in slugs.value * deletedSlugs;
          }
        }
        rest := rest - {a};
      }
      if referencing != {} {
        ghost var a :| a in referencing;
        assert RefersInto(nodes, a, ids);
        return Err(StillReferenced(referencing));
      }
      assert Accepted(nodes, Write.Delete(ids)) by {
        assert forall a :: a in nodes && a !in ids ==> !RefersInto(nodes, a, ids);
      }
      nodes := Without(nodes, ids);
      r := Ok(());
    }
  }

  method IdsBySlug(nodes: Nodes) returns (ids: map<string, Id>)
    requires UniqueSlugs(nodes)
    ensures forall slug :: slug in ids ==> slug != "" && ids[slug] in nodes && nodes[ids[slug]].slug == slug
    ensures forall a :: a in nodes && nodes[a].slug != "" ==> nodes[a].slug in ids && ids[nodes[a].slug] == a
  {
    ids := map[];
    var rest := nodes.Keys;
    while rest != {}
      invariant rest <= nodes.Keys
      invariant forall slug :: slug in ids ==> slug != "" && ids[slug] in nodes && nodes[ids[slug]].slug == slug
      invariant forall a :: a in nodes && a !in rest && nodes[a].slug != "" ==> nodes[a].slug in ids
    {
      var a :| a in rest;
      if nodes[a].slug != "" {
        ids := ids[nodes[a].slug := a];
      }
      rest := rest - {a};
    }
  }

  /** The edges the check collected and the dependency graph differ at most in the order of successors. */
  lemma SameReachability(edges: map<Id, seq<Id>>, nodes: Nodes, target: Id)
    requires edges.Keys == nodes.Keys
    requires forall a, b :: a in edges ==> (b in edges[a] <==> DependsOn(nodes, a, b, true))
    ensures Reaches(edges, target, target) <==> Reaches(DependencyGraph(nodes, true), target, target)
    ensures forall c :: IsSimpleCycle(edges, target, c) ==> IsSimpleCycle(DependencyGraph(nodes, true), target, c)
  {
    var g := DependencyGraph(nodes, true);
    assert forall a, b :: Edge(edges, a, b) <==> Edge(g, a, b);
    if Reaches(edges, target, target) {
      SubgraphReaches(edges, g, target, target);
    }
    if Reaches(g, target, target) {
      SubgraphReaches(g, edges, target, target);
    }
  }

  lemma MovedIsChanged(nodes: Nodes, target: Id, parent: Option<Id>)
    requires target in nodes
    ensures WithChange(nodes, {target}, Change(Some(parent), None)) == nodes[target := nodes[target].(parent := parent)]
  {
  }
}
