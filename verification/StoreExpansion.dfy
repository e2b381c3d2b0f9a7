/**
 Expanding queries against the stored collections: full queries of collections
 (prepare_object_data in saltbox_core/minion_collections/repositories/collection.py), and what a store
 kept by the validators guarantees about the expansion in saltbox_core/minion_collections/repositories/minion.py.
 */
module StoreExpansion {
  import opened Wrappers
  import opened Graphs
  import opened CollectionFilter
  import opened CollectionStore
  import opened QueryExpansion
  import opened QueryMeaning

  // ---------- full queries ----------

  /** The chain of parents of id ends, and stays within unseen. */
  predicate HasRoot(nodes: Nodes, id: Id, unseen: set<Id>)
    decreases unseen
  {
    && id in nodes && id in unseen
    && (nodes[id].parent.Some? ==> HasRoot(nodes, nodes[id].parent.value, unseen - {id}))
  }

  function Joined(parentFull: Json, query: Json): Json {
    if parentFull != EMPTY && query != EMPTY then Obj([Field("$and", Arr([parentFull, query]))])
    else if parentFull != EMPTY then parentFull
    else query
  }

  function FullQuery(nodes: Nodes, id: Id, ghost unseen: set<Id>): Json
    requires HasRoot(nodes, id, unseen)
    decreases unseen
  {
    if nodes[id].parent.None? then nodes[id].query
    else Joined(FullQuery(nodes, nodes[id].parent.value, unseen - {id}), nodes[id].query)
  }

  /** Without dependency cycles every chain of parents ends. p leads to its last node through all nodes already seen. */
  lemma {:induction false} AcyclicHasRoot(nodes: Nodes, p: seq<Id>, unseen: set<Id>)
    requires NoDanglingReference(nodes) && Acyclic(DependencyGraph(nodes, true))
    requires IsWalk(DependencyGraph(nodes, true), p)
    requires p[|p| - 1] in nodes && p[|p| - 1] in unseen
    requires forall a :: a in nodes && a !in unseen ==> a in p
    ensures HasRoot(nodes, p[|p| - 1], unseen)
    decreases unseen
  {
    var g, id := DependencyGraph(nodes, true), p[|p| - 1];
    if nodes[id].parent.Some? {
      var parent := nodes[id].parent.value;
      assert DependsOn(nodes, id, parent, true);
      ExtendWalk(g, p, parent);
      if parent in p {
        var k :| 0 <= k < |p| && p[k] == parent;
        WalkEntersCycle(g, p + [parent], k);
      } else {
        AcyclicHasRoot(nodes, p + [parent], unseen - {id});
      }
    }
  }

  lemma SoundHasRoots(nodes: Nodes)
    requires Sound(nodes)
    ensures forall id :: id in nodes ==> HasRoot(nodes, id, nodes.Keys)
  {
    forall id | id in nodes
      ensures HasRoot(nodes, id, nodes.Keys)
    {
      AcyclicHasRoot(nodes, [id], nodes.Keys);
    }
  }

  /** P holds of the own query of id and of all its ancestors' queries. */
  ghost predicate AlongAncestors(nodes: Nodes, id: Id, unseen: set<Id>, P: Json -> bool)
    requires HasRoot(nodes, id, unseen)
    decreases unseen
  {
    && P(nodes[id].query)
    && (nodes[id].parent.Some? ==> AlongAncestors(nodes, nodes[id].parent.value, unseen - {id}, P))
  }

  /** To satisfy a full query is to satisfy the collection's own query and those of all its ancestors. */
  lemma {:induction false} FullQueryMeansAllAncestors(
    nodes: Nodes, id: Id, unseen: set<Id>, cs: seq<Stored>, member: Membership, m: Minion, kept: bool)
    requires HasRoot(nodes, id, unseen)
    requires forall a :: a in nodes ==> nodes[a].query.Obj?
    ensures Means(cs, member, m, FullQuery(nodes, id, unseen), kept) <==>
            AlongAncestors(nodes, id, unseen, q => Means(cs, member, m, q, kept))
    decreases unseen
  {
    if nodes[id].parent.Some? {
      var parent := nodes[id].parent.value;
      FullQueryMeansAllAncestors(nodes, parent, unseen - {id}, cs, member, m, kept);
      JoinedMeansBoth(FullQuery(nodes, parent, unseen - {id}), nodes[id].query, cs, member, m, kept);
    }
  }

  lemma JoinedMeansBoth(p: Json, q: Json, cs: seq<Stored>, member: Membership, m: Minion, kept: bool)
    requires q.Obj?
    ensures Means(cs, member, m, Joined(p, q), kept) <==>
            Means(cs, member, m, p, kept) && Means(cs, member, m, q, kept)
  {
    var items := [p, q];
    var f := Field("$and", Arr(items));
    assert items[0] == p && items[1] == q && forall x :: x in items <==> x == p || x == q;
    if p != EMPTY && q != EMPTY {
      assert Joined(p, q) == Obj([f]);
      assert !IsOverwritten(cs, [f], 0);
      assert IsLogical(f);
      assert [f][0] == f;
      assert Means(cs, member, m, Obj([f]), kept) <==> MeansField(cs, member, m, f, kept);
    }
  }

  /** The slugs a full query names are named by the collection's own query or by an ancestor's. */
  lemma {:induction false} FullQueryRefersThroughAncestors(nodes: Nodes, id: Id, unseen: set<Id>, slug: string, b: Id)
    requires HasRoot(nodes, id, unseen)
    requires Refers(FullQuery(nodes, id, unseen), slug) && b in nodes && nodes[b].slug == slug
    ensures Reaches(DependencyGraph(nodes, false), id, b)
    decreases unseen
  {
    var g := DependencyGraph(nodes, false);
    if Refers(nodes[id].query, slug) {
      assert DependsOn(nodes, id, b, false);
      EdgeReaches(g, id, b);
    } else {
      var parent := nodes[id].parent.value;
      JoinedRefers(FullQuery(nodes, parent, unseen - {id}), nodes[id].query, slug);
      FullQueryRefersThroughAncestors(nodes, parent, unseen - {id}, slug, b);
      assert DependsOn(nodes, id, parent, false);
      EdgeReaches(g, id, parent);
      ReachesTransitive(g, id, parent, b);
    }
  }

  lemma JoinedRefers(p: Json, q: Json, slug: string)
    ensures Refers(Joined(p, q), slug) ==> Refers(p, slug) || Refers(q, slug)
  {
    var f := Field("$and", Arr([p, q]));
    assert forall g :: g in [f] ==> g == f;
    assert forall x :: x in [p, q] ==> x == p || x == q;
    assert Refers(Obj([f]), slug) ==> Refers(f.value, slug);
  }

  lemma JoinedParses(p: Json, q: Json)
    requires FiltersParse(p) && FiltersParse(q)
    ensures FiltersParse(Joined(p, q))
  {
    var f := Field("$and", Arr([p, q]));
    assert forall g :: g in [f] ==> g == f;
    assert FiltersParse(f.value);
  }

  lemma {:induction false} FullQueryParses(nodes: Nodes, id: Id, unseen: set<Id>)
    requires HasRoot(nodes, id, unseen) && QueriesParse(nodes)
    ensures FiltersParse(FullQuery(nodes, id, unseen))
    decreases unseen
  {
    if nodes[id].parent.Some? {
      FullQueryParses(nodes, nodes[id].parent.value, unseen - {id});
      JoinedParses(FullQuery(nodes, nodes[id].parent.value, unseen - {id}), nodes[id].query);
    }
  }

  // ---------- the store as the expansion sees it ----------

  function FullQueryOf(nodes: Nodes, id: Id): Json
    requires HasRoot(nodes, id, nodes.Keys)
  {
    FullQuery(nodes, id, nodes.Keys)
  }

  /** cs lists the stored collections, in any order. */
  ghost predicate Lists(cs: seq<Stored>, nodes: Nodes)
    requires Sound(nodes)
  {
    SoundHasRoots(nodes);
    && (forall id :: id in nodes ==> Stored(nodes[id].slug, FullQueryOf(nodes, id)) in cs)
    && (forall c :: c in cs ==> IsListed(nodes, c))
  }

  ghost predicate IsListed(nodes: Nodes, c: Stored)
    requires forall id :: id in nodes ==> HasRoot(nodes, id, nodes.Keys)
  {
    exists id :: id in nodes && c == Stored(nodes[id].slug, FullQueryOf(nodes, id))
  }

  /** Every collection being expanded leads to everything the query at hand names. */
  ghost predicate ParentsLeadTo(nodes: Nodes, parents: seq<string>, query: Json) {
    forall p, b :: p in nodes && nodes[p].slug in parents && b in nodes && Refers(query, nodes[b].slug) ==>
      Reaches(DependencyGraph(nodes, false), p, b)
  }

  ghost predicate ParentsExist(nodes: Nodes, parents: seq<string>) {
    forall s :: s in parents ==> SlugExists(nodes, s)
  }

  /** What the expansion of one part of a query can rely on. */
  ghost predicate Expandable(nodes: Nodes, cs: seq<Stored>, parents: seq<string>, query: Json) {
    && Sound(nodes) && TrulyAcyclic(nodes) && Lists(cs, nodes) && ParentsExist(nodes, parents)
    && ParentsLeadTo(nodes, parents, query) && FiltersParse(query)
  }

  lemma PartsAreExpandable(nodes: Nodes, cs: seq<Stored>, parents: seq<string>, query: Json, part: Json)
    requires Expandable(nodes, cs, parents, query)
    requires FiltersParse(part) && forall slug :: Refers(part, slug) ==> Refers(query, slug)
    ensures Expandable(nodes, cs, parents, part)
  {
  }

  /** Entering a collection named by an expandable query leaves its full query expandable. */
  lemma EnteredQueryIsExpandable(nodes: Nodes, cs: seq<Stored>, parents: seq<string>, query: Json, c: Stored)
    requires Expandable(nodes, cs, parents, query) && c in cs && Refers(query, c.slug)
    ensures Expandable(nodes, cs, parents + [c.slug], c.fullQuery)
  {
    SoundHasRoots(nodes);
    assert IsListed(nodes, c);
    var id :| id in nodes && c == Stored(nodes[id].slug, FullQueryOf(nodes, id));
    var g := DependencyGraph(nodes, false);
    FullQueryParses(nodes, id, nodes.Keys);
    forall p, b | p in nodes && nodes[p].slug in parents + [c.slug] && b in nodes && Refers(c.fullQuery, nodes[b].slug)
      ensures Reaches(g, p, b)
    {
      FullQueryRefersThroughAncestors(nodes, id, nodes.Keys, nodes[b].slug, b);
      if p != id {
        assert nodes[p].slug in parents && Reaches(g, p, id);
        ReachesTransitive(g, p, id, b);
      }
    }
  }

  /** A collection being expanded is never named again. */
  lemma NothingRepeats(nodes: Nodes, cs: seq<Stored>, parents: seq<string>, query: Json, slug: string)
    requires Expandable(nodes, cs, parents, query) && Refers(query, slug)
    ensures slug !in parents
  {
  }

  lemma {:induction false} ExpandSucceeds(nodes: Nodes, cs: seq<Stored>, query: Json, parents: seq<string>)
    requires Expandable(nodes, cs, parents, query)
    ensures Expand(cs, query, parents).Ok?
    decreases Enterable(cs, parents), 1, query
  {
    match query
    case Obj(fields) => ExpandFieldsSucceeds(nodes, cs, fields, parents);
    case Arr(items) => ExpandItemsSucceeds(nodes, cs, items, parents);
    case _ =>
  }

  lemma {:induction false} ExpandFieldsSucceeds(nodes: Nodes, cs: seq<Stored>, fields: seq<Field>, parents: seq<string>)
    requires Expandable(nodes, cs, parents, Obj(fields))
    ensures ExpandFields(cs, fields, parents).Ok?
    decreases Enterable(cs, parents), 1, fields
  {
    if fields != [] {
      var n := |fields| - 1;
      var f := fields[n];
      assert f in fields && fields == fields[..n] + [f];
      ReferredByAppendedField(fields[..n], f);
      PartsAreExpandable(nodes, cs, parents, Obj(fields), Obj(fields[..n]));
      ExpandFieldsSucceeds(nodes, cs, fields[..n], parents);
      if f.key == COLLECTION_FILTER_FIELD {
        var filter := ParseCollectionFilter(f.value).value;
        forall slug | slug in filter.slugs
          ensures Refers(Obj(fields), slug) && slug !in parents
        {
          assert FieldRefers(f, slug);
          NothingRepeats(nodes, cs, parents, Obj(fields), slug);
        }
        ExpandStoredSucceeds(nodes, cs, Obj(fields), Select(cs, filter.slugs), parents);
        assert ExpandCondition(cs, f.value, parents).Ok?;
      } else {
        assert forall slug :: Refers(f.value, slug) ==> FieldRefers(f, slug);
        PartsAreExpandable(nodes, cs, parents, Obj(fields), f.value);
        ExpandSucceeds(nodes, cs, f.value, parents);
      }
    }
  }

  lemma {:induction false} ExpandItemsSucceeds(nodes: Nodes, cs: seq<Stored>, items: seq<Json>, parents: seq<string>)
    requires Expandable(nodes, cs, parents, Arr(items))
    ensures ExpandItems(cs, items, parents).Ok?
    decreases Enterable(cs, parents), 1, items
  {
    if items != [] {
      var n := |items| - 1;
      assert items[n] in items && items == items[..n] + [items[n]];
      ReferredByAppendedItem(items[..n], items[n]);
      PartsAreExpandable(nodes, cs, parents, Arr(items), Arr(items[..n]));
      PartsAreExpandable(nodes, cs, parents, Arr(items), items[n]);
      ExpandItemsSucceeds(nodes, cs, items[..n], parents);
      ExpandSucceeds(nodes, cs, items[n], parents);
    }
  }

  lemma {:induction false} ExpandStoredSucceeds(
    nodes: Nodes, cs: seq<Stored>, query: Json, chosen: seq<Stored>, parents: seq<string>)
    requires Expandable(nodes, cs, parents, query)
    requires forall c :: c in chosen ==> c in cs && c.slug !in parents && Refers(query, c.slug)
    ensures ExpandStored(cs, chosen, parents).Ok?
    decreases Enterable(cs, parents), 0, chosen
  {
    if chosen != [] {
      var c := chosen[|chosen| - 1];
      assert c.slug in Enterable(cs, parents) && c.slug !in Enterable(cs, parents + [c.slug]);
      ExpandStoredSucceeds(nodes, cs, query, chosen[..|chosen| - 1], parents);
      EnteredQueryIsExpandable(nodes, cs, parents, query, c);
      ExpandSucceeds(nodes, cs, c.fullQuery, parents + [c.slug]);
    }
  }

  /** On a sound store, a well-formed query fails to expand only on a true cycle, so never without empty slugs. */
  lemma ExpansionFailsOnlyOnCycle(nodes: Nodes, cs: seq<Stored>, query: Json)
    requires Sound(nodes) && Lists(cs, nodes) && FiltersParse(query)
    ensures Expand(cs, query, []).Err? ==> !TrulyAcyclic(nodes) && SlugExists(nodes, "")
  {
    if TrulyAcyclic(nodes) {
      ExpandSucceeds(nodes, cs, query, []);
    } else if !SlugExists(nodes, "") {
      CheckedViewIsWhole(nodes);
    }
  }

  // ---------- on such a store, belonging to a collection is well defined ----------

  ghost predicate EntersAlone(cs: seq<Stored>, c: Stored)
  {
    Expand(cs, c.fullQuery, [c.slug]).Ok?
  }

  lemma StoredQueriesExpand(nodes: Nodes, cs: seq<Stored>)
    requires Sound(nodes) && TrulyAcyclic(nodes) && Lists(cs, nodes)
    ensures forall c :: c in cs ==> EntersAlone(cs, c)
    ensures forall c, d :: c in cs && d in cs && c.slug == d.slug ==> c == d
  {
    SoundHasRoots(nodes);
    forall c | c in cs
      ensures EntersAlone(cs, c)
    {
      assert IsListed(nodes, c);
      var filter := Obj([Field("$in", Arr([Str(c.slug)]))]);
      var f := Field(COLLECTION_FILTER_FIELD, filter);
      assert Texts([Str(c.slug)]) == [c.slug];
      assert FieldRefers(f, c.slug) && f in Obj([f]).fields;
      EnteredQueryIsExpandable(nodes, cs, [], Obj([f]), c);
      assert [] + [c.slug] == [c.slug];
      ExpandSucceeds(nodes, cs, c.fullQuery, [c.slug]);
    }
    forall c, d | c in cs && d in cs && c.slug == d.slug
      ensures c == d
    {
      assert IsListed(nodes, c) && IsListed(nodes, d);
    }
  }

  /** On a sound store without true cycles there is a membership, and no two differ on a stored collection. */
  lemma MembershipIsDefined(nodes: Nodes, cs: seq<Stored>, m: Minion)
    requires Sound(nodes) && TrulyAcyclic(nodes) && Lists(cs, nodes) && StoreIsPlaced(cs)
    ensures exists member :: IsMembership(cs, member, m, true)
    ensures forall a, b, c :: IsMembership(cs, a, m, true) && IsMembership(cs, b, m, true) && c in cs ==>
              (a(c.slug) <==> b(c.slug))
  {
    StoredQueriesExpand(nodes, cs);
    var member := (s: string) => exists c | c in cs ::
      c.slug == s && EntersAlone(cs, c) && Matches(m, Expand(cs, c.fullQuery, [c.slug]).value);
    forall parents
      ensures EntersRightly(cs, member, m, parents)
    {
      forall c, r | c in cs && c.slug !in parents && Expand(cs, c.fullQuery, parents + [c.slug]) == Ok(r)
        ensures Matches(m, r) <==> member(c.slug)
      {
        ParentsDoNotChangeResult(cs, c.fullQuery, parents + [c.slug], [c.slug]);
      }
    }
    forall c | c in cs
      ensures member(c.slug) <==> Means(cs, member, m, c.fullQuery, true)
    {
      ExpansionMeans(cs, member, m, c.fullQuery, [c.slug], Expand(cs, c.fullQuery, [c.slug]).value);
    }
    assert IsMembership(cs, member, m, true);
    forall a, b, c | IsMembership(cs, a, m, true) && IsMembership(cs, b, m, true) && c in cs
      ensures a(c.slug) <==> b(c.slug)
    {
      var r := Expand(cs, c.fullQuery, [c.slug]).value;
      ExpansionKeepsWhatIsNotOverwritten(cs, a, m, c.fullQuery, [c.slug], r);
      ExpansionKeepsWhatIsNotOverwritten(cs, b, m, c.fullQuery, [c.slug], r);
    }
  }
}
