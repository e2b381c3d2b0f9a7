/**
 The collection tree and the checks that keep its references sound
 (saltbox_core/minion_collections/repositories/collection.py).
 A collection depends on its parent and on every collection its query names by slug.
 */
module CollectionStore {
  import opened Wrappers
  import opened Graphs
  import opened CollectionFilter

  type Id = nat

  datatype Collection = Collection(slug: string, parent: Option<Id>, query: Json)

  type Nodes = map<Id, Collection>

  datatype StoreError =
    | DuplicateSlug
    | ParentNotFound
    | MalformedQuery
    | UnknownSlugs(slugs: set<string>)
    | ReferenceCycle(cycle: seq<Id>)
    | StillReferenced(referencing: set<Id>)

  // ---------- dependencies ----------

  /**
   b is the parent of a, or carries a slug that a's query names.
   The cycle check finds collections by slug only when the slug is not empty; `checked` selects its view.
   */
  ghost predicate DependsOn(nodes: Nodes, a: Id, b: Id, checked: bool) {
    && a in nodes
    && (nodes[a].parent == Some(b) || NamesInQuery(nodes, a, b, checked))
  }

  ghost predicate NamesInQuery(nodes: Nodes, a: Id, b: Id, checked: bool)
    requires a in nodes
  {
    b in nodes && (checked ==> nodes[b].slug != "") && Refers(nodes[a].query, nodes[b].slug)
  }

  ghost function SomeOrder(s: set<Id>): (r: seq<Id>)
    ensures forall a :: a in r <==> a in s
  {
    if s == {} then [] else var a :| a in s; [a] + SomeOrder(s - {a})
  }

  ghost function Dependencies(nodes: Nodes, a: Id, checked: bool): set<Id>
    requires a in nodes
  {
    (set b | b in nodes && NamesInQuery(nodes, a, b, checked)) +
    (if nodes[a].parent.Some? then {nodes[a].parent.value} else {})
  }

  ghost function DependencyGraph(nodes: Nodes, checked: bool): (g: map<Id, seq<Id>>)
    ensures forall a, b :: Edge(g, a, b) <==> DependsOn(nodes, a, b, checked)
  {
    map a | a in nodes :: SomeOrder(Dependencies(nodes, a, checked))
  }

  // ---------- what a sound store satisfies ----------

  ghost predicate UniqueSlugs(nodes: Nodes) {
    forall a, b :: a in nodes && b in nodes && nodes[a].slug == nodes[b].slug ==> a == b
  }

  predicate QueriesParse(nodes: Nodes) {
    forall a :: a in nodes ==> FiltersParse(nodes[a].query)
  }

  predicate SlugExists(nodes: Nodes, slug: string) {
    exists a :: a in nodes && nodes[a].slug == slug
  }

  predicate ParentExists(nodes: Nodes, parent: Option<Id>) {
    parent.Some? ==> parent.value in nodes
  }

  ghost predicate SlugsExist(nodes: Nodes, query: Json) {
    forall slug :: Refers(query, slug) ==> SlugExists(nodes, slug)
  }

  ghost predicate NoDanglingReference(nodes: Nodes) {
    forall a :: a in nodes ==> ParentExists(nodes, nodes[a].parent) && SlugsExist(nodes, nodes[a].query)
  }

  /** What every accepted write keeps. */
  ghost predicate Sound(nodes: Nodes) {
    && UniqueSlugs(nodes) && QueriesParse(nodes) && NoDanglingReference(nodes)
    && Acyclic(DependencyGraph(nodes, true))
  }

  // ---------- the writes ----------

  datatype Change = Change(parent: Option<Option<Id>>, query: Option<Json>)

  function Changed(c: Collection, change: Change): Collection {
    c.(parent := if change.parent.Some? then change.parent.value else c.parent,
       query := if change.query.Some? then change.query.value else c.query)
  }

  function WithChange(nodes: Nodes, targets: set<Id>, change: Change): Nodes {
    map a | a in nodes :: if a in targets then Changed(nodes[a], change) else nodes[a]
  }

  ghost predicate CanCreate(nodes: Nodes, c: Collection) {
    && !SlugExists(nodes, c.slug) && ParentExists(nodes, c.parent)
    && FiltersParse(c.query) && SlugsExist(nodes, c.query)
  }

  /** Each target is checked against the store in which it alone has changed. */
  ghost predicate CanUpdate(nodes: Nodes, targets: set<Id>, change: Change) {
    && (change.parent.Some? ==> ParentExists(nodes, change.parent.value))
    && (change.query.Some? ==> FiltersParse(change.query.value) && SlugsExist(nodes, change.query.value))
    && (change.parent.Some? || change.query.Some? ==> forall t :: t in targets && t in nodes ==>
          !Reaches(DependencyGraph(WithChange(nodes, {t}, change), true), t, t))
  }

  ghost predicate CanDelete(nodes: Nodes, ids: set<Id>) {
    forall a, b :: a in nodes && a !in ids && b in nodes && b in ids ==> !Refers(nodes[a].query, nodes[b].slug)
  }

  function Without(nodes: Nodes, ids: set<Id>): Nodes {
    map a | a in nodes && a !in ids :: nodes[a]
  }

  /** Deletion cascades: with a collection, all its descendants go. */
  ghost predicate HoldsWholeSubtrees(nodes: Nodes, ids: set<Id>) {
    forall a :: a in nodes && nodes[a].parent.Some? && nodes[a].parent.value in ids ==> a in ids
  }

  // ---------- every write keeps a sound store sound ----------

  /** A new collection can name others, but nothing can name it yet. */
  lemma CreateKeepsAcyclic(nodes: Nodes, id: Id, c: Collection, checked: bool)
    requires NoDanglingReference(nodes) && id !in nodes && CanCreate(nodes, c)
    requires Acyclic(DependencyGraph(nodes, checked))
    ensures Acyclic(DependencyGraph(nodes[id := c], checked))
  {
    var g, h := DependencyGraph(nodes, checked), DependencyGraph(nodes[id := c], checked);
    forall a, b | Edge(h, a, b)
      ensures b != id && (a != id ==> Edge(g, a, b))
    {
      assert DependsOn(nodes[id := c], a, b, checked);
    }
    forall a, p | IsWalkFromTo(h, p, a, a)
      ensures false
    {
      forall i | 0 <= i < |p|
        ensures p[i] != id
      {
        UnreachableNode(h, id, p, i);
      }
      assert IsWalkFromTo(g, p, a, a);
      assert Reaches(g, a, a);
    }
  }

  lemma CreateKeepsSound(nodes: Nodes, id: Id, c: Collection)
    requires Sound(nodes) && id !in nodes && CanCreate(nodes, c)
    ensures Sound(nodes[id := c])
  {
    CreateKeepsReferences(nodes, id, c);
    CreateKeepsAcyclic(nodes, id, c, true);
  }

  lemma CreateKeepsReferences(nodes: Nodes, id: Id, c: Collection)
    requires UniqueSlugs(nodes) && QueriesParse(nodes) && NoDanglingReference(nodes)
    requires id !in nodes && CanCreate(nodes, c)
    ensures UniqueSlugs(nodes[id := c]) && QueriesParse(nodes[id := c]) && NoDanglingReference(nodes[id := c])
  {
    assert forall a :: a in nodes ==> SlugExists(nodes, nodes[a].slug);
    forall slug | SlugExists(nodes, slug)
      ensures SlugExists(nodes[id := c], slug)
    {
      var a :| a in nodes && nodes[a].slug == slug;
      assert nodes[id := c][a].slug == slug;
    }
  }

  /** A node without incoming edges is on no closed walk. */
  lemma UnreachableNode(g: map<Id, seq<Id>>, id: Id, p: seq<Id>, k: nat)
    requires forall a :: !Edge(g, a, id)
    requires IsWalk(g, p) && |p| >= 2 && p[0] == p[|p| - 1] && k < |p|
    ensures p[k] != id
  {
    var i := if k == 0 then |p| - 1 else k;
    assert Edge(g, p[i - 1], p[i]);
  }

  /** Whatever one target newly depends on, every target newly depends on; all else is as before. */
  lemma ChangeIsSimultaneous(nodes: Nodes, targets: set<Id>, change: Change, a: Id, b: Id, t: Id)
    requires DependsOn(WithChange(nodes, targets, change), a, b, true) && t in targets && t in nodes
    ensures DependsOn(nodes, a, b, true) ==> DependsOn(WithChange(nodes, {t}, change), a, b, true)
    ensures !DependsOn(nodes, a, b, true) ==>
      a in targets && a in nodes && DependsOn(WithChange(nodes, {t}, change), t, b, true)
  {
  }

  ghost predicate Pictures(g: map<Id, seq<Id>>, nodes: Nodes) {
    forall a, b :: Edge(g, a, b) <==> DependsOn(nodes, a, b, true)
  }

  lemma ChangesAreSimultaneous(
    nodes: Nodes, targets: set<Id>, change: Change,
    before: map<Id, seq<Id>>, after: map<Id, seq<Id>>, alone: map<Id, map<Id, seq<Id>>>)
    requires Pictures(before, nodes) && Pictures(after, WithChange(nodes, targets, change))
    requires alone.Keys <= targets * nodes.Keys
    requires targets * nodes.Keys <= alone.Keys
    requires forall t :: t in alone ==> Pictures(alone[t], WithChange(nodes, {t}, change))
    ensures IsSimultaneousChange(before, after, alone)
    ensures alone == map[] ==> Subgraph(after, before)
  {
    forall a, b, t | Edge(after, a, b) && t in alone
      ensures IsSharedEdge(before, alone, t, a, b)
    {
      ChangeIsSimultaneous(nodes, targets, change, a, b, t);
    }
    if alone == map[] {
      assert targets * nodes.Keys == {};
      forall a | a in nodes
        ensures a !in targets
      {
        assert a in targets ==> a in targets * nodes.Keys;
      }
      assert WithChange(nodes, targets, change) == nodes;
    }
  }

  lemma UpdateKeepsAcyclic(nodes: Nodes, targets: set<Id>, change: Change)
    requires Acyclic(DependencyGraph(nodes, true))
    requires forall t :: t in targets && t in nodes ==>
      !Reaches(DependencyGraph(WithChange(nodes, {t}, change), true), t, t)
    ensures Acyclic(DependencyGraph(WithChange(nodes, targets, change), true))
  {
    var before, after := DependencyGraph(nodes, true), DependencyGraph(WithChange(nodes, targets, change), true);
    var alone := map t | t in targets && t in nodes :: DependencyGraph(WithChange(nodes, {t}, change), true);
    ChangesAreSimultaneous(nodes, targets, change, before, after, alone);
    SimultaneousChangeKeepsAcyclic(before, after, alone);
  }

  lemma SlugsSurviveChange(nodes: Nodes, targets: set<Id>, change: Change, slug: string)
    requires SlugExists(nodes, slug)
    ensures SlugExists(WithChange(nodes, targets, change), slug)
  {
    var a :| a in nodes && nodes[a].slug == slug;
    assert WithChange(nodes, targets, change)[a].slug == slug;
  }

  lemma UpdateKeepsReferences(nodes: Nodes, targets: set<Id>, change: Change)
    requires UniqueSlugs(nodes) && QueriesParse(nodes) && NoDanglingReference(nodes)
    requires CanUpdate(nodes, targets, change)
    ensures
      var after := WithChange(nodes, targets, change);
      UniqueSlugs(after) && QueriesParse(after) && NoDanglingReference(after)
  {
    forall slug | SlugExists(nodes, slug)
      ensures SlugExists(WithChange(nodes, targets, change), slug)
    {
      SlugsSurviveChange(nodes, targets, change, slug);
    }
  }

  /** Checking the targets one by one is enough even when they all change at once. */
  lemma UpdateKeepsSound(nodes: Nodes, targets: set<Id>, change: Change)
    requires Sound(nodes) && CanUpdate(nodes, targets, change)
    ensures Sound(WithChange(nodes, targets, change))
  {
    var after := WithChange(nodes, targets, change);
    UpdateKeepsReferences(nodes, targets, change);
    if change.parent.Some? || change.query.Some? {
      UpdateKeepsAcyclic(nodes, targets, change);
    } else {
      assert after == nodes;
    }
  }

  lemma DeleteKeepsSound(nodes: Nodes, ids: set<Id>)
    requires Sound(nodes) && CanDelete(nodes, ids) && HoldsWholeSubtrees(nodes, ids)
    ensures Sound(Without(nodes, ids))
  {
    var after := Without(nodes, ids);
    forall a, slug | a in after && Refers(after[a].query, slug)
      ensures SlugExists(after, slug)
    {
      var b :| b in nodes && nodes[b].slug == slug;
      assert b in after && after[b].slug == slug;
    }
    var g, h := DependencyGraph(nodes, true), DependencyGraph(after, true);
    assert Subgraph(h, g);
    forall a | Reaches(h, a, a)
      ensures false
    {
      SubgraphReaches(h, g, a, a);
    }
  }

  // ---------- every run ----------

  datatype Write =
    | Create(id: Id, collection: Collection)
    | Update(targets: set<Id>, change: Change)
    | Move(target: Id, parent: Option<Id>)
    | Delete(ids: set<Id>)

  ghost predicate Accepted(nodes: Nodes, w: Write) {
    match w
    case Create(id, c) => id !in nodes && CanCreate(nodes, c)
    case Update(targets, change) => CanUpdate(nodes, targets, change)
    case Move(target, parent) =>
      && target in nodes && ParentExists(nodes, parent)
      && CanUpdate(nodes, {target}, Change(Some(parent), None))
    case Delete(ids) => CanDelete(nodes, ids) && HoldsWholeSubtrees(nodes, ids)
  }

  /** A refused write changes nothing. */
  ghost function After(nodes: Nodes, w: Write): Nodes {
    if !Accepted(nodes, w) then nodes else
    match w
    case Create(id, c) => nodes[id := c]
    case Update(targets, change) => WithChange(nodes, targets, change)
    case Move(target, parent) => WithChange(nodes, {target}, Change(Some(parent), None))
    case Delete(ids) => Without(nodes, ids)
  }

  ghost function AfterAll(nodes: Nodes, ws: seq<Write>): Nodes
    decreases |ws|
  {
    if ws == [] then nodes else AfterAll(After(nodes, ws[0]), ws[1..])
  }

  lemma WriteKeepsSound(nodes: Nodes, w: Write)
    requires Sound(nodes)
    ensures Sound(After(nodes, w))
  {
    if Accepted(nodes, w) {
      match w
      case Create(id, c) => CreateKeepsSound(nodes, id, c);
      case Update(targets, change) => UpdateKeepsSound(nodes, targets, change);
      case Move(target, parent) => UpdateKeepsSound(nodes, {target}, Change(Some(parent), None));
      case Delete(ids) => DeleteKeepsSound(nodes, ids);
    }
  }

  /** Whatever is written, in whatever order, the store never holds a dangling reference or a checked cycle. */
  lemma {:induction false} EveryRunIsSound(nodes: Nodes, ws: seq<Write>)
    requires Sound(nodes)
    ensures Sound(AfterAll(nodes, ws))
    decreases |ws|
  {
    if ws != [] {
      WriteKeepsSound(nodes, ws[0]);
      EveryRunIsSound(After(nodes, ws[0]), ws[1..]);
    }
  }

  lemma EmptyStoreIsSound()
    ensures Sound(map[])
  {
    var g := DependencyGraph(map[], true);
    forall a, p
      ensures !IsWalkFromTo(g, p, a, a)
    {
      assert |p| >= 2 ==> !Edge(g, p[0], p[1]);
    }
  }

  // ---------- the blind spot: an empty slug ----------

  ghost predicate TrulyAcyclic(nodes: Nodes) {
    Acyclic(DependencyGraph(nodes, false))
  }

  lemma CheckedViewIsWhole(nodes: Nodes)
    requires !SlugExists(nodes, "") && Acyclic(DependencyGraph(nodes, true))
    ensures TrulyAcyclic(nodes)
  {
    var g, h := DependencyGraph(nodes, true), DependencyGraph(nodes, false);
    forall a, b | Edge(h, a, b)
      ensures Edge(g, a, b)
    {
      assert DependsOn(nodes, a, b, false);
      assert DependsOn(nodes, a, b, true);
    }
    forall a | Reaches(h, a, a)
      ensures false
    {
      SubgraphReaches(h, g, a, a);
    }
  }

  const SELF_REFERENCE := Obj([Field("collection", Obj([Field("$in", Arr([Str("")]))]))])

  const TO_SELF_REFERENCE := Change(None, Some(SELF_REFERENCE))

  /** A collection with an empty slug can be made to refer to itself. */
  lemma EmptySlugHidesCycle(nodes: Nodes, c: Id)
    requires Sound(nodes) && c in nodes && nodes[c].slug == ""
    ensures Accepted(nodes, Update({c}, TO_SELF_REFERENCE))
    ensures !TrulyAcyclic(After(nodes, Update({c}, TO_SELF_REFERENCE)))
  {
    var after := WithChange(nodes, {c}, TO_SELF_REFERENCE);
    SelfReferenceIsUnseen(nodes, c, DependencyGraph(nodes, true), DependencyGraph(after, true));
    assert CanUpdate(nodes, {c}, TO_SELF_REFERENCE) by {
      OnlyRefersToEmptySlug();
    }
    SelfReferenceIsCycle(after, c);
  }

  lemma SelfReferenceIsCycle(nodes: Nodes, c: Id)
    requires c in nodes && nodes[c].slug == "" && nodes[c].query == SELF_REFERENCE
    ensures !TrulyAcyclic(nodes)
  {
    OnlyRefersToEmptySlug();
    assert DependsOn(nodes, c, c, false);
    EdgeReaches(DependencyGraph(nodes, false), c, c);
  }

  lemma SelfReferenceIsUnseen(nodes: Nodes, c: Id, g: map<Id, seq<Id>>, h: map<Id, seq<Id>>)
    requires Pictures(g, nodes) && Pictures(h, WithChange(nodes, {c}, TO_SELF_REFERENCE)) && Acyclic(g)
    ensures !Reaches(h, c, c)
  {
    OnlyRefersToEmptySlug();
    forall a, b | Edge(h, a, b)
      ensures Edge(g, a, b)
    {
      assert DependsOn(nodes, a, b, true);
    }
    if Reaches(h, c, c) {
      SubgraphReaches(h, g, c, c);
    }
  }

  lemma OnlyRefersToEmptySlug()
    ensures FiltersParse(SELF_REFERENCE)
    ensures forall slug :: Refers(SELF_REFERENCE, slug) <==> slug == ""
  {
    var items := [Str("")];
    var value := Obj([Field("$in", Arr(items))]);
    assert SELF_REFERENCE.fields[0] == Field("collection", value);
    assert Texts(items)[0] == "";
    assert forall slug :: slug in Texts(items) <==> slug == "";
  }

  lemma NoEmptySlugNoTrueCycle(nodes: Nodes, w: Write)
    requires Sound(nodes) && TrulyAcyclic(nodes) && !SlugExists(nodes, "")
    ensures TrulyAcyclic(After(nodes, w))
  {
    WriteKeepsSound(nodes, w);
    if w.Create? {
      if Accepted(nodes, w) {
        CreateKeepsAcyclic(nodes, w.id, w.collection, false);
      }
    } else {
      var after := After(nodes, w);
      assert forall a :: a in after ==> a in nodes && after[a].slug == nodes[a].slug;
      CheckedViewIsWhole(after);
    }
  }

  /** From a sound store without true cycles, one write can make a true cycle exactly when some slug is empty. */
  lemma TrueCycleNeedsEmptySlug(nodes: Nodes)
    requires Sound(nodes) && TrulyAcyclic(nodes)
    ensures (exists w :: !TrulyAcyclic(After(nodes, w))) <==> SlugExists(nodes, "")
  {
    if SlugExists(nodes, "") {
      var c :| c in nodes && nodes[c].slug == "";
      EmptySlugHidesCycle(nodes, c);
    } else {
      forall w
        ensures TrulyAcyclic(After(nodes, w))
      {
        NoEmptySlugNoTrueCycle(nodes, w);
      }
    }
  }
}
