/** Merging one minion into another (saltbox_core/minion_collections/services/minion.py). */
module MinionMerge {
  import opened Wrappers
  import opened ExtraData

  datatype Strategy = UseTarget | UseSource | Merge

  datatype ConflictStrategy = Error | UseTarget | UseSource

  datatype MergeError =
    | IntoItself
    | TargetNotFound
    | SourceNotFound
    | HasBeenActive
    | Conflicting(categories: set<Category>)

  // ---------- the rule ----------

  ghost predicate IsConflict(s: Store, single: set<Category>, source: MinionId, target: MinionId, c: Category) {
    c in single && HoldsAny(s, source, c, false) && HoldsAny(s, target, c, false)
  }

  /** The categories whose manual items the target gives up. */
  ghost predicate IsReplaced(
    s: Store, single: set<Category>, source: MinionId, target: MinionId,
    strategy: Strategy, onConflict: ConflictStrategy, c: Category)
  {
    match strategy
    case UseTarget => false
    case UseSource => HoldsAny(s, target, c, false)
    case Merge => onConflict == ConflictStrategy.UseSource && IsConflict(s, single, source, target, c)
  }

  /** The categories from which nothing of the source is taken over. */
  ghost predicate IsDropped(
    s: Store, single: set<Category>, source: MinionId, target: MinionId,
    strategy: Strategy, onConflict: ConflictStrategy, c: Category)
  {
    match strategy
    case UseTarget => true
    case UseSource => false
    case Merge => onConflict == ConflictStrategy.UseTarget && IsConflict(s, single, source, target, c)
  }

  /** What every minion holds once the source is merged into the target. */
  ghost predicate IsMerged(
    s: Store, n: Store, single: set<Category>, source: MinionId, target: MinionId,
    strategy: Strategy, onConflict: ConflictStrategy)
  {
    forall p, isSystem, m :: Held(n, m, p, isSystem) ==
      if m == source then multiset{}
      else if m == target then
        (if !isSystem && IsReplaced(s, single, source, target, strategy, onConflict, p.CategoryOf()) then multiset{}
         else Held(s, target, p, isSystem))
        + (if IsDropped(s, single, source, target, strategy, onConflict, p.CategoryOf()) then multiset{}
           else Held(s, source, p, isSystem))
      else Held(s, m, p, isSystem)
  }

  // ---------- what follows from it ----------

  /** No strategy lets the target end with two manual items where it may hold one. */
  lemma MergeKeepsSingleManualItems(
    s: Store, n: Store, single: set<Category>, source: MinionId, target: MinionId,
    strategy: Strategy, onConflict: ConflictStrategy, m: MinionId, c: Category)
    requires source != target && IsMerged(s, n, single, source, target, strategy, onConflict)
    requires c in single && HoldsAtMostOne(s, source, c, false) && HoldsAtMostOne(s, target, c, false)
    requires m != source && m != target ==> HoldsAtMostOne(s, m, c, false)
    // a conflict left to the ERROR strategy does not get this far
    requires strategy == Strategy.Merge && onConflict == Error ==> !IsConflict(s, single, source, target, c)
    ensures HoldsAtMostOne(n, m, c, false)
  {
    if m == target {
      if IsDropped(s, single, source, target, strategy, onConflict, c) || !HoldsAny(s, source, c, false) {
        AtMostAsMany(s, n, target, target, c);
      } else {
        AtMostAsMany(s, n, source, target, c);
      }
    }
  }

  lemma AtMostAsMany(s: Store, n: Store, from: MinionId, m: MinionId, c: Category)
    requires HoldsAtMostOne(s, from, c, false)
    requires forall p: Place :: p.CategoryOf() == c ==> Held(n, m, p, false) <= Held(s, from, p, false)
    ensures HoldsAtMostOne(n, m, c, false)
  {
    forall p: Place | p.CategoryOf() == c
      ensures |Held(n, m, p, false)| <= 1
    {
      var less, more := Held(n, m, p, false), Held(s, from, p, false);
      assert more == less + (more - less);
    }
  }

  /** USE_SOURCE leaves the target exactly the source's manual items, in their places. */
  lemma UseSourceTakesOver(
    s: Store, n: Store, single: set<Category>, source: MinionId, target: MinionId, onConflict: ConflictStrategy,
    p: Place)
    requires source != target && IsMerged(s, n, single, source, target, Strategy.UseSource, onConflict)
    ensures Held(n, target, p, false) == Held(s, source, p, false)
  {
    assert !HoldsAny(s, target, p.CategoryOf(), false) ==> Held(s, target, p, false) == multiset{};
  }

  /** A conflict is a single-item category in which both minions have a manual item, wherever they have it. */
  lemma ConflictExactly(s: Store, single: set<Category>, source: MinionId, target: MinionId, c: Category)
    ensures IsConflict(s, single, source, target, c) <==>
      && c in single
      && (exists p: Place :: p.CategoryOf() == c && Held(s, source, p, false) != multiset{})
      && (exists p: Place :: p.CategoryOf() == c && Held(s, target, p, false) != multiset{})
  {
  }

  /** USE_TARGET leaves the target what it held, of either kind and in every place. */
  lemma UseTargetKeepsAll(
    s: Store, n: Store, single: set<Category>, source: MinionId, target: MinionId, onConflict: ConflictStrategy,
    p: Place, isSystem: bool)
    requires source != target && IsMerged(s, n, single, source, target, Strategy.UseTarget, onConflict)
    ensures Held(n, target, p, isSystem) == Held(s, target, p, isSystem)
  {
  }

  /** In a conflict the side that is to be used keeps its manual items, and the other's are gone. */
  lemma ConflictIsSettled(
    s: Store, n: Store, single: set<Category>, source: MinionId, target: MinionId, onConflict: ConflictStrategy,
    p: Place)
    requires source != target && IsMerged(s, n, single, source, target, Strategy.Merge, onConflict)
    requires p.CategoryOf() in single
    requires exists q: Place :: q.CategoryOf() == p.CategoryOf() && Held(s, source, q, false) != multiset{}
    requires exists q: Place :: q.CategoryOf() == p.CategoryOf() && Held(s, target, q, false) != multiset{}
    ensures onConflict == ConflictStrategy.UseTarget ==>
      && Held(n, target, p, false) == Held(s, target, p, false)
      && Held(n, target, p, true) == Held(s, target, p, true)
    ensures onConflict == ConflictStrategy.UseSource ==>
      && Held(n, target, p, false) == Held(s, source, p, false)
      && Held(n, target, p, true) == Held(s, target, p, true) + Held(s, source, p, true)
  {
    assert IsConflict(s, single, source, target, p.CategoryOf()) by {
      ConflictExactly(s, single, source, target, p.CategoryOf());
    }
    HeldAfterConflict(s, n, single, source, target, onConflict, p, false);
    HeldAfterConflict(s, n, single, source, target, onConflict, p, true);
  }

  lemma HeldAfterConflict(
    s: Store, n: Store, single: set<Category>, source: MinionId, target: MinionId, onConflict: ConflictStrategy,
    p: Place, isSystem: bool)
    requires source != target && IsMerged(s, n, single, source, target, Strategy.Merge, onConflict)
    requires IsConflict(s, single, source, target, p.CategoryOf())
    ensures onConflict == ConflictStrategy.UseTarget ==> Held(n, target, p, isSystem) == Held(s, target, p, isSystem)
    ensures onConflict == ConflictStrategy.UseSource ==>
      Held(n, target, p, isSystem) ==
        (if isSystem then Held(s, target, p, true) else multiset{}) + Held(s, source, p, isSystem)
  {
  }

  /** USE_SOURCE adds the source's system items to the target's. */
  lemma UseSourceAddsSystemItems(
    s: Store, n: Store, single: set<Category>, source: MinionId, target: MinionId, onConflict: ConflictStrategy,
    p: Place)
    requires source != target && IsMerged(s, n, single, source, target, Strategy.UseSource, onConflict)
    ensures Held(n, target, p, true) == Held(s, target, p, true) + Held(s, source, p, true)
  {
  }

  /** MERGE keeps the items of both wherever there is no conflict. */
  lemma MergeAddsUp(
    s: Store, n: Store, single: set<Category>, source: MinionId, target: MinionId, onConflict: ConflictStrategy,
    p: Place, isSystem: bool)
    requires source != target && IsMerged(s, n, single, source, target, Strategy.Merge, onConflict)
    requires !IsConflict(s, single, source, target, p.CategoryOf())
    ensures Held(n, target, p, isSystem) == Held(s, target, p, isSystem) + Held(s, source, p, isSystem)
  {
  }

  /** The target loses no system item, and third minions change in nothing; nothing is held by the source any more. */
  lemma MergeLeavesTheRest(
    s: Store, n: Store, single: set<Category>, source: MinionId, target: MinionId,
    strategy: Strategy, onConflict: ConflictStrategy, m: MinionId, p: Place, isSystem: bool)
    requires source != target && IsMerged(s, n, single, source, target, strategy, onConflict)
    ensures Held(s, target, p, true) <= Held(n, target, p, true)
    ensures m != source && m != target ==> Held(n, m, p, isSystem) == Held(s, m, p, isSystem)
    ensures Held(n, source, p, isSystem) == multiset{}
  {
  }

  /**
   System items are not looked at for conflicts: in a single-item category the target ends with two of them exactly
   when both minions held one and the source's items were taken over.
   */
  lemma SystemItemsMayDouble(
    s: Store, n: Store, single: set<Category>, source: MinionId, target: MinionId,
    strategy: Strategy, onConflict: ConflictStrategy, c: Category)
    requires source != target && IsMerged(s, n, single, source, target, strategy, onConflict)
    requires HoldsAtMostOne(s, source, c, true) && HoldsAtMostOne(s, target, c, true)
    ensures HoldsAtMostOne(n, target, c, true) <==>
      || IsDropped(s, single, source, target, strategy, onConflict, c)
      || !HoldsAny(s, source, c, true) || !HoldsAny(s, target, c, true)
  {
    if IsDropped(s, single, source, target, strategy, onConflict, c) || !HoldsAny(s, source, c, true) {
      TargetStaysSingle(s, n, single, source, target, strategy, onConflict, c);
    } else if !HoldsAny(s, target, c, true) {
      TargetTakesOver(s, n, single, source, target, strategy, onConflict, c);
    } else {
      var p: Place :| p.CategoryOf() == c && Held(s, source, p, true) != multiset{};
      var q: Place :| q.CategoryOf() == c && Held(s, target, q, true) != multiset{};
      TwoHeld(s, n, source, target, p, q);
    }
  }

  lemma TargetStaysSingle(
    s: Store, n: Store, single: set<Category>, source: MinionId, target: MinionId,
    strategy: Strategy, onConflict: ConflictStrategy, c: Category)
    requires source != target && IsMerged(s, n, single, source, target, strategy, onConflict)
    requires HoldsAtMostOne(s, target, c, true)
    requires IsDropped(s, single, source, target, strategy, onConflict, c) || !HoldsAny(s, source, c, true)
    ensures HoldsAtMostOne(n, target, c, true)
  {
    forall p: Place | p.CategoryOf() == c
      ensures Held(n, target, p, true) == Held(s, target, p, true)
    {
    }
  }

  lemma TargetTakesOver(
    s: Store, n: Store, single: set<Category>, source: MinionId, target: MinionId,
    strategy: Strategy, onConflict: ConflictStrategy, c: Category)
    requires source != target && IsMerged(s, n, single, source, target, strategy, onConflict)
    requires HoldsAtMostOne(s, source, c, true) && !HoldsAny(s, target, c, true)
    requires !IsDropped(s, single, source, target, strategy, onConflict, c)
    ensures HoldsAtMostOne(n, target, c, true)
  {
    forall p: Place | p.CategoryOf() == c
      ensures Held(n, target, p, true) == Held(s, source, p, true)
    {
    }
  }

  lemma TwoHeld(s: Store, n: Store, source: MinionId, target: MinionId, p: Place, q: Place)
    requires p.CategoryOf() == q.CategoryOf()
    requires Held(s, source, p, true) != multiset{} && Held(s, target, q, true) != multiset{}
    requires Held(n, target, p, true) == Held(s, target, p, true) + Held(s, source, p, true)
    requires Held(n, target, q, true) == Held(s, target, q, true) + Held(s, source, q, true)
    ensures !HoldsAtMostOne(n, target, p.CategoryOf(), true)
  {
    var x :| x in Held(s, source, p, true);
    var y :| y in Held(s, target, q, true);
    assert x in Held(n, target, p, true) && y in Held(n, target, q, true);
    if p == q {
      assert |Held(n, target, p, true)| == |Held(s, target, p, true)| + |Held(s, source, p, true)|;
    }
  }
}
