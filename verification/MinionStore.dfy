/**
 The stored extra data of the minions and the writes on it
 (saltbox_core/minion_collections/repositories, saltbox_core/minion_collections/services).
 */
module MinionStore {
  import opened Wrappers
  import opened ExtraData
  import opened MinionMerge
  import opened ExtraDataCategory
  import opened ExtraDataWrites
  import opened ExtraDataGroups

  class Minions {
    var statics: map<MinionId, map<Category, seq<Item>>>
    var records: Records
    const single: set<Category>
    const text: Data -> string
    var nextId: ItemId

    constructor (single: set<Category>, text: Data -> string)
      ensures Current() == Store(map[], map[]) && this.single == single && this.text == text
    {
      this.statics, this.records, this.single, this.text, this.nextId := map[], map[], single, text, 0;
    }

    function Current(): Store
      reads this
    {
      Store(statics, records)
    }

    /** get_minion_categories */
    method GetMinionCategories(m: MinionId, isSystem: bool) returns (categories: set<Category>)
      ensures forall c :: c in categories <==>
        exists key :: key in records && key.category == c && Owned(records[key].entries, m, isSystem) != multiset{}
    {
      categories := set key | key in records && HasEntry(records[key].entries, m, isSystem) :: key.category;
      forall key | key in records
        ensures HasEntry(records[key].entries, m, isSystem) <==> Owned(records[key].entries, m, isSystem) != multiset{}
      {
        OwnedByEntry(records[key].entries, m, isSystem);
      }
    }

    /** _get_static_manual_categories */
    method GetStaticManualCategories(itemsOf: map<Category, seq<Item>>) returns (categories: set<Category>)
      ensures forall c :: c in categories <==> c in itemsOf && OfKind(itemsOf[c], false) != multiset{}
    {
      categories := {};
      var left := itemsOf.Keys;
      while left != {}
        invariant left <= itemsOf.Keys
        invariant forall c :: c in categories <==> c in itemsOf && c !in left && OfKind(itemsOf[c], false) != multiset{}
        decreases left
      {
        var c :| c in left;
        left := left - {c};
        for i := 0 to |itemsOf[c]|
          invariant forall d :: d != c ==>
            (d in categories <==> d in itemsOf && d !in left && OfKind(itemsOf[d], false) != multiset{})
          invariant c in categories <==> OfKind(itemsOf[c][..i], false) != multiset{}
        {
          OfKindConcat(itemsOf[c][..i], [itemsOf[c][i]], false);
          assert itemsOf[c][..i + 1] == itemsOf[c][..i] + [itemsOf[c][i]];
          assert OfKind([itemsOf[c][i]], false) ==
            if itemsOf[c][i].isSystem then multiset{} else multiset{itemsOf[c][i]};
          if !itemsOf[c][i].isSystem {
            categories := categories + {c};
            assert itemsOf[c][i] in OfKind(itemsOf[c][..i + 1], false);
          }
        }
        assert itemsOf[c][..|itemsOf[c]|] == itemsOf[c];
      }
    }

    /** The categories with manual items of the minion, in either kind of place. */
    method GetManualCategories(m: MinionId) returns (categories: set<Category>)
      requires m in statics
      ensures forall c :: c in categories <==> HoldsAny(Current(), m, c, false)
    {
      var inRecords := GetMinionCategories(m, false);
      var inMinion := GetStaticManualCategories(statics[m]);
      categories := inRecords + inMinion;
      forall c
        ensures c in categories <==> HoldsAny(Current(), m, c, false)
      {
        HoldsByPlace(Current(), m, c, false);
      }
    }

    method PullMinionsEntries(c: Category, minions: set<MinionId>, isSystem: bool)
      modifies this`records
      ensures IsPulled(old(records), records, {c}, minions, {isSystem})
    {
      PulledFromIsPulled(records, {c}, minions, {isSystem});
      records := PulledFrom(records, {c}, minions, {isSystem});
    }

    method PullAllMinionsEntries(minions: set<MinionId>)
      modifies this`records
      ensures AreGone(old(records), records, minions)
    {
      ghost var categories := set key | key in records :: key.category;
      PulledFromIsPulled(records, categories, minions, {true, false});
      records := map key | key in records ::
        records[key].(entries := Pulled(records[key].entries, minions, {true, false}));
      assert records == PulledFrom(old(records), categories, minions, {true, false});
    }

    method MoveMinionEntries(source: MinionId, target: MinionId, excluded: set<Category>)
      requires source != target
      modifies this`records
      ensures IsMoved(old(records), records, source, target, excluded)
    {
      MovedExceptIsMoved(records, source, target, excluded);
      records := MovedExcept(records, source, target, excluded);
    }

    method SetStaticExtraDataItems(m: MinionId, items: map<Category, seq<Item>>)
      modifies this`statics
      ensures statics == WithItems(old(statics), m, items)
    {
      if m in statics {
        statics := statics[m := statics[m] + items];
      }
    }

    method Delete(m: MinionId)
      modifies this`statics
      ensures statics == old(statics) - {m}
    {
      statics := statics - {m};
    }

    /** The two loops of merge over the items inside the minion documents. */
    method CollectItems(
      targetItems: map<Category, seq<Item>>, sourceItems: map<Category, seq<Item>>,
      replaced: set<Category>, dropped: set<Category>)
      returns (items: map<Category, seq<Item>>)
      ensures items == Collected(targetItems, sourceItems, replaced, dropped)
    {
      items := KeepSystemItems(targetItems, replaced);
      var left := sourceItems.Keys;
      while left != {}
        invariant left <= sourceItems.Keys && AreCollected(items, targetItems, sourceItems, replaced, dropped, left)
        decreases left
      {
        var c :| c in left;
        if c in dropped {
          OneMoreDropped(items, targetItems, sourceItems, replaced, dropped, left, c);
          left := left - {c};
          continue;
        }
        var before := if c in items then items[c] else if c in targetItems then targetItems[c] else [];
        OneMoreTaken(items, targetItems, sourceItems, replaced, dropped, left, c, before);
        items := items[c := before + sourceItems[c]];
        left := left - {c};
      }
      AllCollected(items, targetItems, sourceItems, replaced, dropped);
    }

    /** Of the replaced categories only the system items stay. */
    method KeepSystemItems(targetItems: map<Category, seq<Item>>, replaced: set<Category>)
      returns (items: map<Category, seq<Item>>)
      ensures items == map c | c in targetItems.Keys * replaced :: KeepKind(targetItems[c], true)
    {
      items := map[];
      var left := targetItems.Keys;
      while left != {}
        invariant left <= targetItems.Keys
        invariant items == map c | c in (targetItems.Keys - left) * replaced :: KeepKind(targetItems[c], true)
        decreases left
      {
        var c :| c in left;
        left := left - {c};
        if c in replaced {
          items := items[c := KeepKind(targetItems[c], true)];
        }
      }
    }

    /**
     merge. Nothing is written when it fails, and it fails exactly for a merge into itself, a minion that is not
     there, a source that has been active, and conflicts that are to be errors.
     */
    method Merge(
      source: MinionId, target: MinionId, inCollection: set<MinionId>, neverActive: set<MinionId>,
      strategy: Strategy, onConflict: ConflictStrategy)
      returns (outcome: Result<(), MergeError>)
      requires inCollection <= statics.Keys
      modifies this
      ensures outcome.Err? ==> Current() == old(Current())
      ensures outcome.Ok? ==>
        && IsMerged(old(Current()), Current(), single, source, target, strategy, onConflict)
        && statics.Keys == old(statics).Keys - {source} && SameShared(old(records), records)
      ensures outcome.Ok? <==>
        && source != target && target in inCollection && source in inCollection && source in neverActive
        && (strategy == Strategy.Merge && onConflict == Error ==>
             forall c :: !IsConflict(old(Current()), single, source, target, c))
      ensures outcome.Err? && outcome.error.Conflicting? ==>
        forall c :: c in outcome.error.categories <==> IsConflict(old(Current()), single, source, target, c)
    {
      if source == target {
        return Err(IntoItself);
      }
      if target !in inCollection {
        return Err(TargetNotFound);
      }
      if source !in inCollection {
        return Err(SourceNotFound);
      }
      if source !in neverActive {
        return Err(HasBeenActive);
      }
      ghost var s := Current();
      if strategy != Strategy.UseTarget {
        var targetManual := GetManualCategories(target);
        var replaced: set<Category>, dropped: set<Category> := {}, {};
        if strategy == Strategy.UseSource {
          replaced := targetManual;
        } else {
          var sourceManual := GetManualCategories(source);
          var conflicts := single * sourceManual * targetManual;
          assert forall c :: c in conflicts <==> IsConflict(s, single, source, target, c);
          if conflicts != {} && onConflict == Error {
            return Err(Conflicting(conflicts));
          }
          if onConflict == ConflictStrategy.UseSource {
            replaced := conflicts;
          } else if onConflict == ConflictStrategy.UseTarget {
            dropped := conflicts;
          }
        }
        assert forall c :: c in replaced <==> IsReplaced(s, single, source, target, strategy, onConflict, c);
        assert forall c :: c in dropped <==> IsDropped(s, single, source, target, strategy, onConflict, c);
        WriteMerged(source, target, replaced, dropped);
        ghost var moved := records;
        Delete(source);
        PullAllMinionsEntries({source});
        SourcePulled(s.records, moved, records, source, target, replaced, dropped);
        MergedStore(s, Current(), single, source, target, strategy, onConflict, replaced, dropped);
      } else {
        Delete(source);
        PullAllMinionsEntries({source});
        SourceGone(s, Current(), single, source, target, onConflict);
      }
      return Ok(());
    }

    /** The writes of merge on the target: its own items, its replaced manual entries, and the source's entries. */
    method WriteMerged(source: MinionId, target: MinionId, replaced: set<Category>, dropped: set<Category>)
      requires source in statics && target in statics && source != target
      modifies this
      ensures statics ==
        WithItems(old(statics), target, Collected(old(statics)[target], old(statics)[source], replaced, dropped))
      ensures IsPulledAndMoved(old(records), records, source, target, replaced, dropped)
    {
      var items := CollectItems(statics[target], statics[source], replaced, dropped);
      SetStaticExtraDataItems(target, items);
      NothingPulled(records, {target}, {false});
      var left := replaced;
      while left != {}
        invariant left <= replaced && statics == WithItems(old(statics), target, items)
        invariant IsPulled(old(records), records, replaced - left, {target}, {false})
        decreases left
      {
        var c :| c in left;
        left := left - {c};
        ghost var before := records;
        PullMinionsEntries(c, {target}, false);
        PulledMore(old(records), before, records, replaced - left - {c}, c, {target}, {false});
        assert replaced - left == replaced - left - {c} + {c};
      }
      ghost var pulled := records;
      MoveMinionEntries(source, target, dropped);
      PulledAndMoved(old(records), pulled, records, source, target, replaced, dropped);
    }

    // ---------- adding, replacing and importing items ----------

    method NewItem(isSystem: bool, data: Data) returns (item: Item)
      modifies this`nextId
      ensures item.isSystem == isSystem && item.data == data
    {
      item := Item(nextId, isSystem, data);
      nextId := nextId + 1;
    }

    method ReplaceStaticItems(c: Category, itemsOf: map<MinionId, seq<Item>>, isSystem: bool)
      modifies this`statics
      ensures statics == StaticsReplaced(old(statics), c, itemsOf, isSystem)
    {
      statics := StaticsReplaced(statics, c, itemsOf, isSystem);
    }

    method PushStaticItems(c: Category, itemsOf: map<MinionId, seq<Item>>)
      modifies this`statics
      ensures statics == StaticsPushed(old(statics), c, itemsOf)
    {
      statics := StaticsPushed(statics, c, itemsOf);
    }

    /** `$push` with upsert: the query finds the record whose shared data is numerically equal. */
    method PushMinionsEntries(c: Category, shared: Data, entries: seq<Entry>)
      modifies this`records
      ensures IsPushed(old(records), records, c, shared, entries)
    {
      ghost var before := records;
      var key := KeyOf(c, shared);
      if key in records {
        forall m, isSystem
          ensures Owned(records[key].entries + entries, m, isSystem) ==
            Owned(records[key].entries, m, isSystem) + Owned(entries, m, isSystem)
        {
          OwnedConcat(records[key].entries, entries, m, isSystem);
        }
        records := records[key := records[key].(entries := records[key].entries + entries)];
      } else {
        records := records[key := Record(shared, entries)];
      }
    }

    /** The items for the static category, minion by minion. */
    method MakeStaticItems(existing: set<MinionId>, datas: Datas, isSystem: bool)
      returns (itemsOf: map<MinionId, seq<Item>>)
      requires existing <= datas.Keys
      modifies this`nextId
      ensures itemsOf.Keys == existing && forall m :: m in existing ==> AreMade(itemsOf[m], datas[m], isSystem)
    {
      itemsOf := map[];
      var left := existing;
      while left != {}
        invariant left <= existing && itemsOf.Keys == existing - left
        invariant forall m :: m in itemsOf ==> AreMade(itemsOf[m], datas[m], isSystem)
        decreases left
      {
        var m :| m in left;
        left := left - {m};
        var items: seq<Item> := [];
        for i := 0 to |datas[m]|
          invariant AreMade(items, datas[m][..i], isSystem)
        {
          var item := NewItem(isSystem, datas[m][i]);
          items := items + [item];
        }
        itemsOf := itemsOf[m := items];
      }
    }

    /** The entries for the aggregated category, grouped by the JSON text of the data they share. */
    method MakeEntries(minions: set<MinionId>, schema: Schema, datas: Datas, isSystem: bool)
      returns (groups: Groups, ghost made: Made)
      requires minions <= datas.Keys
      modifies this`nextId
      ensures made.Keys == minions && GroupsHold(groups, schema.category, made, isSystem)
      ensures forall m :: m in minions ==> ArePlaced(made[m], groups, schema, datas[m], text, isSystem)
      ensures AreGroups(groups, SharedParts(schema, datas, minions), text)
    {
      groups, made := map[], map[];
      NothingGrouped(schema.category, isSystem);
      var left := minions;
      while left != {}
        invariant left <= minions && made.Keys == minions - left
        invariant GroupsHold(groups, schema.category, made, isSystem)
        invariant forall m :: m in made ==> ArePlaced(made[m], groups, schema, datas[m], text, isSystem)
        invariant AreGroups(groups, SharedParts(schema, datas, minions), text)
        decreases left
      {
        var m :| m in left;
        left := left - {m};
        groups, made := AddEntries(groups, made, minions, m, schema, datas, isSystem);
      }
    }

    /** The inner loop, over the data of one minion. */
    method AddEntries(
      before: Groups, ghost madeBefore: Made, ghost minions: set<MinionId>, m: MinionId, schema: Schema, datas: Datas,
      isSystem: bool)
      returns (groups: Groups, ghost made: Made)
      requires minions <= datas.Keys && m in minions && m !in madeBefore && madeBefore.Keys <= datas.Keys
      requires GroupsHold(before, schema.category, madeBefore, isSystem)
      requires forall o :: o in madeBefore ==> ArePlaced(madeBefore[o], before, schema, datas[o], text, isSystem)
      requires AreGroups(before, SharedParts(schema, datas, minions), text)
      modifies this`nextId
      ensures made.Keys == madeBefore.Keys + {m} && GroupsHold(groups, schema.category, made, isSystem)
      ensures forall o :: o in made ==> ArePlaced(made[o], groups, schema, datas[o], text, isSystem)
      ensures AreGroups(groups, SharedParts(schema, datas, minions), text)
    {
      groups, made := before, madeBefore[m := []];
      OneMinionMore(before, schema.category, madeBefore, m, isSystem);
      for i := 0 to |datas[m]|
        invariant m in made && made == madeBefore[m := made[m]] && GroupsHold(groups, schema.category, made, isSystem)
        invariant HaveGrown(before, groups) && AreGroups(groups, SharedParts(schema, datas, minions), text)
        invariant ArePlaced(made[m], groups, schema, datas[m][..i], text, isSystem)
      {
        var categoryData, minionData := SplitData(schema, datas[m][i]);
        var item := NewItem(isSystem, minionData);
        var key := text(categoryData);
        ghost var after := WithEntry(groups, key, categoryData, Entry(m, item));
        OneEntryMore(groups, schema.category, made, m, key, categoryData, item, isSystem);
        StillPlaced(groups, after, made[m], schema, datas[m][..i], text, isSystem);
        OneMorePlaced(after, made[m], schema, datas[m], i, item, text, isSystem);
        groups := groups[key :=
          if key in groups then groups[key].(entries := groups[key].entries + [Entry(m, item)])
          else Record(categoryData, [Entry(m, item)])];
        made := made[m := made[m] + [Placed(item, KeyOf(schema.category, groups[key].shared))]];
      }
      assert datas[m][..|datas[m]|] == datas[m];
      forall o | o in made && o != m
        ensures ArePlaced(made[o], groups, schema, datas[o], text, isSystem)
      {
        StillPlaced(before, groups, madeBefore[o], schema, datas[o], text, isSystem);
      }
    }

    /** _write_items, for the minions that exist. */
    method WriteItems(schema: Schema, datas: Datas, isSystem: bool, replace: bool) returns (ghost homes: Homes)
      modifies this
      ensures IsWritten(old(Current()), Current(), schema, datas, isSystem, replace, homes)
      ensures !schema.isStatic ==> AreHomes(homes, SharedParts(schema, datas, datas.Keys * statics.Keys), text)
      ensures IsIndexed(old(records)) ==> IsIndexed(records)
    {
      var existing := datas.Keys * statics.Keys;
      if existing == {} {
        homes := map[];
        NothingToWrite(Current(), schema, datas, isSystem, replace);
      } else if schema.isStatic {
        homes := map[];
        WriteStatic(schema, datas, existing, isSystem, replace);
      } else {
        homes := WriteAggregated(schema, datas, existing, isSystem, replace);
      }
    }

    method WriteStatic(schema: Schema, datas: Datas, existing: set<MinionId>, isSystem: bool, replace: bool)
      requires schema.isStatic && existing == datas.Keys * statics.Keys
      modifies this
      ensures IsWritten(old(Current()), Current(), schema, datas, isSystem, replace, map[]) && records == old(records)
    {
      ghost var s := Current();
      var itemsOf := MakeStaticItems(existing, datas, isSystem);
      if replace {
        ReplaceStaticItems(schema.category, itemsOf, isSystem);
      } else if exists m :: m in itemsOf && itemsOf[m] != [] {
        PushStaticItems(schema.category, itemsOf);
      }
      StaticStored(s, Current(), schema, itemsOf, isSystem, replace);
      StaticIsWritten(s, Current(), schema, datas, itemsOf, isSystem, replace);
    }

    method WriteAggregated(schema: Schema, datas: Datas, existing: set<MinionId>, isSystem: bool, replace: bool)
      returns (ghost homes: Homes)
      requires !schema.isStatic && existing == datas.Keys * statics.Keys
      modifies this
      ensures statics == old(statics)
      ensures IsWritten(old(Current()), Current(), schema, datas, isSystem, replace, homes)
      ensures AreHomes(homes, SharedParts(schema, datas, existing), text)
      ensures IsIndexed(old(records)) ==> IsIndexed(records)
    {
      ghost var s := Current();
      MakeRoom(schema.category, existing, isSystem, replace);
      ghost var pulled := records;
      var groups; ghost var made;
      groups, made := MakeEntries(existing, schema, datas, isSystem);
      PushGroups(schema.category, groups);
      homes := WrittenByGroups(s, pulled, Current(), schema, datas, existing, groups, made, text, isSystem, replace);
    }

    method MakeRoom(c: Category, minions: set<MinionId>, isSystem: bool, replace: bool)
      modifies this`records
      ensures IsMadeRoom(old(records), records, c, minions, isSystem, replace)
      ensures IsIndexed(old(records)) ==> IsIndexed(records)
    {
      if replace {
        PullMinionsEntries(c, minions, isSystem);
      }
    }

    method PushGroups(c: Category, groups: Groups)
      modifies this`records
      ensures ArePushed(old(records), records, c, groups)
      ensures IsIndexed(old(records)) ==> IsIndexed(records)
    {
      var left := groups.Keys;
      ghost var done: Groups := map[];
      NothingPushed(records, c);
      while left != {}
        invariant left <= groups.Keys && done == groups - left && ArePushed(old(records), records, c, done)
        invariant IsIndexed(old(records)) ==> IsIndexed(records)
        decreases left
      {
        var key :| key in left;
        left := left - {key};
        ghost var before := records;
        PushMinionsEntries(c, groups[key].shared, groups[key].entries);
        OneGroupMore(old(records), before, records, c, done, key, groups[key]);
        done := done[key := groups[key]];
      }
      assert done == groups;
    }
  }

  lemma NothingToWrite(s: Store, schema: Schema, datas: Datas, isSystem: bool, replace: bool)
    requires datas.Keys * s.statics.Keys == {}
    ensures IsWritten(s, s, schema, datas, isSystem, replace, map[])
    ensures SharedParts(schema, datas, {}) == {}
  {
    forall m
      ensures !(m in datas && m in s.statics)
    {
      assert m !in datas.Keys * s.statics.Keys;
    }
  }

  predicate HasEntry(entries: seq<Entry>, m: MinionId, isSystem: bool) {
    exists e :: e in entries && e.minion == m && e.item.isSystem == isSystem
  }

  lemma {:induction false} OwnedByEntry(entries: seq<Entry>, m: MinionId, isSystem: bool)
    ensures HasEntry(entries, m, isSystem) <==> Owned(entries, m, isSystem) != multiset{}
  {
    if entries != [] {
      OwnedByEntry(entries[1..], m, isSystem);
      assert forall e :: e in entries <==> e == entries[0] || e in entries[1..];
      assert Owned(entries, m, isSystem) == Owned([entries[0]], m, isSystem) + Owned(entries[1..], m, isSystem);
      if entries[0].minion == m && entries[0].item.isSystem == isSystem {
        assert entries[0].item in Owned(entries, m, isSystem);
      }
    }
  }

  lemma HoldsByPlace(s: Store, m: MinionId, c: Category, isSystem: bool)
    ensures HoldsAny(s, m, c, isSystem) <==>
      || OfKind(StaticItems(s, m, c), isSystem) != multiset{}
      || exists key :: key in s.records && key.category == c && Owned(s.records[key].entries, m, isSystem) != multiset{}
  {
    if OfKind(StaticItems(s, m, c), isSystem) != multiset{} {
      assert Held(s, m, InMinion(c), isSystem) != multiset{} && InMinion(c).CategoryOf() == c;
    }
    if key :| key in s.records && key.category == c && Owned(s.records[key].entries, m, isSystem) != multiset{} {
      assert Held(s, m, InRecord(key), isSystem) != multiset{} && InRecord(key).CategoryOf() == c;
    }
    if HoldsAny(s, m, c, isSystem) {
      var p: Place :| p.CategoryOf() == c && Held(s, m, p, isSystem) != multiset{};
      assert p.InMinion? ==> p == InMinion(c);
    }
  }

  // ---------- the result of a merge ----------

  function WithItems(statics: map<MinionId, map<Category, seq<Item>>>, m: MinionId, items: map<Category, seq<Item>>)
    : map<MinionId, map<Category, seq<Item>>>
  {
    if m in statics then statics[m := statics[m] + items] else statics
  }

  function Base(targetItems: map<Category, seq<Item>>, replaced: set<Category>, c: Category): seq<Item> {
    if c !in targetItems then []
    else if c in replaced then KeepKind(targetItems[c], true)
    else targetItems[c]
  }

  function Taken(sourceItems: map<Category, seq<Item>>, dropped: set<Category>, c: Category): seq<Item> {
    if c in sourceItems && c !in dropped then sourceItems[c] else []
  }

  /** The items of the categories that are not left are complete. */
  ghost predicate AreCollected(
    items: map<Category, seq<Item>>, targetItems: map<Category, seq<Item>>, sourceItems: map<Category, seq<Item>>,
    replaced: set<Category>, dropped: set<Category>, left: set<Category>)
  {
    && items.Keys == targetItems.Keys * replaced + (sourceItems.Keys - left - dropped)
    && forall c :: c in items ==>
         items[c] == Base(targetItems, replaced, c) + if c in left then [] else Taken(sourceItems, dropped, c)
  }

  lemma OneMoreDropped(
    items: map<Category, seq<Item>>, targetItems: map<Category, seq<Item>>, sourceItems: map<Category, seq<Item>>,
    replaced: set<Category>, dropped: set<Category>, left: set<Category>, c: Category)
    requires AreCollected(items, targetItems, sourceItems, replaced, dropped, left)
    requires c in left && c in sourceItems && c in dropped
    ensures AreCollected(items, targetItems, sourceItems, replaced, dropped, left - {c})
  {
    assert sourceItems.Keys - left - dropped == sourceItems.Keys - (left - {c}) - dropped;
  }

  lemma OneMoreTaken(
    items: map<Category, seq<Item>>, targetItems: map<Category, seq<Item>>, sourceItems: map<Category, seq<Item>>,
    replaced: set<Category>, dropped: set<Category>, left: set<Category>, c: Category, before: seq<Item>)
    requires AreCollected(items, targetItems, sourceItems, replaced, dropped, left)
    requires c in left && c in sourceItems && c !in dropped
    requires before == if c in items then items[c] else if c in targetItems then targetItems[c] else []
    ensures AreCollected(items[c := before + sourceItems[c]], targetItems, sourceItems, replaced, dropped, left - {c})
  {
    var more := items[c := before + sourceItems[c]];
    assert sourceItems.Keys - (left - {c}) - dropped == (sourceItems.Keys - left - dropped) + {c};
    assert more.Keys == targetItems.Keys * replaced + (sourceItems.Keys - (left - {c}) - dropped);
    assert before == Base(targetItems, replaced, c) by {
      assert c in items <==> c in targetItems && c in replaced;
    }
  }

  lemma AllCollected(
    items: map<Category, seq<Item>>, targetItems: map<Category, seq<Item>>, sourceItems: map<Category, seq<Item>>,
    replaced: set<Category>, dropped: set<Category>)
    requires AreCollected(items, targetItems, sourceItems, replaced, dropped, {})
    ensures items == Collected(targetItems, sourceItems, replaced, dropped)
  {
    assert items.Keys == Collected(targetItems, sourceItems, replaced, dropped).Keys;
  }

  function Collected(
    targetItems: map<Category, seq<Item>>, sourceItems: map<Category, seq<Item>>,
    replaced: set<Category>, dropped: set<Category>): map<Category, seq<Item>>
  {
    map c | c in targetItems.Keys * replaced + (sourceItems.Keys - dropped) ::
      Base(targetItems, replaced, c) + Taken(sourceItems, dropped, c)
  }

  lemma MergedStatic(
    s: Store, n: Store, source: MinionId, target: MinionId, replaced: set<Category>, dropped: set<Category>,
    m: MinionId, c: Category, isSystem: bool)
    requires source != target && source in s.statics && target in s.statics
    requires n.statics ==
      WithItems(s.statics, target, Collected(s.statics[target], s.statics[source], replaced, dropped)) - {source}
    ensures OfKind(StaticItems(n, m, c), isSystem) ==
      if m == source then multiset{}
      else if m == target then
        (if !isSystem && c in replaced then multiset{} else OfKind(StaticItems(s, target, c), isSystem))
        + (if c in dropped then multiset{} else OfKind(StaticItems(s, source, c), isSystem))
      else OfKind(StaticItems(s, m, c), isSystem)
  {
    if m == target {
      var base, taken := Base(s.statics[target], replaced, c), Taken(s.statics[source], dropped, c);
      TargetItems(s.statics[target], s.statics[source], replaced, dropped, c);
      assert StaticItems(n, m, c) == base + taken;
      OfKindConcat(base, taken, isSystem);
      BaseOfKind(s, target, replaced, c, isSystem);
    }
  }

  lemma TargetItems(
    targetItems: map<Category, seq<Item>>, sourceItems: map<Category, seq<Item>>,
    replaced: set<Category>, dropped: set<Category>, c: Category)
    ensures
      var after := targetItems + Collected(targetItems, sourceItems, replaced, dropped);
      (if c in after then after[c] else []) == Base(targetItems, replaced, c) + Taken(sourceItems, dropped, c)
  {
  }

  lemma BaseOfKind(s: Store, target: MinionId, replaced: set<Category>, c: Category, isSystem: bool)
    requires target in s.statics
    ensures OfKind(Base(s.statics[target], replaced, c), isSystem) ==
      if !isSystem && c in replaced then multiset{} else OfKind(StaticItems(s, target, c), isSystem)
  {
    KeptKind(StaticItems(s, target, c), true);
  }

  /** What the writes of merge leave every minion of the entries. */
  ghost predicate IsPulledAndMoved(
    before: Records, after: Records, source: MinionId, target: MinionId, replaced: set<Category>,
    dropped: set<Category>)
  {
    && SameShared(before, after)
    && forall key, m, isSystem :: OwnedIn(after, key, m, isSystem) ==
         if m == source then (if key.category in dropped then OwnedIn(before, key, source, isSystem) else multiset{})
         else if m == target then
           (if !isSystem && key.category in replaced then multiset{} else OwnedIn(before, key, target, isSystem))
           + (if key.category in dropped then multiset{} else OwnedIn(before, key, source, isSystem))
         else OwnedIn(before, key, m, isSystem)
  }

  /** The same, once the source's remaining entries are gone. */
  ghost predicate AreMergedRecords(
    before: Records, after: Records, source: MinionId, target: MinionId, replaced: set<Category>,
    dropped: set<Category>)
  {
    forall key, m, isSystem :: OwnedIn(after, key, m, isSystem) ==
      if m == source then multiset{}
      else if m == target then
        (if !isSystem && key.category in replaced then multiset{} else OwnedIn(before, key, target, isSystem))
        + (if key.category in dropped then multiset{} else OwnedIn(before, key, source, isSystem))
      else OwnedIn(before, key, m, isSystem)
  }

  lemma NothingPulled(records: Records, minions: set<MinionId>, kinds: set<bool>)
    ensures IsPulled(records, records, {}, minions, kinds)
  {
  }

  lemma PulledMore(
    before: Records, records: Records, after: Records, categories: set<Category>, c: Category,
    minions: set<MinionId>, kinds: set<bool>)
    requires IsPulled(before, records, categories, minions, kinds) && IsPulled(records, after, {c}, minions, kinds)
    ensures IsPulled(before, after, categories + {c}, minions, kinds)
  {
  }

  lemma PulledAndMovedAt(
    before: Records, pulled: Records, after: Records, source: MinionId, target: MinionId,
    replaced: set<Category>, dropped: set<Category>, key: RecordKey, m: MinionId, isSystem: bool)
    requires source != target
    requires IsPulled(before, pulled, replaced, {target}, {false}) && IsMoved(pulled, after, source, target, dropped)
    ensures OwnedIn(after, key, m, isSystem) ==
      if m == source then (if key.category in dropped then OwnedIn(before, key, source, isSystem) else multiset{})
      else if m == target then
        (if !isSystem && key.category in replaced then multiset{} else OwnedIn(before, key, target, isSystem))
        + (if key.category in dropped then multiset{} else OwnedIn(before, key, source, isSystem))
      else OwnedIn(before, key, m, isSystem)
  {
  }

  lemma PulledAndMoved(
    before: Records, pulled: Records, after: Records, source: MinionId, target: MinionId,
    replaced: set<Category>, dropped: set<Category>)
    requires source != target
    requires IsPulled(before, pulled, replaced, {target}, {false}) && IsMoved(pulled, after, source, target, dropped)
    ensures IsPulledAndMoved(before, after, source, target, replaced, dropped)
  {
    forall key, m, isSystem
      ensures OwnedIn(after, key, m, isSystem) ==
        if m == source then (if key.category in dropped then OwnedIn(before, key, source, isSystem) else multiset{})
        else if m == target then
          (if !isSystem && key.category in replaced then multiset{} else OwnedIn(before, key, target, isSystem))
          + (if key.category in dropped then multiset{} else OwnedIn(before, key, source, isSystem))
        else OwnedIn(before, key, m, isSystem)
    {
      PulledAndMovedAt(before, pulled, after, source, target, replaced, dropped, key, m, isSystem);
    }
  }

  lemma SourcePulled(
    before: Records, moved: Records, after: Records, source: MinionId, target: MinionId,
    replaced: set<Category>, dropped: set<Category>)
    requires source != target && IsPulledAndMoved(before, moved, source, target, replaced, dropped)
    requires AreGone(moved, after, {source})
    ensures AreMergedRecords(before, after, source, target, replaced, dropped)
  {
  }

  lemma MergedStore(
    s: Store, n: Store, single: set<Category>, source: MinionId, target: MinionId,
    strategy: Strategy, onConflict: ConflictStrategy, replaced: set<Category>, dropped: set<Category>)
    requires source != target && source in s.statics && target in s.statics
    requires n.statics ==
      WithItems(s.statics, target, Collected(s.statics[target], s.statics[source], replaced, dropped)) - {source}
    requires AreMergedRecords(s.records, n.records, source, target, replaced, dropped)
    requires forall c :: c in replaced <==> IsReplaced(s, single, source, target, strategy, onConflict, c)
    requires forall c :: c in dropped <==> IsDropped(s, single, source, target, strategy, onConflict, c)
    ensures IsMerged(s, n, single, source, target, strategy, onConflict)
  {
    forall p: Place, isSystem, m
      ensures Held(n, m, p, isSystem) ==
        if m == source then multiset{}
        else if m == target then
          (if !isSystem && p.CategoryOf() in replaced then multiset{} else Held(s, target, p, isSystem))
          + (if p.CategoryOf() in dropped then multiset{} else Held(s, source, p, isSystem))
        else Held(s, m, p, isSystem)
    {
      match p
      case InMinion(c) => MergedStatic(s, n, source, target, replaced, dropped, m, c, isSystem);
      case InRecord(key) => MergedInRecord(s, n, source, target, replaced, dropped, m, key, isSystem);
    }
  }

  lemma MergedInRecord(
    s: Store, n: Store, source: MinionId, target: MinionId, replaced: set<Category>, dropped: set<Category>,
    m: MinionId, key: RecordKey, isSystem: bool)
    requires AreMergedRecords(s.records, n.records, source, target, replaced, dropped)
    ensures Held(n, m, InRecord(key), isSystem) ==
      if m == source then multiset{}
      else if m == target then
        (if !isSystem && key.category in replaced then multiset{} else Held(s, target, InRecord(key), isSystem))
        + (if key.category in dropped then multiset{} else Held(s, source, InRecord(key), isSystem))
      else Held(s, m, InRecord(key), isSystem)
  {
    HeldInRecord(n, m, key, isSystem);
    HeldInRecord(s, m, key, isSystem);
    HeldInRecord(s, source, key, isSystem);
    HeldInRecord(s, target, key, isSystem);
  }

  /** USE_TARGET only deletes the source. */
  lemma SourceGone(
    s: Store, n: Store, single: set<Category>, source: MinionId, target: MinionId, onConflict: ConflictStrategy)
    requires source != target
    requires n.statics == s.statics - {source}
    requires AreGone(s.records, n.records, {source})
    ensures IsMerged(s, n, single, source, target, Strategy.UseTarget, onConflict)
  {
    forall p: Place, isSystem, m
      ensures Held(n, m, p, isSystem) == if m == source then multiset{} else Held(s, m, p, isSystem)
    {
      if p.InRecord? {
        assert Held(n, m, p, isSystem) == OwnedIn(n.records, p.key, m, isSystem);
        assert Held(s, m, p, isSystem) == OwnedIn(s.records, p.key, m, isSystem);
      }
    }
  }
}
