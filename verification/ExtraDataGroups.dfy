/** How the items of one write are grouped and stored. */
module ExtraDataGroups {
  import opened Sums
  import opened ExtraData
  import opened ExtraDataCategory
  import opened ExtraDataWrites

  /** The entries to be stored, by the JSON text of the data they share. */
  type Groups = map<string, Record>

  /** An item that was made, and the record that it is for. */
  datatype Placed = Placed(item: Item, key: RecordKey)

  type Made = map<MinionId, seq<Placed>>

  /** A group has the shared data of its first entry. */
  function WithEntry(groups: Groups, key: string, part: Data, e: Entry): Groups {
    groups[key := if key in groups then groups[key].(entries := groups[key].entries + [e]) else Record(part, [e])]
  }

  function ItemsAt(made: seq<Placed>, key: RecordKey): seq<Item> {
    if made == [] then []
    else
      var n := |made| - 1;
      ItemsAt(made[..n], key) + if made[n].key == key then [made[n].item] else []
  }

  /** What one group brings to a record. */
  function Brought(group: Record, c: Category, key: RecordKey, m: MinionId, isSystem: bool): multiset<Item> {
    if KeyOf(c, group.shared) == key then Owned(group.entries, m, isSystem) else multiset{}
  }

  function GroupHeld(
    groups: Groups, c: Category, key: RecordKey, m: MinionId, isSystem: bool): map<string, multiset<Item>>
  {
    map g | g in groups :: Brought(groups[g], c, key, m, isSystem)
  }

  /** What the groups bring to a record: groups with different texts can be for one record. */
  ghost function HeldByGroups(
    groups: Groups, c: Category, key: RecordKey, m: MinionId, isSystem: bool): multiset<Item>
  {
    Sum(GroupHeld(groups, c, key, m, isSystem))
  }

  ghost predicate GroupsHoldAt(
    groups: Groups, c: Category, made: Made, isSystem: bool, key: RecordKey, m: MinionId, kind: bool)
  {
    HeldByGroups(groups, c, key, m, kind) ==
      if m in made && kind == isSystem then multiset(ItemsAt(made[m], key)) else multiset{}
  }

  /** The groups hold the items made for the minions so far, and nothing else. */
  ghost predicate GroupsHold(groups: Groups, c: Category, made: Made, isSystem: bool) {
    forall key, m, kind :: GroupsHoldAt(groups, c, made, isSystem, key, m, kind)
  }

  predicate IsPlaced(p: Placed, groups: Groups, schema: Schema, data: Data, text: Data -> string, isSystem: bool) {
    var key := text(CategoryPart(schema, data));
    && p.item.isSystem == isSystem && p.item.data == MinionPart(schema, data)
    && key in groups && p.key == KeyOf(schema.category, groups[key].shared)
  }

  predicate ArePlaced(
    made: seq<Placed>, groups: Groups, schema: Schema, datas: seq<Data>, text: Data -> string, isSystem: bool)
  {
    |made| == |datas| && forall i :: 0 <= i < |made| ==> IsPlaced(made[i], groups, schema, datas[i], text, isSystem)
  }

  /** Every group has one of the shared parts, under its text. */
  predicate AreGroups(groups: Groups, parts: set<Data>, text: Data -> string) {
    forall key :: key in groups ==> groups[key].shared in parts && text(groups[key].shared) == key
  }

  predicate HaveGrown(before: Groups, groups: Groups) {
    forall key :: key in before ==> key in groups && groups[key].shared == before[key].shared
  }

  lemma StillPlaced(
    before: Groups, groups: Groups, made: seq<Placed>, schema: Schema, datas: seq<Data>, text: Data -> string,
    isSystem: bool)
    requires ArePlaced(made, before, schema, datas, text, isSystem) && HaveGrown(before, groups)
    ensures ArePlaced(made, groups, schema, datas, text, isSystem)
  {
    forall i | 0 <= i < |made|
      ensures IsPlaced(made[i], groups, schema, datas[i], text, isSystem)
    {
      assert IsPlaced(made[i], before, schema, datas[i], text, isSystem);
    }
  }

  lemma OneMorePlaced(
    groups: Groups, made: seq<Placed>, schema: Schema, datas: seq<Data>, i: nat, item: Item, text: Data -> string,
    isSystem: bool)
    requires i < |datas| && ArePlaced(made, groups, schema, datas[..i], text, isSystem)
    requires item.isSystem == isSystem && item.data == MinionPart(schema, datas[i])
    requires text(CategoryPart(schema, datas[i])) in groups
    ensures
      var key := KeyOf(schema.category, groups[text(CategoryPart(schema, datas[i]))].shared);
      ArePlaced(made + [Placed(item, key)], groups, schema, datas[..i + 1], text, isSystem)
  {
    assert forall k :: 0 <= k < i ==> datas[..i + 1][k] == datas[..i][k];
  }

  lemma NothingGrouped(c: Category, isSystem: bool)
    ensures GroupsHold(map[], c, map[], isSystem)
  {
    forall key, m, kind
      ensures GroupsHoldAt(map[], c, map[], isSystem, key, m, kind)
    {
      assert GroupHeld(map[], c, key, m, kind) == map[];
    }
  }

  lemma OneMinionMore(groups: Groups, c: Category, made: Made, m: MinionId, isSystem: bool)
    requires GroupsHold(groups, c, made, isSystem) && m !in made
    ensures GroupsHold(groups, c, made[m := []], isSystem)
  {
    var more := made[m := []];
    forall key, o, kind
      ensures GroupsHoldAt(groups, c, more, isSystem, key, o, kind)
    {
      assert GroupsHoldAt(groups, c, made, isSystem, key, o, kind);
    }
  }

  /** One entry more in its group. */
  lemma OneEntryMore(
    groups: Groups, c: Category, made: Made, m: MinionId, g: string, part: Data, item: Item, isSystem: bool)
    requires GroupsHold(groups, c, made, isSystem) && m in made && item.isSystem == isSystem
    ensures
      var after := WithEntry(groups, g, part, Entry(m, item));
      && HaveGrown(groups, after)
      && GroupsHold(after, c, made[m := made[m] + [Placed(item, KeyOf(c, after[g].shared))]], isSystem)
  {
    var after := WithEntry(groups, g, part, Entry(m, item));
    var more := Placed(item, KeyOf(c, after[g].shared));
    var nowMade := made[m := made[m] + [more]];
    forall key, o, kind
      ensures GroupsHoldAt(after, c, nowMade, isSystem, key, o, kind)
    {
      assert GroupsHoldAt(groups, c, made, isSystem, key, o, kind);
      OneEntryMoreAt(groups, c, made, m, g, part, item, isSystem, key, o, kind);
    }
  }

  lemma OneEntryMoreAt(
    groups: Groups, c: Category, made: Made, m: MinionId, g: string, part: Data, item: Item, isSystem: bool,
    key: RecordKey, o: MinionId, kind: bool)
    requires GroupsHoldAt(groups, c, made, isSystem, key, o, kind) && m in made && item.isSystem == isSystem
    ensures
      var after := WithEntry(groups, g, part, Entry(m, item));
      GroupsHoldAt(
        after, c, made[m := made[m] + [Placed(item, KeyOf(c, after[g].shared))]], isSystem, key, o, kind)
  {
    var after := WithEntry(groups, g, part, Entry(m, item));
    HeldWithEntry(groups, c, key, o, kind, g, part, Entry(m, item));
    OwnedOne(Entry(m, item), o, kind);
    ItemsAtOneMore(made[m], Placed(item, KeyOf(c, after[g].shared)), key);
  }

  lemma OwnedOne(e: Entry, m: MinionId, isSystem: bool)
    ensures Owned([e], m, isSystem) ==
      if e.minion == m && e.item.isSystem == isSystem then multiset{e.item} else multiset{}
  {
  }

  lemma ItemsAtOneMore(made: seq<Placed>, more: Placed, key: RecordKey)
    ensures multiset(ItemsAt(made + [more], key)) ==
      multiset(ItemsAt(made, key)) + if more.key == key then multiset{more.item} else multiset{}
  {
    assert (made + [more])[..|made|] == made;
  }

  lemma HeldWithEntry(
    groups: Groups, c: Category, key: RecordKey, m: MinionId, isSystem: bool, g: string, part: Data, e: Entry)
    ensures
      var after := WithEntry(groups, g, part, e);
      HeldByGroups(after, c, key, m, isSystem) == HeldByGroups(groups, c, key, m, isSystem)
        + if KeyOf(c, after[g].shared) == key then Owned([e], m, isSystem) else multiset{}
  {
    var group := WithEntry(groups, g, part, e)[g];
    var more := if KeyOf(c, group.shared) == key then Owned([e], m, isSystem) else multiset{};
    OwnedConcat(if g in groups then groups[g].entries else [], [e], m, isSystem);
    assert [] + [e] == [e];
    GroupPut(groups, c, key, m, isSystem, g, group, more);
  }

  /** A group is stored, or gets more. */
  lemma GroupPut(
    groups: Groups, c: Category, key: RecordKey, m: MinionId, isSystem: bool, g: string, group: Record,
    more: multiset<Item>)
    requires Brought(group, c, key, m, isSystem) ==
      (if g in groups then Brought(groups[g], c, key, m, isSystem) else multiset{}) + more
    ensures HeldByGroups(groups[g := group], c, key, m, isSystem) == HeldByGroups(groups, c, key, m, isSystem) + more
  {
    var held := GroupHeld(groups, c, key, m, isSystem);
    GroupHeldPut(groups, c, key, m, isSystem, g, group);
    assert g in held <==> g in groups;
    SumMore(held, g, more);
  }

  lemma GroupHeldPut(groups: Groups, c: Category, key: RecordKey, m: MinionId, isSystem: bool, g: string, group: Record)
    ensures GroupHeld(groups[g := group], c, key, m, isSystem) ==
      GroupHeld(groups, c, key, m, isSystem)[g := Brought(group, c, key, m, isSystem)]
  {
  }

  /** The homes that the groups give the shared parts. */
  function HomesIn(groups: Groups, parts: set<Data>, text: Data -> string): Homes
    requires forall part :: part in parts ==> text(part) in groups
  {
    map part | part in parts :: groups[text(part)].shared
  }

  lemma GroupsAreHomes(
    groups: Groups, made: Made, schema: Schema, datas: Datas, minions: set<MinionId>, text: Data -> string,
    isSystem: bool)
    returns (homes: Homes)
    requires minions <= datas.Keys && made.Keys == minions
    requires AreGroups(groups, SharedParts(schema, datas, minions), text)
    requires forall m :: m in minions ==> ArePlaced(made[m], groups, schema, datas[m], text, isSystem)
    ensures forall part :: part in SharedParts(schema, datas, minions) ==> text(part) in groups
    ensures homes == HomesIn(groups, SharedParts(schema, datas, minions), text)
    ensures AreHomes(homes, SharedParts(schema, datas, minions), text)
  {
    var parts := SharedParts(schema, datas, minions);
    forall part | part in parts
      ensures text(part) in groups
    {
      var m, data :| m in minions && data in datas[m] && CategoryPart(schema, data) == part;
      var i :| 0 <= i < |datas[m]| && datas[m][i] == data;
      assert IsPlaced(made[m][i], groups, schema, datas[m][i], text, isSystem);
    }
    homes := HomesIn(groups, parts, text);
  }

  lemma {:induction false} PlacedAreWanted(
    schema: Schema, datas: seq<Data>, made: seq<Placed>, groups: Groups, homes: Homes, text: Data -> string,
    key: RecordKey, isSystem: bool)
    requires !schema.isStatic && ArePlaced(made, groups, schema, datas, text, isSystem)
    requires forall data :: data in datas ==>
      var part := CategoryPart(schema, data);
      part in homes && text(part) in groups && homes[part] == groups[text(part)].shared
    ensures AreMade(ItemsAt(made, key), Wanted(schema, datas, InRecord(key), homes), isSystem)
  {
    if datas != [] {
      var n := |datas| - 1;
      PlacedAreWanted(schema, datas[..n], made[..n], groups, homes, text, key, isSystem);
      assert datas[n] in datas && IsPlaced(made[n], groups, schema, datas[n], text, isSystem);
    }
  }

  // ---------- storing ----------

  /** `$push` with upsert, for every minion of the entries. */
  ghost predicate IsPushed(before: Records, after: Records, c: Category, shared: Data, entries: seq<Entry>) {
    && after.Keys == before.Keys + {KeyOf(c, shared)}
    && (forall key :: key in after ==> after[key].shared == if key in before then before[key].shared else shared)
    && forall key, m, isSystem :: OwnedIn(after, key, m, isSystem) ==
         OwnedIn(before, key, m, isSystem) + Brought(Record(shared, entries), c, key, m, isSystem)
  }

  /** The groups that are done have been added to their records. */
  ghost predicate ArePushed(before: Records, records: Records, c: Category, done: Groups) {
    forall key, m, isSystem :: OwnedIn(records, key, m, isSystem) ==
      OwnedIn(before, key, m, isSystem) + HeldByGroups(done, c, key, m, isSystem)
  }

  lemma NothingPushed(records: Records, c: Category)
    ensures ArePushed(records, records, c, map[])
  {
    forall key, m, isSystem
      ensures HeldByGroups(map[], c, key, m, isSystem) == multiset{}
    {
      assert GroupHeld(map[], c, key, m, isSystem) == map[];
    }
  }

  lemma OneGroupMore(
    before: Records, records: Records, after: Records, c: Category, done: Groups, g: string, group: Record)
    requires ArePushed(before, records, c, done) && g !in done
    requires IsPushed(records, after, c, group.shared, group.entries)
    ensures ArePushed(before, after, c, done[g := group])
  {
    forall key, m, isSystem
      ensures OwnedIn(after, key, m, isSystem) ==
        OwnedIn(before, key, m, isSystem) + HeldByGroups(done[g := group], c, key, m, isSystem)
    {
      GroupPut(done, c, key, m, isSystem, g, group, Brought(group, c, key, m, isSystem));
    }
  }

  function StaticsReplaced(
    statics: map<MinionId, map<Category, seq<Item>>>, c: Category, itemsOf: map<MinionId, seq<Item>>, isSystem: bool)
    : map<MinionId, map<Category, seq<Item>>>
  {
    map m | m in statics ::
      if m in itemsOf
      then statics[m][c := KeepKind(if c in statics[m] then statics[m][c] else [], !isSystem) + itemsOf[m]]
      else statics[m]
  }

  function StaticsPushed(
    statics: map<MinionId, map<Category, seq<Item>>>, c: Category, itemsOf: map<MinionId, seq<Item>>)
    : map<MinionId, map<Category, seq<Item>>>
  {
    map m | m in statics ::
      if m in itemsOf then statics[m][c := (if c in statics[m] then statics[m][c] else []) + itemsOf[m]] else statics[m]
  }

  lemma {:induction false} MadeOfKind(items: seq<Item>, wanted: seq<Data>, isSystem: bool)
    requires AreMade(items, wanted, isSystem)
    ensures OfKind(items, isSystem) == multiset(items) && OfKind(items, !isSystem) == multiset{}
  {
    if items != [] {
      MadeOfKind(items[1..], wanted[1..], isSystem);
      assert items == [items[0]] + items[1..];
    }
  }

  lemma {:induction false} WantedStatic(schema: Schema, datas: seq<Data>)
    requires schema.isStatic
    ensures Wanted(schema, datas, InMinion(schema.category), map[]) == datas
  {
    if datas != [] {
      WantedStatic(schema, datas[..|datas| - 1]);
    }
  }

  /** The items of a minion in a static category after the write. */
  ghost predicate IsStaticAfter(
    s: Store, n: Store, c: Category, m: MinionId, items: seq<Item>, isSystem: bool, replace: bool)
  {
    var kept := if replace then KeepKind(StaticItems(s, m, c), !isSystem) else StaticItems(s, m, c);
    StaticItems(n, m, c) == kept + items
  }

  lemma StaticHeld(
    s: Store, n: Store, c: Category, m: MinionId, items: seq<Item>, wanted: seq<Data>, isSystem: bool, replace: bool)
    requires IsStaticAfter(s, n, c, m, items, isSystem, replace) && AreMade(items, wanted, isSystem)
    ensures Held(n, m, InMinion(c), !isSystem) == Held(s, m, InMinion(c), !isSystem)
    ensures AddsItems(
      if replace then multiset{} else Held(s, m, InMinion(c), isSystem),
      Held(n, m, InMinion(c), isSystem), wanted, isSystem)
  {
    var first := if replace then KeepKind(StaticItems(s, m, c), !isSystem) else StaticItems(s, m, c);
    KeptKind(StaticItems(s, m, c), !isSystem);
    OfKindConcat(first, items, isSystem);
    OfKindConcat(first, items, !isSystem);
    MadeOfKind(items, wanted, isSystem);
  }

  lemma StaticIsWritten(
    s: Store, n: Store, schema: Schema, datas: Datas, itemsOf: map<MinionId, seq<Item>>, isSystem: bool, replace: bool)
    requires schema.isStatic && n.records == s.records && n.statics.Keys == s.statics.Keys
    requires itemsOf.Keys == datas.Keys * s.statics.Keys
    requires forall m :: m in itemsOf ==>
      AreMade(itemsOf[m], datas[m], isSystem) && IsStaticAfter(s, n, schema.category, m, itemsOf[m], isSystem, replace)
    requires forall m, c :: m !in itemsOf || c != schema.category ==> StaticItems(n, m, c) == StaticItems(s, m, c)
    ensures IsWritten(s, n, schema, datas, isSystem, replace, map[])
  {
    forall m, p
      ensures IsPlaceWritten(s, n, schema, datas, isSystem, replace, map[], m, p)
    {
      if m in itemsOf && p == InMinion(schema.category) {
        StaticHeld(s, n, schema.category, m, itemsOf[m], datas[m], isSystem, replace);
        WantedStatic(schema, datas[m]);
      } else {
        assert forall kind :: Held(n, m, p, kind) == Held(s, m, p, kind);
        UntouchedPlace(s, n, schema, datas, isSystem, replace, map[], m, p);
      }
    }
  }

  /** A place outside the category's is written by leaving it alone. */
  lemma UntouchedPlace(
    s: Store, n: Store, schema: Schema, datas: Datas, isSystem: bool, replace: bool, homes: Homes, m: MinionId,
    p: Place)
    requires forall kind :: Held(n, m, p, kind) == Held(s, m, p, kind)
    requires m in datas && m in s.statics ==> !IsCleared(schema, p)
    ensures IsPlaceWritten(s, n, schema, datas, isSystem, replace, homes, m, p)
  {
    if m in datas && m in s.statics {
      WantedElsewhere(schema, datas[m], p, homes);
      AddingNothing(Held(s, m, p, isSystem), isSystem);
    }
  }

  lemma AddingNothing(held: multiset<Item>, isSystem: bool)
    ensures AddsItems(held, held, [], isSystem)
  {
    assert AreMade([], [], isSystem) && held == held + multiset([]);
  }

  lemma StaticStored(
    s: Store, n: Store, schema: Schema, itemsOf: map<MinionId, seq<Item>>, isSystem: bool, replace: bool)
    requires itemsOf.Keys <= s.statics.Keys
    requires n.statics ==
      if replace then StaticsReplaced(s.statics, schema.category, itemsOf, isSystem)
      else if exists m :: m in itemsOf && itemsOf[m] != [] then StaticsPushed(s.statics, schema.category, itemsOf)
      else s.statics
    ensures n.statics.Keys == s.statics.Keys
    ensures forall m :: m in itemsOf ==> IsStaticAfter(s, n, schema.category, m, itemsOf[m], isSystem, replace)
    ensures forall m, c :: m !in itemsOf || c != schema.category ==> StaticItems(n, m, c) == StaticItems(s, m, c)
  {
  }

  // ---------- the whole write ----------

  /** The records after the old entries are pulled, if they are to be replaced. */
  ghost predicate IsMadeRoom(
    before: Records, pulled: Records, c: Category, minions: set<MinionId>, isSystem: bool, replace: bool)
  {
    if replace then IsPulled(before, pulled, {c}, minions, {isSystem}) else pulled == before
  }

  lemma HeldInRecord(s: Store, m: MinionId, key: RecordKey, kind: bool)
    ensures Held(s, m, InRecord(key), kind) == OwnedIn(s.records, key, m, kind)
  {
  }

  lemma RoomMade(
    before: Records, pulled: Records, c: Category, minions: set<MinionId>, isSystem: bool, replace: bool,
    key: RecordKey, m: MinionId, kind: bool)
    requires IsMadeRoom(before, pulled, c, minions, isSystem, replace)
    ensures OwnedIn(pulled, key, m, kind) ==
      if replace && key.category == c && m in minions && kind == isSystem then multiset{}
      else OwnedIn(before, key, m, kind)
  {
  }

  lemma EntriesAreWritten(
    s: Store, pulled: Records, n: Store, schema: Schema, datas: Datas, minions: set<MinionId>,
    groups: Groups, made: Made, homes: Homes, text: Data -> string, isSystem: bool, replace: bool)
    requires !schema.isStatic && n.statics == s.statics && minions == datas.Keys * s.statics.Keys
    requires IsMadeRoom(s.records, pulled, schema.category, minions, isSystem, replace)
    requires ArePushed(pulled, n.records, schema.category, groups)
    requires made.Keys == minions && GroupsHold(groups, schema.category, made, isSystem)
    requires forall m :: m in minions ==> ArePlaced(made[m], groups, schema, datas[m], text, isSystem)
    requires forall part :: part in SharedParts(schema, datas, minions) ==> text(part) in groups
    requires homes == HomesIn(groups, SharedParts(schema, datas, minions), text)
    ensures IsWritten(s, n, schema, datas, isSystem, replace, homes)
  {
    forall m, p: Place
      ensures IsPlaceWritten(s, n, schema, datas, isSystem, replace, homes, m, p)
    {
      if p.InRecord? && p.key.category == schema.category {
        RecordHeld(s, pulled, n, schema.category, minions, groups, made, isSystem, replace, m, p.key, isSystem);
        RecordHeld(s, pulled, n, schema.category, minions, groups, made, isSystem, replace, m, p.key, !isSystem);
        if m in minions {
          PartsHaveHomes(schema, datas, minions, groups, homes, text, m);
          PlacedAreWanted(schema, datas[m], made[m], groups, homes, text, p.key, isSystem);
        }
      } else {
        ElsewhereHeld(s, pulled, n, schema.category, minions, groups, isSystem, replace, m, p);
        UntouchedPlace(s, n, schema, datas, isSystem, replace, homes, m, p);
      }
    }
  }

  lemma WrittenByGroups(
    s: Store, pulled: Records, n: Store, schema: Schema, datas: Datas, minions: set<MinionId>,
    groups: Groups, made: Made, text: Data -> string, isSystem: bool, replace: bool)
    returns (homes: Homes)
    requires !schema.isStatic && n.statics == s.statics && minions == datas.Keys * s.statics.Keys
    requires IsMadeRoom(s.records, pulled, schema.category, minions, isSystem, replace)
    requires ArePushed(pulled, n.records, schema.category, groups)
    requires made.Keys == minions && GroupsHold(groups, schema.category, made, isSystem)
    requires forall m :: m in minions ==> ArePlaced(made[m], groups, schema, datas[m], text, isSystem)
    requires AreGroups(groups, SharedParts(schema, datas, minions), text)
    ensures IsWritten(s, n, schema, datas, isSystem, replace, homes)
    ensures AreHomes(homes, SharedParts(schema, datas, minions), text)
  {
    homes := GroupsAreHomes(groups, made, schema, datas, minions, text, isSystem);
    EntriesAreWritten(s, pulled, n, schema, datas, minions, groups, made, homes, text, isSystem, replace);
  }

  lemma PartsHaveHomes(
    schema: Schema, datas: Datas, minions: set<MinionId>, groups: Groups, homes: Homes, text: Data -> string,
    m: MinionId)
    requires minions <= datas.Keys && m in minions
    requires forall part :: part in SharedParts(schema, datas, minions) ==> text(part) in groups
    requires homes == HomesIn(groups, SharedParts(schema, datas, minions), text)
    ensures forall data :: data in datas[m] ==>
      var part := CategoryPart(schema, data);
      part in homes && text(part) in groups && homes[part] == groups[text(part)].shared
  {
    forall data | data in datas[m]
      ensures CategoryPart(schema, data) in SharedParts(schema, datas, minions)
    {
    }
  }

  lemma ElsewhereHeld(
    s: Store, pulled: Records, n: Store, c: Category, minions: set<MinionId>, groups: Groups,
    isSystem: bool, replace: bool, m: MinionId, p: Place)
    requires n.statics == s.statics && (p.InRecord? ==> p.key.category != c)
    requires IsMadeRoom(s.records, pulled, c, minions, isSystem, replace)
    requires ArePushed(pulled, n.records, c, groups)
    ensures forall kind :: Held(n, m, p, kind) == Held(s, m, p, kind)
  {
    forall kind
      ensures Held(n, m, p, kind) == Held(s, m, p, kind)
    {
      if p.InRecord? {
        SumOfNothing(GroupHeld(groups, c, p.key, m, kind));
        HeldInRecord(n, m, p.key, kind);
        HeldInRecord(s, m, p.key, kind);
        RoomMade(s.records, pulled, c, minions, isSystem, replace, p.key, m, kind);
      } else {
        assert StaticItems(n, m, p.category) == StaticItems(s, m, p.category);
      }
    }
  }

  lemma RecordHeld(
    s: Store, pulled: Records, n: Store, c: Category, minions: set<MinionId>,
    groups: Groups, made: Made, isSystem: bool, replace: bool, m: MinionId, key: RecordKey, kind: bool)
    requires key.category == c
    requires IsMadeRoom(s.records, pulled, c, minions, isSystem, replace)
    requires ArePushed(pulled, n.records, c, groups)
    requires made.Keys == minions && GroupsHold(groups, c, made, isSystem)
    ensures Held(n, m, InRecord(key), kind) ==
      if m in minions && kind == isSystem then
        (if replace then multiset{} else Held(s, m, InRecord(key), kind)) + multiset(ItemsAt(made[m], key))
      else Held(s, m, InRecord(key), kind)
  {
    HeldInRecord(n, m, key, kind);
    HeldInRecord(s, m, key, kind);
    RoomMade(s.records, pulled, c, minions, isSystem, replace, key, m, kind);
    assert GroupsHoldAt(groups, c, made, isSystem, key, m, kind);
  }
}
