/** What adding, replacing and importing items does (saltbox_core/minion_collections/services/extra_data.py). */
module ExtraDataWrites {
  import opened Wrappers
  import opened ExtraData
  import opened ExtraDataCategory

  type Datas = map<MinionId, seq<Data>>

  /**
   The shared parts of one write are told apart by their JSON text only: the parts with one text are all stored as one
   of them, their home.
   */
  type Homes = map<Data, Data>

  function Home(homes: Homes, part: Data): Data {
    if part in homes then homes[part] else part
  }

  function SharedParts(schema: Schema, datas: Datas, minions: set<MinionId>): set<Data>
    requires minions <= datas.Keys
  {
    set m, data | m in minions && data in datas[m] :: CategoryPart(schema, data)
  }

  predicate AreHomes(homes: Homes, parts: set<Data>, text: Data -> string) {
    && homes.Keys == parts
    && (forall part :: part in parts ==> homes[part] in parts && text(homes[part]) == text(part))
    && forall part, other :: part in parts && other in parts && text(part) == text(other) ==>
         homes[part] == homes[other]
  }

  /** Where an item with that data is kept. */
  function PlaceOf(schema: Schema, data: Data, homes: Homes): Place {
    if schema.isStatic then InMinion(schema.category)
    else InRecord(KeyOf(schema.category, Home(homes, CategoryPart(schema, data))))
  }

  /** What the item itself keeps of the data. */
  function OwnPart(schema: Schema, data: Data): Data {
    if schema.isStatic then data else MinionPart(schema, data)
  }

  /** The items to be made in a place, for the data given for one minion. */
  function Wanted(schema: Schema, datas: seq<Data>, p: Place, homes: Homes): seq<Data> {
    if datas == [] then []
    else
      var n := |datas| - 1;
      Wanted(schema, datas[..n], p, homes)
      + if PlaceOf(schema, datas[n], homes) == p then [OwnPart(schema, datas[n])] else []
  }

  /** A replacing write clears the places of the category. */
  predicate IsCleared(schema: Schema, p: Place) {
    p.CategoryOf() == schema.category && p.InMinion? == schema.isStatic
  }

  predicate AreMade(items: seq<Item>, wanted: seq<Data>, isSystem: bool) {
    && |items| == |wanted|
    && forall i :: 0 <= i < |items| ==> items[i].data == wanted[i] && items[i].isSystem == isSystem
  }

  /** New items for exactly the wanted data come to what was held before. */
  ghost predicate AddsItems(before: multiset<Item>, after: multiset<Item>, wanted: seq<Data>, isSystem: bool) {
    exists items: seq<Item> :: AreMade(items, wanted, isSystem) && after == before + multiset(items)
  }

  ghost predicate IsPlaceWritten(
    s: Store, n: Store, schema: Schema, datas: Datas, isSystem: bool, replace: bool, homes: Homes, m: MinionId,
    p: Place)
  {
    if m in datas && m in s.statics then
      && Held(n, m, p, !isSystem) == Held(s, m, p, !isSystem)
      && AddsItems(
           if replace && IsCleared(schema, p) then multiset{} else Held(s, m, p, isSystem),
           Held(n, m, p, isSystem), Wanted(schema, datas[m], p, homes), isSystem)
    else
      forall kind :: Held(n, m, p, kind) == Held(s, m, p, kind)
  }

  /** A write: what every minion holds afterwards, of either kind and in every place. */
  ghost predicate IsWritten(
    s: Store, n: Store, schema: Schema, datas: Datas, isSystem: bool, replace: bool, homes: Homes)
  {
    && n.statics.Keys == s.statics.Keys
    && forall m, p :: IsPlaceWritten(s, n, schema, datas, isSystem, replace, homes, m, p)
  }

  // ---------- single-item categories ----------

  /** A single-item category has at most one item for each minion and kind, kept where its type says. */
  ghost predicate SingleItemHolds(s: Store, schema: Schema) {
    schema.isSingleItem ==> forall m, kind :: HoldsAtMostOne(s, m, schema.category, kind)
  }

  ghost predicate IsWellPlaced(s: Store, schema: Schema) {
    forall m, p: Place, kind :: p.CategoryOf() == schema.category && p.InMinion? != schema.isStatic ==>
      Held(s, m, p, kind) == multiset{}
  }

  /** The services write to a single-item category only in this way. */
  predicate IsAllowed(schema: Schema, datas: Datas, replace: bool) {
    schema.isSingleItem ==> replace && forall m :: m in datas ==> |datas[m]| <= 1
  }

  lemma {:induction false} WantedElsewhere(schema: Schema, datas: seq<Data>, p: Place, homes: Homes)
    requires p.CategoryOf() != schema.category || p.InMinion? != schema.isStatic
    ensures Wanted(schema, datas, p, homes) == []
  {
    if datas != [] {
      WantedElsewhere(schema, datas[..|datas| - 1], p, homes);
    }
  }

  lemma WantedOfOne(schema: Schema, datas: seq<Data>, p: Place, homes: Homes)
    requires |datas| <= 1
    ensures |Wanted(schema, datas, p, homes)| <= 1
    ensures Wanted(schema, datas, p, homes) != [] ==> datas != [] && p == PlaceOf(schema, datas[0], homes)
  {
  }

  lemma AddsNothing(before: multiset<Item>, after: multiset<Item>, isSystem: bool)
    requires AddsItems(before, after, [], isSystem)
    ensures after == before
  {
    var items: seq<Item> :| AreMade(items, [], isSystem) && after == before + multiset(items);
    assert items == [];
  }

  lemma AddsAtMostOne(after: multiset<Item>, wanted: seq<Data>, isSystem: bool)
    requires AddsItems(multiset{}, after, wanted, isSystem)
    ensures |after| == |wanted|
  {
    var items: seq<Item> :| AreMade(items, wanted, isSystem) && after == multiset{} + multiset(items);
    assert |multiset(items)| == |items|;
  }

  /** Other categories, other minions and items of the other kind are left alone by any write. */
  lemma WriteLeavesTheRest(
    s: Store, n: Store, schema: Schema, datas: Datas, isSystem: bool, replace: bool, homes: Homes,
    m: MinionId, p: Place, kind: bool)
    requires IsWritten(s, n, schema, datas, isSystem, replace, homes)
    requires m !in datas || m !in s.statics || kind != isSystem
      || p.CategoryOf() != schema.category || p.InMinion? != schema.isStatic
    ensures Held(n, m, p, kind) == Held(s, m, p, kind)
  {
    assert IsPlaceWritten(s, n, schema, datas, isSystem, replace, homes, m, p);
    if m in datas && m in s.statics && kind == isSystem {
      WantedElsewhere(schema, datas[m], p, homes);
      AddsNothing(Held(s, m, p, kind), Held(n, m, p, kind), isSystem);
    }
  }

  lemma WriteKeepsPlaces(
    s: Store, n: Store, schema: Schema, datas: Datas, isSystem: bool, replace: bool, homes: Homes, other: Schema)
    requires IsWritten(s, n, schema, datas, isSystem, replace, homes)
    requires other.category == schema.category ==> other == schema
    requires IsWellPlaced(s, other)
    ensures IsWellPlaced(n, other)
  {
    forall m, p: Place, kind | p.CategoryOf() == other.category && p.InMinion? != other.isStatic
      ensures Held(n, m, p, kind) == multiset{}
    {
      WriteLeavesTheRest(s, n, schema, datas, isSystem, replace, homes, m, p, kind);
    }
  }

  lemma WriteKeepsSingle(
    s: Store, n: Store, schema: Schema, datas: Datas, isSystem: bool, replace: bool, homes: Homes, other: Schema)
    requires IsWritten(s, n, schema, datas, isSystem, replace, homes) && IsAllowed(schema, datas, replace)
    requires other.category == schema.category ==> other == schema
    requires IsWellPlaced(s, other) && SingleItemHolds(s, other)
    ensures SingleItemHolds(n, other)
  {
    if other.isSingleItem {
      WriteKeepsPlaces(s, n, schema, datas, isSystem, replace, homes, other);
      forall m, kind
        ensures HoldsAtMostOne(n, m, other.category, kind)
      {
        if other == schema && m in datas && m in s.statics && kind == isSystem {
          ReplacedHoldsOne(s, n, schema, datas, isSystem, homes, m);
        } else {
          assert HoldsAtMostOne(s, m, other.category, kind);
          forall p: Place | p.CategoryOf() == other.category
            ensures Held(n, m, p, kind) == Held(s, m, p, kind)
          {
            WriteLeavesTheRest(s, n, schema, datas, isSystem, replace, homes, m, p, kind);
          }
        }
      }
    }
  }

  lemma ReplacedHoldsOne(
    s: Store, n: Store, schema: Schema, datas: Datas, isSystem: bool, homes: Homes, m: MinionId)
    requires IsWritten(s, n, schema, datas, isSystem, true, homes) && IsWellPlaced(n, schema)
    requires m in datas && m in s.statics && |datas[m]| <= 1
    ensures HoldsAtMostOne(n, m, schema.category, isSystem)
  {
    forall p: Place | p.CategoryOf() == schema.category
      ensures |Held(n, m, p, isSystem)| <= 1
      ensures Held(n, m, p, isSystem) != multiset{} ==> datas[m] != [] && p == PlaceOf(schema, datas[m][0], homes)
    {
      assert IsPlaceWritten(s, n, schema, datas, isSystem, true, homes, m, p);
      if IsCleared(schema, p) {
        WantedOfOne(schema, datas[m], p, homes);
        AddsAtMostOne(Held(n, m, p, isSystem), Wanted(schema, datas[m], p, homes), isSystem);
      }
    }
  }

  // ---------- reading back ----------

  lemma {:induction false} WantedMembers(schema: Schema, datas: seq<Data>, p: Place, homes: Homes)
    ensures forall own :: own in Wanted(schema, datas, p, homes) <==>
      exists data :: data in datas && PlaceOf(schema, data, homes) == p && OwnPart(schema, data) == own
  {
    if datas != [] {
      var n := |datas| - 1;
      WantedMembers(schema, datas[..n], p, homes);
      assert datas == datas[..n] + [datas[n]];
      forall own
        ensures own in Wanted(schema, datas, p, homes) <==>
          exists data :: data in datas && PlaceOf(schema, data, homes) == p && OwnPart(schema, data) == own
      {
        if own in Wanted(schema, datas[..n], p, homes) {
          var data :| data in datas[..n] && PlaceOf(schema, data, homes) == p && OwnPart(schema, data) == own;
          assert data in datas;
        }
      }
    }
  }

  /** What a reader makes of an item in a place. */
  function ReadIn(s: Store, p: Place, item: Item): Data {
    if p.InRecord? && p.key in s.records then ReadBack(s.records[p.key].shared, item.data) else item.data
  }

  /** A reader of the category finds that data, up to the writing of numbers, among the minion's items of the kind. */
  ghost predicate CanBeRead(s: Store, m: MinionId, c: Category, isSystem: bool, read: Data) {
    exists p: Place, item ::
      p.CategoryOf() == c && item in Held(s, m, p, isSystem) && Normal(ReadIn(s, p, item)) == Normal(read)
  }

  /** What comes back of data that was written. */
  function ReadOf(schema: Schema, data: Data, homes: Homes): Data {
    if schema.isStatic then data else ReadBack(Home(homes, CategoryPart(schema, data)), MinionPart(schema, data))
  }

  /** After a replacing write a reader gets exactly what comes back of the data, for that minion and kind. */
  lemma ReplaceReadsBack(
    s: Store, n: Store, schema: Schema, datas: Datas, isSystem: bool, homes: Homes, m: MinionId, read: Data)
    requires IsWritten(s, n, schema, datas, isSystem, true, homes) && IsIndexed(n.records)
    requires m in datas && m in s.statics && IsWellPlaced(n, schema)
    ensures CanBeRead(n, m, schema.category, isSystem, read) <==>
      exists data :: data in datas[m] && Normal(ReadOf(schema, data, homes)) == Normal(read)
  {
    if data :| data in datas[m] && Normal(ReadOf(schema, data, homes)) == Normal(read) {
      var p := PlaceOf(schema, data, homes);
      ClearedIsWanted(s, n, schema, datas, isSystem, homes, m, p);
      WrittenIsRead(n, schema, datas[m], isSystem, homes, m, data, p, multiset{});
    }
    if CanBeRead(n, m, schema.category, isSystem, read) {
      var p: Place, item :|
        p.CategoryOf() == schema.category && item in Held(n, m, p, isSystem)
        && Normal(ReadIn(n, p, item)) == Normal(read);
      assert IsCleared(schema, p);
      ClearedIsWanted(s, n, schema, datas, isSystem, homes, m, p);
      ReadWasWritten(n, schema, datas[m], isSystem, homes, m, p, item, multiset{});
    }
  }

  /** The place keeps what was there, and gets what is wanted there. */
  lemma AddedIsWanted(
    s: Store, n: Store, schema: Schema, datas: Datas, isSystem: bool, homes: Homes, m: MinionId, p: Place)
    requires IsWritten(s, n, schema, datas, isSystem, false, homes) && m in datas && m in s.statics
    ensures
      AddsItems(Held(s, m, p, isSystem), Held(n, m, p, isSystem), Wanted(schema, datas[m], p, homes), isSystem)
    ensures Held(s, m, p, isSystem) <= Held(n, m, p, isSystem)
    ensures !IsCleared(schema, p) ==> Held(s, m, p, isSystem) == Held(n, m, p, isSystem)
  {
    assert IsPlaceWritten(s, n, schema, datas, isSystem, false, homes, m, p);
    if !IsCleared(schema, p) {
      WantedElsewhere(schema, datas[m], p, homes);
      AddsNothing(Held(s, m, p, isSystem), Held(n, m, p, isSystem), isSystem);
    }
  }

  lemma ReadsAsBefore(s: Store, n: Store, m: MinionId, p: Place, isSystem: bool, item: Item)
    requires IsIndexed(s.records) && IsIndexed(n.records)
    requires item in Held(s, m, p, isSystem) && item in Held(n, m, p, isSystem)
    ensures Normal(ReadIn(n, p, item)) == Normal(ReadIn(s, p, item))
  {
    if p.InRecord? {
      NormalReadBack(s.records[p.key].shared, n.records[p.key].shared, item.data);
    }
  }

  lemma StillThere(
    s: Store, n: Store, schema: Schema, datas: Datas, isSystem: bool, homes: Homes, m: MinionId, read: Data)
    requires IsWritten(s, n, schema, datas, isSystem, false, homes) && IsIndexed(s.records) && IsIndexed(n.records)
    requires m in datas && m in s.statics && CanBeRead(s, m, schema.category, isSystem, read)
    ensures CanBeRead(n, m, schema.category, isSystem, read)
  {
    var p: Place, item :|
      p.CategoryOf() == schema.category && item in Held(s, m, p, isSystem)
      && Normal(ReadIn(s, p, item)) == Normal(read);
    AddedIsWanted(s, n, schema, datas, isSystem, homes, m, p);
    assert item in Held(n, m, p, isSystem);
    ReadsAsBefore(s, n, m, p, isSystem, item);
  }

  /** After an adding write a reader gets what could be read before and what comes back of the data, and no more. */
  lemma AddReadsBack(
    s: Store, n: Store, schema: Schema, datas: Datas, isSystem: bool, homes: Homes, m: MinionId, read: Data)
    requires IsWritten(s, n, schema, datas, isSystem, false, homes) && IsIndexed(s.records) && IsIndexed(n.records)
    requires m in datas && m in s.statics
    ensures CanBeRead(n, m, schema.category, isSystem, read) <==>
      || CanBeRead(s, m, schema.category, isSystem, read)
      || exists data :: data in datas[m] && Normal(ReadOf(schema, data, homes)) == Normal(read)
  {
    if data :| data in datas[m] && Normal(ReadOf(schema, data, homes)) == Normal(read) {
      var p := PlaceOf(schema, data, homes);
      AddedIsWanted(s, n, schema, datas, isSystem, homes, m, p);
      WrittenIsRead(n, schema, datas[m], isSystem, homes, m, data, p, Held(s, m, p, isSystem));
    } else if CanBeRead(s, m, schema.category, isSystem, read) {
      StillThere(s, n, schema, datas, isSystem, homes, m, read);
    } else if CanBeRead(n, m, schema.category, isSystem, read) {
      var p: Place, item :|
        p.CategoryOf() == schema.category && item in Held(n, m, p, isSystem)
        && Normal(ReadIn(n, p, item)) == Normal(read);
      AddedIsWanted(s, n, schema, datas, isSystem, homes, m, p);
      if item in Held(s, m, p, isSystem) {
        ReadsAsBefore(s, n, m, p, isSystem, item);
      } else {
        ReadWasWritten(n, schema, datas[m], isSystem, homes, m, p, item, Held(s, m, p, isSystem));
      }
    }
  }

  lemma ClearedIsWanted(
    s: Store, n: Store, schema: Schema, datas: Datas, isSystem: bool, homes: Homes, m: MinionId, p: Place)
    requires IsWritten(s, n, schema, datas, isSystem, true, homes) && m in datas && m in s.statics
    requires IsCleared(schema, p)
    ensures AddsItems(multiset{}, Held(n, m, p, isSystem), Wanted(schema, datas[m], p, homes), isSystem)
  {
    assert IsPlaceWritten(s, n, schema, datas, isSystem, true, homes, m, p);
  }

  lemma ReadsAlike(n: Store, schema: Schema, data: Data, homes: Homes, item: Item)
    requires item.data == OwnPart(schema, data) && IsIndexed(n.records)
    requires !schema.isStatic ==> PlaceOf(schema, data, homes).key in n.records
    ensures Normal(ReadIn(n, PlaceOf(schema, data, homes), item)) == Normal(ReadOf(schema, data, homes))
  {
    if !schema.isStatic {
      var home := Home(homes, CategoryPart(schema, data));
      NormalReadBack(home, n.records[KeyOf(schema.category, home)].shared, item.data);
    }
  }

  lemma NormalReadBack(shared: Data, other: Data, own: Data)
    requires Normal(shared) == Normal(other)
    ensures Normal(ReadBack(shared, own)) == Normal(ReadBack(other, own))
  {
    assert shared.Keys == Normal(shared).Keys == Normal(other).Keys == other.Keys;
    forall field | field in ReadBack(shared, own)
      ensures NormalValue(ReadBack(shared, own)[field]) == NormalValue(ReadBack(other, own)[field])
    {
      if field !in own {
        assert Normal(shared)[field] == Normal(other)[field];
      }
    }
  }

  lemma WrittenIsRead(
    n: Store, schema: Schema, datas: seq<Data>, isSystem: bool, homes: Homes, m: MinionId, data: Data, p: Place,
    before: multiset<Item>)
    requires data in datas && p == PlaceOf(schema, data, homes) && IsIndexed(n.records)
    requires AddsItems(before, Held(n, m, p, isSystem), Wanted(schema, datas, p, homes), isSystem)
    ensures CanBeRead(n, m, schema.category, isSystem, ReadOf(schema, data, homes))
  {
    WantedMembers(schema, datas, p, homes);
    assert OwnPart(schema, data) in Wanted(schema, datas, p, homes);
    var own, wanted := OwnPart(schema, data), Wanted(schema, datas, p, homes);
    var item := MadeItem(before, Held(n, m, p, isSystem), wanted, isSystem, own);
    ReadsAlike(n, schema, data, homes, item);
    assert p.CategoryOf() == schema.category;
  }

  lemma ReadWasWritten(
    n: Store, schema: Schema, datas: seq<Data>, isSystem: bool, homes: Homes, m: MinionId, p: Place, item: Item,
    before: multiset<Item>)
    requires IsCleared(schema, p) && item in Held(n, m, p, isSystem) && item !in before && IsIndexed(n.records)
    requires AddsItems(before, Held(n, m, p, isSystem), Wanted(schema, datas, p, homes), isSystem)
    ensures exists data :: data in datas && Normal(ReadOf(schema, data, homes)) == Normal(ReadIn(n, p, item))
  {
    WantedMembers(schema, datas, p, homes);
    MadeFromWanted(before, Held(n, m, p, isSystem), Wanted(schema, datas, p, homes), isSystem, item);
    var data :| data in datas && PlaceOf(schema, data, homes) == p && OwnPart(schema, data) == item.data;
    ReadsAlike(n, schema, data, homes, item);
  }

  predicate IsReadBack(schema: Schema, data: Data) {
    ReadBack(CategoryPart(schema, data), MinionPart(schema, data)) == data
  }

  /** The texts of the shared parts tell apart what the database tells apart. */
  predicate TellsApart(text: Data -> string, parts: set<Data>) {
    forall part, other :: part in parts && other in parts && text(part) == text(other) ==> Normal(part) == Normal(other)
  }

  /** The home of a shared part has no field of the items themselves, so only the part itself brings the data back. */
  lemma ComesBackAtHome(schema: Schema, data: Data, other: Data, homes: Homes)
    requires !schema.isStatic && IsReadBack(schema, data)
    requires Home(homes, CategoryPart(schema, data)) == CategoryPart(schema, other)
    ensures Normal(ReadOf(schema, data, homes)) == Normal(data) <==>
      Normal(Home(homes, CategoryPart(schema, data))) == Normal(CategoryPart(schema, data))
  {
    var part, own := CategoryPart(schema, data), MinionPart(schema, data);
    var home := Home(homes, part);
    if Normal(home) == Normal(part) {
      NormalReadBack(home, part, own);
    }
    if Normal(ReadBack(home, own)) == Normal(data) {
      assert forall key :: GoesToCategory(schema, key) ==> !GoesToMinion(schema, key);
      assert forall key :: key in home ==> key !in own && key in Normal(ReadBack(home, own)) && key in Normal(data);
      assert forall key :: key in part ==> key in Normal(data) && key in Normal(ReadBack(home, own));
      assert home.Keys == part.Keys;
      forall key | key in part
        ensures Normal(home)[key] == Normal(part)[key]
      {
        assert Normal(ReadBack(home, own))[key] == Normal(data)[key];
      }
      assert Normal(home) == Normal(part);
    }
  }

  /** All the data written to an aggregated category comes back exactly when the texts tell the shared parts apart. */
  lemma AllComesBack(schema: Schema, datas: Datas, minions: set<MinionId>, homes: Homes, text: Data -> string)
    requires !schema.isStatic && minions <= datas.Keys && AreHomes(homes, SharedParts(schema, datas, minions), text)
    requires forall m, data :: m in minions && data in datas[m] ==> IsReadBack(schema, data)
    ensures TellsApart(text, SharedParts(schema, datas, minions)) <==>
      forall m, data :: m in minions && data in datas[m] ==> Normal(ReadOf(schema, data, homes)) == Normal(data)
  {
    var parts := SharedParts(schema, datas, minions);
    forall m, data | m in minions && data in datas[m]
      ensures Normal(ReadOf(schema, data, homes)) == Normal(data) <==>
        Normal(homes[CategoryPart(schema, data)]) == Normal(CategoryPart(schema, data))
    {
      var part := CategoryPart(schema, data);
      assert part in parts && homes[part] in parts;
      var k, other :| k in minions && other in datas[k] && CategoryPart(schema, other) == homes[part];
      ComesBackAtHome(schema, data, other, homes);
    }
    if forall part :: part in parts ==> Normal(homes[part]) == Normal(part) {
      assert TellsApart(text, parts);
    }
  }

  const NOTES := Schema(Category("import", "notes"), false, false, [], SaveToCategory)

  lemma NotesAreShared(data: Data, homes: Homes)
    ensures IsReadBack(NOTES, data) && ReadOf(NOTES, data, homes) == Home(homes, data)
  {
    assert CategoryPart(NOTES, data) == data && MinionPart(NOTES, data) == map[];
  }

  /** A date, and the text that `str` makes of it, have one JSON text: one of the two does not come back. */
  lemma DateMixesWithText(date: Data, words: Data, shown: string, homes: Homes, text: Data -> string)
    requires date == map["at" := Date(0)] && words == map["at" := Text(shown)] && text(date) == text(words)
    requires AreHomes(homes, {date, words}, text)
    ensures IsReadBack(NOTES, date) && IsReadBack(NOTES, words)
    ensures Normal(ReadOf(NOTES, date, homes)) != Normal(date) || Normal(ReadOf(NOTES, words, homes)) != Normal(words)
  {
    NotesAreShared(date, homes);
    NotesAreShared(words, homes);
    assert Normal(date)["at"] != Normal(words)["at"];
  }

  lemma MadeItem(before: multiset<Item>, after: multiset<Item>, wanted: seq<Data>, isSystem: bool, own: Data)
    returns (item: Item)
    requires AddsItems(before, after, wanted, isSystem) && own in wanted
    ensures item in after && item.data == own
  {
    var items: seq<Item> :| AreMade(items, wanted, isSystem) && after == before + multiset(items);
    var i :| 0 <= i < |wanted| && wanted[i] == own;
    item := items[i];
    assert item in items;
  }

  lemma MadeFromWanted(
    before: multiset<Item>, after: multiset<Item>, wanted: seq<Data>, isSystem: bool, item: Item)
    requires AddsItems(before, after, wanted, isSystem) && item in after && item !in before
    ensures item.data in wanted
  {
    var items: seq<Item> :| AreMade(items, wanted, isSystem) && after == before + multiset(items);
    assert item in items;
  }

  // ---------- runs ----------

  datatype Write = Write(schema: Schema, datas: Datas, isSystem: bool, replace: bool, homes: Homes)

  ghost predicate IsWriteDone(s: Store, n: Store, w: Write) {
    IsWritten(s, n, w.schema, w.datas, w.isSystem, w.replace, w.homes)
  }

  /** The states a run of writes goes through. */
  ghost predicate IsRun(states: seq<Store>, writes: seq<Write>) {
    && |states| == |writes| + 1
    && forall i :: 0 <= i < |writes| ==>
         && IsWriteDone(states[i], states[i + 1], writes[i])
         && IsAllowed(writes[i].schema, writes[i].datas, writes[i].replace)
  }

  /** Over every run of adding, replacing and importing, single-item categories stay single. */
  lemma {:induction false} RunKeepsSingle(states: seq<Store>, writes: seq<Write>, schema: Schema)
    requires IsRun(states, writes)
    requires forall i :: 0 <= i < |writes| && writes[i].schema.category == schema.category ==>
      writes[i].schema == schema
    requires IsWellPlaced(states[0], schema) && SingleItemHolds(states[0], schema)
    ensures IsWellPlaced(states[|writes|], schema) && SingleItemHolds(states[|writes|], schema)
  {
    if writes != [] {
      var i := |writes| - 1;
      var w := writes[i];
      assert states[..|states| - 1][0] == states[0];
      RunKeepsSingle(states[..|states| - 1], writes[..i], schema);
      WriteKeepsPlaces(states[i], states[i + 1], w.schema, w.datas, w.isSystem, w.replace, w.homes, schema);
      WriteKeepsSingle(states[i], states[i + 1], w.schema, w.datas, w.isSystem, w.replace, w.homes, schema);
    }
  }
}
