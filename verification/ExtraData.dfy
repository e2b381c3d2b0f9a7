/**
 The extra data of minions: items inside the minion documents for static categories, and shared records with one
 entry per item for aggregated ones
 (saltbox_core/minion_collections/repositories/minion.py,
 saltbox_core/minion_collections/repositories/extra_data.py).
 */
module ExtraData {

  type MinionId = nat
  type ItemId = nat

  datatype Value =
    | Null
    | Text(text: string)
    | Int(number: int)
    | Float(amount: real)
    | Flag(flag: bool)
    | Date(at: int)
    | Bytes(bytes: string)
    | List(items: string)
    | Dict(fields: string)

  type Data = map<string, Value>

  datatype Category = Category(source: string, name: string)

  datatype Item = Item(id: ItemId, isSystem: bool, data: Data)

  /** An item of a record, with its owner. */
  datatype Entry = Entry(minion: MinionId, item: Item)

  /** A record: the data that its entries share, and the entries. */
  datatype Record = Record(shared: Data, entries: seq<Entry>)

  /** The unique index knows a record by its category and its shared data, in which 4 and 4.0 are one number. */
  datatype RecordKey = RecordKey(category: Category, data: Data)

  type Records = map<RecordKey, Record>

  datatype Store = Store(statics: map<MinionId, map<Category, seq<Item>>>, records: Records)

  // ---------- numbers ----------

  function NormalValue(value: Value): Value {
    if value.Float? && value.amount == value.amount.Floor as real then Int(value.amount.Floor) else value
  }

  /** The data with its whole numbers written as integers. */
  function Normal(data: Data): Data {
    map field | field in data :: NormalValue(data[field])
  }

  lemma NormalTwice(data: Data)
    ensures Normal(Normal(data)) == Normal(data)
    ensures Normal(data) == map[] <==> data == map[]
  {
    if data != map[] {
      var field :| field in data;
      assert field in Normal(data);
    }
  }

  function KeyOf(category: Category, shared: Data): RecordKey {
    RecordKey(category, Normal(shared))
  }

  /** Every record stands under its own key. */
  predicate IsIndexed(records: Records) {
    forall key :: key in records ==> key == KeyOf(key.category, records[key].shared)
  }

  // ---------- who holds what ----------

  /** Where a minion can hold items. */
  datatype Place = InMinion(category: Category) | InRecord(key: RecordKey) {
    function CategoryOf(): Category {
      if InMinion? then category else key.category
    }
  }

  function StaticItems(s: Store, m: MinionId, c: Category): seq<Item> {
    if m in s.statics && c in s.statics[m] then s.statics[m][c] else []
  }

  function Entries(s: Store, key: RecordKey): seq<Entry> {
    if key in s.records then s.records[key].entries else []
  }

  function OfKind(items: seq<Item>, isSystem: bool): multiset<Item> {
    if items == [] then multiset{}
    else (if items[0].isSystem == isSystem then multiset{items[0]} else multiset{}) + OfKind(items[1..], isSystem)
  }

  function Owned(entries: seq<Entry>, m: MinionId, isSystem: bool): multiset<Item> {
    if entries == [] then multiset{}
    else
      (if entries[0].minion == m && entries[0].item.isSystem == isSystem then multiset{entries[0].item} else multiset{})
      + Owned(entries[1..], m, isSystem)
  }

  /** The system items, or the manual ones, that the minion holds in a place. */
  function Held(s: Store, m: MinionId, p: Place, isSystem: bool): multiset<Item> {
    match p
    case InMinion(c) => OfKind(StaticItems(s, m, c), isSystem)
    case InRecord(key) => Owned(Entries(s, key), m, isSystem)
  }

  ghost predicate HoldsAny(s: Store, m: MinionId, c: Category, isSystem: bool) {
    exists p: Place :: p.CategoryOf() == c && Held(s, m, p, isSystem) != multiset{}
  }

  /** The minion holds at most one such item, over all the places of the category. */
  ghost predicate HoldsAtMostOne(s: Store, m: MinionId, c: Category, isSystem: bool) {
    && (forall p: Place :: p.CategoryOf() == c ==> |Held(s, m, p, isSystem)| <= 1)
    && (forall p: Place, q: Place :: p.CategoryOf() == c && q.CategoryOf() == c && p != q ==>
          Held(s, m, p, isSystem) == multiset{} || Held(s, m, q, isSystem) == multiset{})
  }

  // ---------- filters ----------

  function KeepKind(items: seq<Item>, isSystem: bool): seq<Item> {
    if items == [] then []
    else (if items[0].isSystem == isSystem then [items[0]] else []) + KeepKind(items[1..], isSystem)
  }

  lemma {:induction false} KeptKind(items: seq<Item>, isSystem: bool)
    ensures OfKind(KeepKind(items, isSystem), isSystem) == OfKind(items, isSystem)
    ensures OfKind(KeepKind(items, isSystem), !isSystem) == multiset{}
  {
    if items != [] {
      var first, rest := (if items[0].isSystem == isSystem then [items[0]] else []), KeepKind(items[1..], isSystem);
      KeptKind(items[1..], isSystem);
      OfKindConcat(first, rest, isSystem);
      OfKindConcat(first, rest, !isSystem);
    }
  }

  lemma {:induction false} OfKindConcat(first: seq<Item>, second: seq<Item>, isSystem: bool)
    ensures OfKind(first + second, isSystem) == OfKind(first, isSystem) + OfKind(second, isSystem)
  {
    if first == [] {
      assert first + second == second;
    } else {
      assert (first + second)[1..] == first[1..] + second;
      OfKindConcat(first[1..], second, isSystem);
    }
  }

  lemma {:induction false} OwnedConcat(first: seq<Entry>, second: seq<Entry>, m: MinionId, isSystem: bool)
    ensures Owned(first + second, m, isSystem) == Owned(first, m, isSystem) + Owned(second, m, isSystem)
  {
    if first == [] {
      assert first + second == second;
    } else {
      assert (first + second)[1..] == first[1..] + second;
      OwnedConcat(first[1..], second, m, isSystem);
    }
  }

  /** `$pull` of the entries of some minions; `kinds` says which of their items go. */
  function Pulled(entries: seq<Entry>, minions: set<MinionId>, kinds: set<bool>): seq<Entry> {
    if entries == [] then []
    else
      (if entries[0].minion in minions && entries[0].item.isSystem in kinds then [] else [entries[0]])
      + Pulled(entries[1..], minions, kinds)
  }

  lemma {:induction false} OwnedAfterPull(
    entries: seq<Entry>, minions: set<MinionId>, kinds: set<bool>, m: MinionId, isSystem: bool)
    ensures Owned(Pulled(entries, minions, kinds), m, isSystem) ==
      if m in minions && isSystem in kinds then multiset{} else Owned(entries, m, isSystem)
  {
    if entries != [] {
      OwnedAfterPull(entries[1..], minions, kinds, m, isSystem);
      var first := if entries[0].minion in minions && entries[0].item.isSystem in kinds then [] else [entries[0]];
      OwnedConcat(first, Pulled(entries[1..], minions, kinds), m, isSystem);
    }
  }

  /** `$set` of the owner, in place. */
  function Moved(entries: seq<Entry>, source: MinionId, target: MinionId): seq<Entry> {
    seq(|entries|, i requires 0 <= i < |entries| =>
      if entries[i].minion == source then entries[i].(minion := target) else entries[i])
  }

  lemma {:induction false} OwnedAfterMove(
    entries: seq<Entry>, source: MinionId, target: MinionId, m: MinionId, isSystem: bool)
    requires source != target
    ensures Owned(Moved(entries, source, target), m, isSystem) ==
      if m == source then multiset{}
      else if m == target then Owned(entries, target, isSystem) + Owned(entries, source, isSystem)
      else Owned(entries, m, isSystem)
  {
    if entries != [] {
      var moved := Moved(entries, source, target);
      assert moved[1..] == Moved(entries[1..], source, target);
      assert moved[0].item == entries[0].item
        && moved[0].minion == if entries[0].minion == source then target else entries[0].minion;
      OwnedAfterMove(entries[1..], source, target, m, isSystem);
    }
  }

  // ---------- the writes on all records ----------

  function OwnedIn(records: Records, key: RecordKey, m: MinionId, isSystem: bool): multiset<Item> {
    if key in records then Owned(records[key].entries, m, isSystem) else multiset{}
  }

  /** The same records with the same shared data; only entries may differ. */
  ghost predicate SameShared(before: Records, after: Records) {
    after.Keys == before.Keys && forall key :: key in before ==> after[key].shared == before[key].shared
  }

  /** In the categories the minions own nothing of the kinds any more; all else is owned as before. */
  ghost predicate IsPulled(
    before: Records, after: Records, categories: set<Category>, minions: set<MinionId>, kinds: set<bool>)
  {
    && SameShared(before, after)
    && forall key, m, isSystem :: OwnedIn(after, key, m, isSystem) ==
         if key.category in categories && m in minions && isSystem in kinds then multiset{}
         else OwnedIn(before, key, m, isSystem)
  }

  /** The minions own nothing any more; all else is owned as before. */
  ghost predicate AreGone(before: Records, after: Records, minions: set<MinionId>) {
    && SameShared(before, after)
    && forall key, m, isSystem :: OwnedIn(after, key, m, isSystem) ==
         if m in minions then multiset{} else OwnedIn(before, key, m, isSystem)
  }

  /** Outside the excluded categories the target owns what both owned, and the source nothing. */
  ghost predicate IsMoved(
    before: Records, after: Records, source: MinionId, target: MinionId, excluded: set<Category>)
  {
    && SameShared(before, after)
    && forall key, m, isSystem :: OwnedIn(after, key, m, isSystem) ==
         if key.category in excluded || (m != source && m != target) then OwnedIn(before, key, m, isSystem)
         else if m == source then multiset{}
         else OwnedIn(before, key, target, isSystem) + OwnedIn(before, key, source, isSystem)
  }

  function PulledFrom(records: Records, categories: set<Category>, minions: set<MinionId>, kinds: set<bool>): Records {
    map key | key in records ::
      if key.category in categories then records[key].(entries := Pulled(records[key].entries, minions, kinds))
      else records[key]
  }

  lemma PulledAt(
    records: Records, categories: set<Category>, minions: set<MinionId>, kinds: set<bool>,
    key: RecordKey, m: MinionId, isSystem: bool)
    ensures OwnedIn(PulledFrom(records, categories, minions, kinds), key, m, isSystem) ==
      if key.category in categories && m in minions && isSystem in kinds then multiset{}
      else OwnedIn(records, key, m, isSystem)
  {
    if key in records && key.category in categories {
      OwnedAfterPull(records[key].entries, minions, kinds, m, isSystem);
    }
  }

  lemma PulledFromIsPulled(records: Records, categories: set<Category>, minions: set<MinionId>, kinds: set<bool>)
    ensures IsPulled(records, PulledFrom(records, categories, minions, kinds), categories, minions, kinds)
  {
    var after := PulledFrom(records, categories, minions, kinds);
    forall key, m, isSystem
      ensures OwnedIn(after, key, m, isSystem) ==
        if key.category in categories && m in minions && isSystem in kinds then multiset{}
        else OwnedIn(records, key, m, isSystem)
    {
      PulledAt(records, categories, minions, kinds, key, m, isSystem);
    }
  }

  function MovedExcept(records: Records, source: MinionId, target: MinionId, excluded: set<Category>): Records {
    map key | key in records ::
      if key.category in excluded then records[key]
      else records[key].(entries := Moved(records[key].entries, source, target))
  }

  lemma MovedAt(
    records: Records, source: MinionId, target: MinionId, excluded: set<Category>,
    key: RecordKey, m: MinionId, isSystem: bool)
    requires source != target
    ensures OwnedIn(MovedExcept(records, source, target, excluded), key, m, isSystem) ==
      if key.category in excluded || (m != source && m != target) then OwnedIn(records, key, m, isSystem)
      else if m == source then multiset{}
      else OwnedIn(records, key, target, isSystem) + OwnedIn(records, key, source, isSystem)
  {
    if key in records && key.category !in excluded {
      OwnedAfterMove(records[key].entries, source, target, m, isSystem);
    }
  }

  lemma MovedExceptIsMoved(records: Records, source: MinionId, target: MinionId, excluded: set<Category>)
    requires source != target
    ensures IsMoved(records, MovedExcept(records, source, target, excluded), source, target, excluded)
  {
    var after := MovedExcept(records, source, target, excluded);
    forall key, m, isSystem
      ensures OwnedIn(after, key, m, isSystem) ==
        if key.category in excluded || (m != source && m != target) then OwnedIn(records, key, m, isSystem)
        else if m == source then multiset{}
        else OwnedIn(records, key, target, isSystem) + OwnedIn(records, key, source, isSystem)
    {
      MovedAt(records, source, target, excluded, key, m, isSystem);
    }
  }
}
