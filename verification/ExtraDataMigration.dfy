/**
 The migration that gives every field one type and casts the aggregated records
 (saltbox_core/minion_collections/migrations/0004_single_type_extra_fields.py).
 */
module ExtraDataMigration {
  import opened Wrappers
  import opened Sums
  import opened ExtraData
  import opened ExtraDataCategory

  /** Reading and writing numbers and dates. */
  datatype Codec = Codec(
    parseInt: string -> Option<int>, parseFloat: string -> Option<real>, parseDate: string -> Option<int>,
    showInt: int -> string, showFloat: real -> string, showDate: int -> string)

  type Types = map<string, FieldType>

  // ---------- one type for a field ----------

  datatype OldType = NoneType | Typed(fieldType: FieldType)

  function Named(types: seq<OldType>): seq<FieldType> {
    if types == [] then []
    else Named(types[..|types| - 1]) + match types[|types| - 1] case NoneType => [] case Typed(t) => [t]
  }

  function SingleType(types: seq<OldType>): FieldType {
    var named := Named(types);
    if named == [] || StrType in named then StrType
    else if |named| == 1 then named[0]
    else if forall t :: t in named ==> t in {IntType, FloatType} then FloatType
    else StrType
  }

  // ---------- casting ----------

  function CastToStr(value: Value, codec: Codec): Option<Value> {
    match value
    case Text(_) => Some(value)
    case Int(n) => Some(Text(codec.showInt(n)))
    case Float(r) => Some(Text(codec.showFloat(r)))
    case Date(at) => Some(Text(codec.showDate(at)))
    case _ => None
  }

  function CastToNumber(value: Value, isFloat: bool, codec: Codec): Option<Value> {
    match value
    case Int(_) => Some(value)
    case Float(r) => if isFloat then Some(value) else if r == r.Floor as real then Some(Int(r.Floor)) else None
    case Text(text) =>
      if isFloat then (match codec.parseFloat(text) case Some(r) => Some(Float(r)) case None => None)
      else (match codec.parseInt(text) case Some(n) => Some(Int(n)) case None => None)
    case _ => None
  }

  function CastValue(value: Value, fieldType: FieldType, codec: Codec): Option<Value> {
    if value == Null || value == Text("") then Some(value)
    else
      match fieldType
      case StrType => CastToStr(value, codec)
      case IntType => CastToNumber(value, false, codec)
      case FloatType => CastToNumber(value, true, codec)
      case DateTimeType =>
        (match value
         case Date(_) => Some(value)
         case Text(text) => (match codec.parseDate(text) case Some(at) => Some(Date(at)) case None => None)
         case _ => None)
      case BoolType => if value.Flag? then Some(value) else None
      case ListType => if value.List? then Some(value) else None
      case DictType => if value.Dict? then Some(value) else None
      case BytesType => if value.Bytes? then Some(value) else None
  }

  lemma {:induction false} NamedTypes(types: seq<OldType>, t: FieldType)
    ensures t in Named(types) <==> Typed(t) in types
  {
    if types != [] {
      NamedTypes(types[..|types| - 1], t);
      assert types == types[..|types| - 1] + [types[|types| - 1]];
    }
  }

  /** A value of one of the old types survives the cast, unless it is a bool or a compound that has to become a text. */
  lemma SingleTypeTakesAll(types: seq<OldType>, t: FieldType, value: Value, codec: Codec)
    requires Typed(t) in types && HasType(value, t)
    ensures CastValue(value, SingleType(types), codec).Some? <==>
      !(SingleType(types) == StrType && t in {BoolType, BytesType, ListType, DictType})
  {
    NamedTypes(types, t);
  }

  // ---------- the single type ----------

  /** A type that stands alone is kept. It counts how often a type is listed, not only which ones are. */
  lemma {:induction false} LoneTypeIsNamed(types: seq<OldType>, i: nat)
    requires i < |types| && types[i].Typed?
    requires forall j :: 0 <= j < |types| && j != i ==> types[j] == NoneType
    ensures Named(types) == [types[i].fieldType]
  {
    var n := |types| - 1;
    if i < n {
      LoneTypeIsNamed(types[..n], i);
    } else {
      NoneAreNamed(types[..n]);
    }
  }

  lemma {:induction false} NoneAreNamed(types: seq<OldType>)
    requires forall j :: 0 <= j < |types| ==> types[j] == NoneType
    ensures Named(types) == []
  {
    if types != [] {
      NoneAreNamed(types[..|types| - 1]);
    }
  }

  lemma {:induction false} SeveralAreNamed(types: seq<OldType>, i: nat, j: nat)
    requires i < j < |types| && types[i].Typed? && types[j].Typed?
    ensures |Named(types)| >= 2
  {
    var n := |types| - 1;
    if j < n {
      SeveralAreNamed(types[..n], i, j);
    } else {
      NamedTypes(types[..n], types[i].fieldType);
      assert types[..n][i] == types[i];
    }
  }

  /** With no type at all a field holds texts, and so it does where texts are among the types. */
  lemma NoTypeIsText(types: seq<OldType>)
    ensures (forall t :: t in types ==> t == NoneType) || Typed(StrType) in types ==> SingleType(types) == StrType
  {
    NamedTypes(types, StrType);
    if forall t :: t in types ==> t == NoneType {
      assert forall j :: 0 <= j < |types| ==> types[j] in types;
      NoneAreNamed(types);
    }
  }

  lemma LoneTypeIsKept(types: seq<OldType>, i: nat)
    requires i < |types| && types[i].Typed?
    requires forall j :: 0 <= j < |types| && j != i ==> types[j] == NoneType
    ensures SingleType(types) == types[i].fieldType
  {
    LoneTypeIsNamed(types, i);
  }

  /** Several types, or one listed twice, become float when all of them are numbers and text otherwise. */
  lemma SeveralTypesAreJoined(types: seq<OldType>, i: nat, j: nat)
    requires i < j < |types| && types[i].Typed? && types[j].Typed?
    ensures SingleType(types) ==
      if forall t :: Typed(t) in types ==> t == IntType || t == FloatType then FloatType else StrType
  {
    SeveralAreNamed(types, i, j);
    forall t
      ensures t in Named(types) <==> Typed(t) in types
    {
      NamedTypes(types, t);
    }
  }

  // ---------- what a cast does ----------

  /** The reading or writing of a value in another type. */
  predicate IsConversion(value: Value, fieldType: FieldType, codec: Codec, cast: Value) {
    match fieldType
    case StrType =>
      || (value.Int? && cast == Text(codec.showInt(value.number)))
      || (value.Float? && cast == Text(codec.showFloat(value.amount)))
      || (value.Date? && cast == Text(codec.showDate(value.at)))
    case IntType =>
      || (value.Float? && value.amount.Floor as real == value.amount && cast == Int(value.amount.Floor))
      || (value.Text? && codec.parseInt(value.text).Some? && cast == Int(codec.parseInt(value.text).value))
    case FloatType =>
      value.Text? && codec.parseFloat(value.text).Some? && cast == Float(codec.parseFloat(value.text).value)
    case DateTimeType =>
      value.Text? && codec.parseDate(value.text).Some? && cast == Date(codec.parseDate(value.text).value)
    case _ => false
  }

  /** A value that is empty or fits stays as it is, and any other is converted or dropped. */
  lemma CastExactly(value: Value, fieldType: FieldType, codec: Codec, cast: Value)
    ensures CastValue(value, fieldType, codec) == Some(cast) <==>
      if IsEmpty(value) || HasType(value, fieldType) || (fieldType == FloatType && value.Int?) then cast == value
      else IsConversion(value, fieldType, codec, cast)
  {
  }

  predicate StaysAs(key: string, value: Value, types: Types, codec: Codec) {
    key in types ==> CastValue(value, types[key], codec).Some?
  }

  /** Values that cannot be cast are dropped. */
  function CastData(data: Data, types: Types, codec: Codec): Data {
    map key | key in data && StaysAs(key, data[key], types, codec) ::
      if key in types then CastValue(data[key], types[key], codec).value else data[key]
  }

  lemma CastTwice(value: Value, fieldType: FieldType, codec: Codec)
    requires CastValue(value, fieldType, codec).Some?
    ensures CastValue(CastValue(value, fieldType, codec).value, fieldType, codec) == CastValue(value, fieldType, codec)
  {
  }

  /** Casting data that was cast changes nothing. */
  lemma CastDataTwice(data: Data, types: Types, codec: Codec)
    ensures CastData(CastData(data, types, codec), types, codec) == CastData(data, types, codec)
  {
    var once := CastData(data, types, codec);
    forall key | key in once && key in types
      ensures CastValue(once[key], types[key], codec) == Some(once[key])
    {
      CastTwice(data[key], types[key], codec);
    }
  }

  /** Exactly the values that casting would not change are those that the cleaning of new items takes as they are. */
  lemma CleanedValuesStay(value: Value, fieldType: FieldType, codec: Codec)
    requires value != Null && value != Text("")
    ensures CleanFieldValue(value, fieldType, codec.parseDate) == Some(value) <==>
      CastValue(value, fieldType, codec) == Some(value)
  {
  }

  // ---------- equality ----------

  /** Python compares the numbers of every type, bool among them, by their value. */
  function Number(value: Value): Option<real> {
    match value
    case Int(n) => Some(n as real)
    case Float(r) => Some(r)
    case Flag(flag) => Some(if flag then 1.0 else 0.0)
    case _ => None
  }

  predicate IsEqual(value: Value, other: Value) {
    if Number(value).Some? && Number(other).Some? then Number(value) == Number(other) else value == other
  }

  predicate AreEqual(data: Data, other: Data) {
    data.Keys == other.Keys && forall field :: field in data ==> IsEqual(data[field], other[field])
  }

  predicate AreEqualEntries(entries: seq<Entry>, others: seq<Entry>) {
    && |entries| == |others|
    && forall i :: 0 <= i < |entries| ==>
         && entries[i].(item := others[i].item) == others[i]
         && entries[i].item.(data := others[i].item.data) == others[i].item
         && AreEqual(entries[i].item.data, others[i].item.data)
  }

  predicate IsWhole(value: Value) {
    value.Float? && value.amount == value.amount.Floor as real
  }

  /** The cast value is another one, although it compares equal, exactly for a whole float in an int field. */
  lemma EqualAfterCast(value: Value, fieldType: FieldType, codec: Codec)
    requires CastValue(value, fieldType, codec).Some?
    ensures
      var cast := CastValue(value, fieldType, codec).value;
      && (IsEqual(cast, value) <==> cast == value || (fieldType == IntType && IsWhole(value)))
      && (IsEqual(cast, value) ==> NormalValue(cast) == NormalValue(value))
  {
  }

  /** Casting drops no value, and every value that it changes is a whole float in an int field. */
  predicate OnlyWholeFloatsChange(data: Data, types: Types, codec: Codec) {
    forall field :: field in data && field in types ==>
      && CastValue(data[field], types[field], codec).Some?
      && (CastValue(data[field], types[field], codec).value != data[field] ==>
           types[field] == IntType && IsWhole(data[field]))
  }

  lemma EqualDataAfterCast(data: Data, types: Types, codec: Codec)
    ensures AreEqual(CastData(data, types, codec), data) <==> OnlyWholeFloatsChange(data, types, codec)
    ensures OnlyWholeFloatsChange(data, types, codec) ==> Normal(CastData(data, types, codec)) == Normal(data)
  {
    var cast := CastData(data, types, codec);
    forall field | field in data && field in types && CastValue(data[field], types[field], codec).Some?
      ensures IsEqual(cast[field], data[field]) <==>
        cast[field] == data[field] || (types[field] == IntType && IsWhole(data[field]))
      ensures IsEqual(cast[field], data[field]) ==> NormalValue(cast[field]) == NormalValue(data[field])
    {
      EqualAfterCast(data[field], types[field], codec);
    }
    forall field | field in data && field in types
      ensures field in cast <==> CastValue(data[field], types[field], codec).Some?
    {
    }
  }

  /** Data that is numerically what cast data is changes in whole floats at most. */
  lemma AlikeAfterCast(data: Data, cast: Data, types: Types, codec: Codec)
    requires CastData(cast, types, codec) == cast && Normal(data) == Normal(cast)
    ensures OnlyWholeFloatsChange(data, types, codec) && Normal(CastData(data, types, codec)) == Normal(data)
  {
    assert data.Keys == Normal(data).Keys == Normal(cast).Keys == cast.Keys;
    forall field | field in data && field in types
      ensures CastValue(data[field], types[field], codec).Some?
      ensures CastValue(data[field], types[field], codec).value != data[field] ==>
        types[field] == IntType && IsWhole(data[field])
    {
      assert CastData(cast, types, codec)[field] == cast[field];
      assert Normal(data)[field] == Normal(cast)[field];
    }
    EqualDataAfterCast(data, types, codec);
  }

  // ---------- records ----------

  type TypesOf = map<Category, Types>

  function CastEntry(e: Entry, types: Types, codec: Codec): Entry {
    e.(item := e.item.(data := CastData(e.item.data, types, codec)))
  }

  /** An entry is dropped when casting leaves nothing of what was there. */
  predicate IsKept(shared: Data, e: Entry, types: Types, codec: Codec) {
    || CastData(shared, types, codec) != map[] || CastData(e.item.data, types, codec) != map[]
    || (shared == map[] && e.item.data == map[])
  }

  /** A field whose type the value cannot take. */
  predicate IsLost(data: Data, field: string, types: Types, codec: Codec)
    requires field in data
  {
    field in types && CastValue(data[field], types[field], codec).None?
  }

  /** An entry is dropped exactly when it or its record had data, and no value of either can be cast. */
  lemma DroppedExactly(shared: Data, e: Entry, types: Types, codec: Codec)
    ensures !IsKept(shared, e, types, codec) <==>
      && (shared != map[] || e.item.data != map[])
      && (forall field :: field in shared ==> IsLost(shared, field, types, codec))
      && (forall field :: field in e.item.data ==> IsLost(e.item.data, field, types, codec))
  {
    AllIsLost(shared, types, codec);
    AllIsLost(e.item.data, types, codec);
  }

  lemma AllIsLost(data: Data, types: Types, codec: Codec)
    ensures CastData(data, types, codec) == map[] <==>
      forall field :: field in data ==> IsLost(data, field, types, codec)
  {
    var cast := CastData(data, types, codec);
    if field :| field in data && !IsLost(data, field, types, codec) {
      assert field in cast;
    }
    if field :| field in cast {
      assert !IsLost(data, field, types, codec);
    }
  }

  function CastEntries(shared: Data, entries: seq<Entry>, types: Types, codec: Codec): seq<Entry> {
    if entries == [] then []
    else
      var n := |entries| - 1;
      CastEntries(shared, entries[..n], types, codec)
      + if IsKept(shared, entries[n], types, codec) then [CastEntry(entries[n], types, codec)] else []
  }

  function CastOf(record: Record, types: Types, codec: Codec): Record {
    Record(CastData(record.shared, types, codec), CastEntries(record.shared, record.entries, types, codec))
  }

  predicate IsRemoved(record: Record, types: Types, codec: Codec) {
    CastOf(record, types, codec) == Record(map[], [])
  }

  /** Nothing is written when all compares equal. */
  predicate IsSkipped(record: Record, types: Types, codec: Codec) {
    && !IsRemoved(record, types, codec)
    && AreEqual(CastOf(record, types, codec).shared, record.shared)
    && AreEqualEntries(CastOf(record, types, codec).entries, record.entries)
  }

  /** A record is stored, or its entries join those of the record that the unique index knows. */
  function Put(records: Records, key: RecordKey, record: Record): Records {
    records[key := if key in records then records[key].(entries := records[key].entries + record.entries) else record]
  }

  /** What the loop does to one record, which it has read as `seen`. */
  function Processed(records: Records, key: RecordKey, seen: Record, types: Types, codec: Codec): Records
    requires key in records
  {
    if IsRemoved(seen, types, codec) then records - {key}
    else if IsSkipped(seen, types, codec) then records
    else Put(records - {key}, KeyOf(key.category, CastOf(seen, types, codec).shared), CastOf(seen, types, codec))
  }

  // ---------- cast entries ----------

  lemma {:induction false} CastEntriesConcat(
    shared: Data, first: seq<Entry>, second: seq<Entry>, types: Types, codec: Codec)
    ensures CastEntries(shared, first + second, types, codec) ==
      CastEntries(shared, first, types, codec) + CastEntries(shared, second, types, codec)
    decreases |second|
  {
    if second == [] {
      assert first + second == first;
    } else {
      var n := |second| - 1;
      var all := first + second;
      CastEntriesConcat(shared, first, second[..n], types, codec);
      CastLast(shared, all, types, codec);
      CastLast(shared, second, types, codec);
      assert all[..|all| - 1] == first + second[..n] && all[|all| - 1] == second[n];
    }
  }

  function CastOne(shared: Data, e: Entry, types: Types, codec: Codec): seq<Entry> {
    if IsKept(shared, e, types, codec) then [CastEntry(e, types, codec)] else []
  }

  lemma CastLast(shared: Data, entries: seq<Entry>, types: Types, codec: Codec)
    requires entries != []
    ensures CastEntries(shared, entries, types, codec) ==
      CastEntries(shared, entries[..|entries| - 1], types, codec)
        + CastOne(shared, entries[|entries| - 1], types, codec)
  {
  }

  lemma {:induction false} NoneAppear(shared: Data, entries: seq<Entry>, types: Types, codec: Codec)
    ensures |CastEntries(shared, entries, types, codec)| <= |entries|
  {
    if entries != [] {
      NoneAppear(shared, entries[..|entries| - 1], types, codec);
      CastLast(shared, entries, types, codec);
    }
  }

  predicate AreKept(shared: Data, entries: seq<Entry>, types: Types, codec: Codec) {
    forall i :: 0 <= i < |entries| ==> IsKept(shared, entries[i], types, codec)
  }

  lemma {:induction false} FewerIfDropped(shared: Data, entries: seq<Entry>, types: Types, codec: Codec)
    requires !AreKept(shared, entries, types, codec)
    ensures |CastEntries(shared, entries, types, codec)| < |entries|
  {
    var n := |entries| - 1;
    CastLast(shared, entries, types, codec);
    if IsKept(shared, entries[n], types, codec) {
      FewerIfDropped(shared, entries[..n], types, codec);
    } else {
      NoneAppear(shared, entries[..n], types, codec);
    }
  }

  /** Entries that are all kept are cast where they are. */
  lemma {:induction false} CastInPlace(shared: Data, entries: seq<Entry>, types: Types, codec: Codec)
    requires AreKept(shared, entries, types, codec)
    ensures
      CastEntries(shared, entries, types, codec) ==
        seq(|entries|, i requires 0 <= i < |entries| => CastEntry(entries[i], types, codec))
  {
    if entries != [] {
      CastInPlace(shared, entries[..|entries| - 1], types, codec);
      CastLast(shared, entries, types, codec);
    }
  }

  /** As many come out as go in exactly when all are kept, and each of them is then cast where it is. */
  lemma AllKept(shared: Data, entries: seq<Entry>, types: Types, codec: Codec)
    ensures
      var after := CastEntries(shared, entries, types, codec);
      && (|after| == |entries| <==> AreKept(shared, entries, types, codec))
      && (|after| == |entries| ==> forall i :: 0 <= i < |entries| ==> after[i] == CastEntry(entries[i], types, codec))
  {
    if AreKept(shared, entries, types, codec) {
      CastInPlace(shared, entries, types, codec);
    } else {
      FewerIfDropped(shared, entries, types, codec);
    }
  }

  predicate IsFixed(data: Data, types: Types, codec: Codec) {
    CastData(data, types, codec) == data
  }

  predicate AreFixed(entries: seq<Entry>, types: Types, codec: Codec) {
    forall i :: 0 <= i < |entries| ==> IsFixed(entries[i].item.data, types, codec)
  }

  lemma {:induction false} CastEntriesAreFixed(shared: Data, entries: seq<Entry>, types: Types, codec: Codec)
    ensures AreFixed(CastEntries(shared, entries, types, codec), types, codec)
  {
    if entries != [] {
      var n := |entries| - 1;
      CastEntriesAreFixed(shared, entries[..n], types, codec);
      CastDataTwice(entries[n].item.data, types, codec);
      CastLast(shared, entries, types, codec);
    }
  }

  /** Cast entries are kept as they are in a record whose shared data loses nothing. */
  lemma FixedAreKept(shared: Data, entries: seq<Entry>, types: Types, codec: Codec)
    requires OnlyWholeFloatsChange(shared, types, codec) && AreFixed(entries, types, codec)
    ensures CastEntries(shared, entries, types, codec) == entries
  {
    EqualDataAfterCast(shared, types, codec);
    forall i | 0 <= i < |entries|
      ensures IsKept(shared, entries[i], types, codec) && CastEntry(entries[i], types, codec) == entries[i]
    {
      assert IsFixed(entries[i].item.data, types, codec);
    }
    AllKept(shared, entries, types, codec);
  }

  // ---------- what is left as it is ----------

  predicate OnlyWholeFloatsChangeIn(entries: seq<Entry>, types: Types, codec: Codec) {
    forall i :: 0 <= i < |entries| ==> OnlyWholeFloatsChange(entries[i].item.data, types, codec)
  }

  lemma KeptIfWhole(shared: Data, e: Entry, types: Types, codec: Codec)
    requires OnlyWholeFloatsChange(shared, types, codec) && OnlyWholeFloatsChange(e.item.data, types, codec)
    ensures IsKept(shared, e, types, codec)
  {
    EqualDataAfterCast(shared, types, codec);
    EqualDataAfterCast(e.item.data, types, codec);
  }

  lemma EqualEntriesAfterCast(shared: Data, entries: seq<Entry>, types: Types, codec: Codec)
    requires OnlyWholeFloatsChange(shared, types, codec)
    ensures AreEqualEntries(CastEntries(shared, entries, types, codec), entries) <==>
      OnlyWholeFloatsChangeIn(entries, types, codec)
    ensures OnlyWholeFloatsChangeIn(entries, types, codec) ==>
      |CastEntries(shared, entries, types, codec)| == |entries|
      && forall i :: 0 <= i < |entries| ==>
           CastEntries(shared, entries, types, codec)[i] == CastEntry(entries[i], types, codec)
  {
    AllKept(shared, entries, types, codec);
    forall i | 0 <= i < |entries|
      ensures AreEqual(CastEntry(entries[i], types, codec).item.data, entries[i].item.data) <==>
        OnlyWholeFloatsChange(entries[i].item.data, types, codec)
      ensures OnlyWholeFloatsChange(entries[i].item.data, types, codec) ==> IsKept(shared, entries[i], types, codec)
    {
      EqualDataAfterCast(entries[i].item.data, types, codec);
      if OnlyWholeFloatsChange(entries[i].item.data, types, codec) {
        KeptIfWhole(shared, entries[i], types, codec);
      }
    }
  }

  /**
   A record is left as it is exactly when it has anything at all, no value of it is dropped, and every value that is
   changed is a whole float in an int field.
   */
  lemma SkippedExactly(record: Record, types: Types, codec: Codec)
    ensures IsSkipped(record, types, codec) <==>
      && record != Record(map[], [])
      && OnlyWholeFloatsChange(record.shared, types, codec) && OnlyWholeFloatsChangeIn(record.entries, types, codec)
  {
    EqualDataAfterCast(record.shared, types, codec);
    if OnlyWholeFloatsChange(record.shared, types, codec) {
      EqualEntriesAfterCast(record.shared, record.entries, types, codec);
    }
  }

  /** A record stays although casting changes it exactly when no value is dropped and only whole floats would change. */
  lemma UncastExactly(records: Records, key: RecordKey, types: Types, codec: Codec)
    requires key in records && CastOf(records[key], types, codec) != records[key]
    ensures
      var record, after := records[key], Processed(records, key, records[key], types, codec);
      key in after && after[key] == record <==>
        OnlyWholeFloatsChange(record.shared, types, codec) && OnlyWholeFloatsChangeIn(record.entries, types, codec)
  {
    SkippedExactly(records[key], types, codec);
  }

  const CPUS := RecordKey(Category("inventory", "cpus"), map["cores" := Int(4)])
  const CPUS_TYPES: Types := map["cores" := IntType]

  /** Four cores that are stored as 4.0 stay a float, which the cleaning of new items refuses. */
  lemma WholeFloatStays(records: Records, codec: Codec, parse: DateParser)
    requires CPUS in records && records[CPUS].shared == map["cores" := Float(4.0)]
    requires forall i :: 0 <= i < |records[CPUS].entries| ==> records[CPUS].entries[i].item.data == map[]
    ensures KeyOf(CPUS.category, records[CPUS].shared) == CPUS
    ensures CastData(records[CPUS].shared, CPUS_TYPES, codec) == map["cores" := Int(4)]
    ensures Processed(records, CPUS, records[CPUS], CPUS_TYPES, codec) == records
    ensures CleanFieldValue(Float(4.0), IntType, parse) == None
  {
    assert "cores" in records[CPUS].shared;
    SkippedExactly(records[CPUS], CPUS_TYPES, codec);
  }

  // ---------- what the records hold ----------

  function NormalEntry(e: Entry): Entry {
    e.(item := e.item.(data := Normal(e.item.data)))
  }

  /** An entry with the whole of its data, up to the writing of numbers. */
  datatype Holding = Holding(key: RecordKey, entry: Entry)

  function HoldingsOf(key: RecordKey, entries: seq<Entry>): multiset<Holding> {
    if entries == [] then multiset{}
    else HoldingsOf(key, entries[..|entries| - 1]) + multiset{Holding(key, NormalEntry(entries[|entries| - 1]))}
  }

  /** What a record is to end as. */
  function CastHoldings(key: RecordKey, record: Record, typesOf: TypesOf, codec: Codec): multiset<Holding> {
    if key.category in typesOf then
      var cast := CastOf(record, typesOf[key.category], codec);
      HoldingsOf(KeyOf(key.category, cast.shared), cast.entries)
    else HoldingsOf(key, record.entries)
  }

  function CastHeld(records: Records, typesOf: TypesOf, codec: Codec): map<RecordKey, multiset<Holding>> {
    map key | key in records :: CastHoldings(key, records[key], typesOf, codec)
  }

  function NowHeld(records: Records): map<RecordKey, multiset<Holding>> {
    map key | key in records :: HoldingsOf(key, records[key].entries)
  }

  /** What the records are to end as, and what they are now. */
  ghost function Total(records: Records, typesOf: TypesOf, codec: Codec): multiset<Holding> {
    Sum(CastHeld(records, typesOf, codec))
  }

  ghost function Content(records: Records): multiset<Holding> {
    Sum(NowHeld(records))
  }

  lemma {:induction false} HoldingsConcat(key: RecordKey, first: seq<Entry>, second: seq<Entry>)
    ensures HoldingsOf(key, first + second) == HoldingsOf(key, first) + HoldingsOf(key, second)
    decreases |second|
  {
    if second == [] {
      assert first + second == first;
    } else {
      var n := |second| - 1;
      assert first + second == (first + second[..n]) + [second[n]];
      HoldingsConcat(key, first, second[..n]);
      HoldingsOneMore(key, first + second[..n], second[n]);
    }
  }

  lemma HoldingsOneMore(key: RecordKey, entries: seq<Entry>, e: Entry)
    ensures HoldingsOf(key, entries + [e]) == HoldingsOf(key, entries) + multiset{Holding(key, NormalEntry(e))}
  {
    assert (entries + [e])[..|entries|] == entries;
  }

  lemma {:induction false} HoldingsCount(key: RecordKey, entries: seq<Entry>)
    ensures |HoldingsOf(key, entries)| == |entries|
  {
    if entries != [] {
      HoldingsCount(key, entries[..|entries| - 1]);
    }
  }

  lemma {:induction false} HoldingsAlike(key: RecordKey, entries: seq<Entry>, others: seq<Entry>)
    requires |entries| == |others|
    requires forall i :: 0 <= i < |entries| ==> NormalEntry(entries[i]) == NormalEntry(others[i])
    ensures HoldingsOf(key, entries) == HoldingsOf(key, others)
  {
    if entries != [] {
      HoldingsAlike(key, entries[..|entries| - 1], others[..|others| - 1]);
    }
  }

  lemma TotalWithout(records: Records, key: RecordKey, typesOf: TypesOf, codec: Codec)
    requires key in records
    ensures Total(records, typesOf, codec) ==
      Total(records - {key}, typesOf, codec) + CastHoldings(key, records[key], typesOf, codec)
  {
    SumAt(CastHeld(records, typesOf, codec), key);
    CastHeldWithout(records, key, typesOf, codec);
  }

  lemma CastHeldWithout(records: Records, key: RecordKey, typesOf: TypesOf, codec: Codec)
    ensures CastHeld(records, typesOf, codec) - {key} == CastHeld(records - {key}, typesOf, codec)
  {
    var held, less := CastHeld(records, typesOf, codec) - {key}, CastHeld(records - {key}, typesOf, codec);
    assert held.Keys == less.Keys;
    forall k | k in less
      ensures held[k] == less[k]
    {
      assert (records - {key})[k] == records[k];
    }
  }

  lemma TotalWith(
    records: Records, key: RecordKey, record: Record, more: multiset<Holding>, typesOf: TypesOf, codec: Codec)
    requires CastHoldings(key, record, typesOf, codec) ==
      (if key in records then CastHoldings(key, records[key], typesOf, codec) else multiset{}) + more
    ensures Total(records[key := record], typesOf, codec) == Total(records, typesOf, codec) + more
  {
    var held := CastHeld(records, typesOf, codec);
    CastHeldPut(records, key, record, typesOf, codec);
    assert key in held <==> key in records;
    SumMore(held, key, more);
  }

  lemma CastHeldPut(records: Records, key: RecordKey, record: Record, typesOf: TypesOf, codec: Codec)
    ensures CastHeld(records[key := record], typesOf, codec) ==
      CastHeld(records, typesOf, codec)[key := CastHoldings(key, record, typesOf, codec)]
  {
  }

  // ---------- one record ----------

  /** A record that was cast, and may have got entries that were cast as well. */
  lemma CastAgain(key: RecordKey, shared: Data, there: seq<Entry>, record: Record, types: Types, codec: Codec)
    requires key == KeyOf(key.category, CastOf(record, types, codec).shared) && Normal(shared) == key.data
    ensures
      var cast := CastOf(record, types, codec);
      && KeyOf(key.category, CastData(shared, types, codec)) == key && OnlyWholeFloatsChange(shared, types, codec)
      && AreFixed(cast.entries, types, codec)
      && CastEntries(shared, there + cast.entries, types, codec) ==
           CastEntries(shared, there, types, codec) + cast.entries
  {
    var cast := CastOf(record, types, codec);
    CastDataTwice(record.shared, types, codec);
    AlikeAfterCast(shared, cast.shared, types, codec);
    CastEntriesAreFixed(record.shared, record.entries, types, codec);
    FixedAreKept(shared, cast.entries, types, codec);
    CastEntriesConcat(shared, there, cast.entries, types, codec);
  }

  lemma PutHolds(records: Records, key: RecordKey, record: Record, typesOf: TypesOf, codec: Codec)
    requires IsIndexed(records) && key.category in typesOf
    ensures
      var cast := CastOf(record, typesOf[key.category], codec);
      Total(Put(records, KeyOf(key.category, cast.shared), cast), typesOf, codec) ==
        Total(records, typesOf, codec) + CastHoldings(key, record, typesOf, codec)
  {
    var types := typesOf[key.category];
    var cast := CastOf(record, types, codec);
    var newKey := KeyOf(key.category, cast.shared);
    var there := if newKey in records then records[newKey] else Record(cast.shared, []);
    var joined := there.(entries := there.entries + cast.entries);
    CastAgain(newKey, there.shared, there.entries, record, types, codec);
    HoldingsConcat(newKey, CastEntries(there.shared, there.entries, types, codec), cast.entries);
    assert [] + cast.entries == cast.entries;
    TotalWith(records, newKey, joined, CastHoldings(key, record, typesOf, codec), typesOf, codec);
  }

  /** Whatever happens to the record, all that is to come out of the migration stays the same. */
  lemma ProcessedKeepsTotal(records: Records, key: RecordKey, typesOf: TypesOf, codec: Codec)
    requires IsIndexed(records) && key in records && key.category in typesOf
    ensures Total(Processed(records, key, records[key], typesOf[key.category], codec), typesOf, codec)
      == Total(records, typesOf, codec)
  {
    TotalWithout(records, key, typesOf, codec);
    PutHolds(records - {key}, key, records[key], typesOf, codec);
  }

  lemma ProcessedIsIndexed(records: Records, key: RecordKey, types: Types, codec: Codec)
    requires IsIndexed(records) && key in records
    ensures IsIndexed(Processed(records, key, records[key], types, codec))
  {
  }

  // ---------- settled records ----------

  /** The record is as the migration leaves it. */
  predicate IsSettled(key: RecordKey, record: Record, typesOf: TypesOf, codec: Codec) {
    key.category in typesOf ==> IsSkipped(record, typesOf[key.category], codec)
  }

  /** The record is settled where it ends; every other record stays, and stays settled. */
  ghost predicate SettlesAt(records: Records, after: Records, key: RecordKey, typesOf: TypesOf, codec: Codec) {
    && (key in after ==> IsSettled(key, after[key], typesOf, codec))
    && (forall k :: k in records && k != key ==> k in after)
    && (forall k :: k in after && k != key && (k !in records || IsSettled(k, records[k], typesOf, codec)) ==>
          IsSettled(k, after[k], typesOf, codec))
  }

  /** Entries that were cast join a settled record, or come with shared data that was cast. */
  lemma JoinedIsSettled(key: RecordKey, there: Record, record: Record, types: Types, codec: Codec)
    requires key == KeyOf(key.category, CastOf(record, types, codec).shared) == KeyOf(key.category, there.shared)
    requires !IsRemoved(record, types, codec) && (there.entries != [] ==> IsSkipped(there, types, codec))
    ensures IsSkipped(there.(entries := there.entries + CastOf(record, types, codec).entries), types, codec)
  {
    var cast := CastOf(record, types, codec);
    var joined := there.(entries := there.entries + cast.entries);
    CastAgain(key, there.shared, there.entries, record, types, codec);
    SkippedExactly(there, types, codec);
    SkippedExactly(joined, types, codec);
    NormalTwice(there.shared);
    NormalTwice(cast.shared);
    JoinedChange(there.entries, cast.entries, types, codec);
  }

  lemma JoinedChange(there: seq<Entry>, joining: seq<Entry>, types: Types, codec: Codec)
    requires OnlyWholeFloatsChangeIn(there, types, codec) && AreFixed(joining, types, codec)
    ensures OnlyWholeFloatsChangeIn(there + joining, types, codec)
  {
    var all := there + joining;
    forall i | 0 <= i < |all|
      ensures OnlyWholeFloatsChange(all[i].item.data, types, codec)
    {
      if i < |there| {
        assert all[i] == there[i];
      } else {
        assert all[i] == joining[i - |there|];
        AlikeAfterCast(all[i].item.data, all[i].item.data, types, codec);
      }
    }
  }

  lemma ProcessedSettles(records: Records, key: RecordKey, typesOf: TypesOf, codec: Codec)
    requires IsIndexed(records) && key in records && key.category in typesOf
    ensures SettlesAt(records, Processed(records, key, records[key], typesOf[key.category], codec), key, typesOf, codec)
  {
    var types, record := typesOf[key.category], records[key];
    var cast := CastOf(record, types, codec);
    var newKey := KeyOf(key.category, cast.shared);
    if !IsRemoved(record, types, codec) && !IsSkipped(record, types, codec) {
      var rest := records - {key};
      JoinedIsSettled(newKey, Record(cast.shared, []), record, types, codec);
      assert [] + cast.entries == cast.entries;
      if newKey in rest && IsSkipped(rest[newKey], types, codec) {
        JoinedIsSettled(newKey, rest[newKey], record, types, codec);
      }
    }
  }

  predicate AreSettled(records: Records, typesOf: TypesOf, codec: Codec) {
    forall key :: key in records ==> IsSettled(key, records[key], typesOf, codec)
  }

  lemma SettledHoldsAt(key: RecordKey, record: Record, typesOf: TypesOf, codec: Codec)
    requires key == KeyOf(key.category, record.shared) && IsSettled(key, record, typesOf, codec)
    ensures CastHoldings(key, record, typesOf, codec) == HoldingsOf(key, record.entries)
  {
    if key.category in typesOf {
      var types := typesOf[key.category];
      var cast := CastOf(record, types, codec);
      SkippedExactly(record, types, codec);
      EqualDataAfterCast(record.shared, types, codec);
      EqualEntriesAfterCast(record.shared, record.entries, types, codec);
      forall i | 0 <= i < |record.entries|
        ensures NormalEntry(cast.entries[i]) == NormalEntry(record.entries[i])
      {
        EqualDataAfterCast(record.entries[i].item.data, types, codec);
      }
      HoldingsAlike(key, cast.entries, record.entries);
    }
  }

  /** Settled records hold what was to come out. */
  lemma SettledHolds(records: Records, typesOf: TypesOf, codec: Codec)
    requires IsIndexed(records) && AreSettled(records, typesOf, codec)
    ensures Total(records, typesOf, codec) == Content(records)
  {
    forall key | key in records
      ensures CastHoldings(key, records[key], typesOf, codec) == HoldingsOf(key, records[key].entries)
    {
      SettledHoldsAt(key, records[key], typesOf, codec);
    }
    assert CastHeld(records, typesOf, codec) == NowHeld(records);
  }

  // ---------- counting ----------

  lemma ContentWithout(records: Records, key: RecordKey)
    requires key in records
    ensures |Content(records)| == |Content(records - {key})| + |records[key].entries|
  {
    SumAt(NowHeld(records), key);
    assert NowHeld(records) - {key} == NowHeld(records - {key});
    HoldingsCount(key, records[key].entries);
  }

  lemma ContentAt(records: Records, key: RecordKey, record: Record)
    ensures |Content(records[key := record])| == |Content(records - {key})| + |record.entries|
  {
    ContentWithout(records[key := record], key);
    assert records[key := record] - {key} == records - {key};
  }

  lemma ContentPut(records: Records, key: RecordKey, record: Record)
    ensures |Content(Put(records, key, record))| == |Content(records)| + |record.entries|
  {
    if key in records {
      var joined := records[key].(entries := records[key].entries + record.entries);
      assert Put(records, key, record) == records[key := joined];
      ContentWithout(records, key);
      ContentAt(records, key, joined);
      assert |joined.entries| == |records[key].entries| + |record.entries|;
    } else {
      assert Put(records, key, record) == records[key := record] && records - {key} == records;
      ContentAt(records, key, record);
    }
  }

  /** The entries that are not kept are missing afterwards, and no others. */
  lemma ProcessedCounts(records: Records, key: RecordKey, types: Types, codec: Codec)
    requires key in records
    ensures |Content(Processed(records, key, records[key], types, codec))| + |records[key].entries|
      == |Content(records)| + |CastOf(records[key], types, codec).entries|
  {
    var record := records[key];
    ContentWithout(records, key);
    if IsSkipped(record, types, codec) {
      assert |CastOf(record, types, codec).entries| == |record.entries|;
    } else if !IsRemoved(record, types, codec) {
      var cast := CastOf(record, types, codec);
      ContentPut(records - {key}, KeyOf(key.category, cast.shared), cast);
    }
  }

  // ---------- the whole pass ----------

  class AggregatedData {
    var records: Records

    constructor (records: Records)
      ensures this.records == records
    {
      this.records := records;
    }

    /**
     cast_aggregated_data with up-to-date reads, over the records there are at the start in any order.
     Every entry that is not dropped ends, cast up to the writing of numbers, in exactly one record; the others are
     counted; and a second pass, over records that are all settled, changes nothing.
     */
    method CastAggregatedData(typesOf: TypesOf, codec: Codec) returns (droppedItems: nat)
      requires IsIndexed(records)
      modifies this
      ensures IsIndexed(records) && Content(records) == Total(old(records), typesOf, codec)
      ensures |Content(old(records))| == |Content(records)| + droppedItems
      ensures AreSettled(records, typesOf, codec)
      ensures AreSettled(old(records), typesOf, codec) ==> records == old(records) && droppedItems == 0
    {
      droppedItems := 0;
      var left := records.Keys;
      while left != {}
        invariant IsMigrating(old(records), records, left, droppedItems, typesOf, codec)
        decreases left
      {
        var key :| key in left;
        if key.category in typesOf {
          ghost var after, lost := RecordDone(records, key, typesOf, codec);
          MigratingMore(old(records), records, after, key, left, droppedItems, lost, typesOf, codec);
          var dropped := CastRecord(key, typesOf[key.category], codec);
          droppedItems := droppedItems + dropped;
        }
        left := left - {key};
      }
      SettledHolds(records, typesOf, codec);
    }

    /** The database calls for one record. */
    method CastRecord(key: RecordKey, types: Types, codec: Codec) returns (dropped: nat)
      requires key in records
      modifies this
      ensures dropped == |old(records)[key].entries| - |CastOf(old(records)[key], types, codec).entries|
      ensures records == Processed(old(records), key, old(records)[key], types, codec)
    {
      var cast := CastOf(records[key], types, codec);
      NoneAppear(records[key].shared, records[key].entries, types, codec);
      dropped := |records[key].entries| - |cast.entries|;
      if cast.shared == map[] && cast.entries == [] {
        records := records - {key};
        return;
      }
      if AreEqual(cast.shared, records[key].shared) && AreEqualEntries(cast.entries, records[key].entries) {
        return;
      }
      var newKey := KeyOf(key.category, cast.shared);
      if newKey != key && newKey in records {
        // the update breaks the unique index
        records := records[newKey := records[newKey].(entries := records[newKey].entries + cast.entries)];
        records := records - {key};
      } else {
        records := (records - {key})[newKey := cast];
      }
    }
  }

  ghost predicate AreSettledBut(records: Records, left: set<RecordKey>, typesOf: TypesOf, codec: Codec) {
    forall key :: key in records && key !in left ==> IsSettled(key, records[key], typesOf, codec)
  }

  /** How far the pass has come, with the records in `left` still to be looked at. */
  ghost predicate IsMigrating(
    first: Records, records: Records, left: set<RecordKey>, droppedItems: nat, typesOf: TypesOf, codec: Codec)
  {
    && left <= records.Keys && IsIndexed(records) && Total(records, typesOf, codec) == Total(first, typesOf, codec)
    && |Content(first)| == |Content(records)| + droppedItems
    && AreSettledBut(records, left, typesOf, codec)
    && (AreSettled(first, typesOf, codec) ==> records == first && droppedItems == 0)
  }

  /** What the loop does to one record, as far as the pass is concerned. */
  lemma RecordDone(records: Records, key: RecordKey, typesOf: TypesOf, codec: Codec)
    returns (after: Records, dropped: nat)
    requires IsIndexed(records) && key in records && key.category in typesOf
    ensures after == Processed(records, key, records[key], typesOf[key.category], codec) && IsIndexed(after)
    ensures dropped == |records[key].entries| - |CastOf(records[key], typesOf[key.category], codec).entries|
    ensures Total(after, typesOf, codec) == Total(records, typesOf, codec)
    ensures |Content(records)| == |Content(after)| + dropped
    ensures SettlesAt(records, after, key, typesOf, codec)
    ensures IsSettled(key, records[key], typesOf, codec) ==> after == records && dropped == 0
  {
    var types := typesOf[key.category];
    after := Processed(records, key, records[key], types, codec);
    NoneAppear(records[key].shared, records[key].entries, types, codec);
    dropped := |records[key].entries| - |CastOf(records[key], types, codec).entries|;
    ProcessedKeepsTotal(records, key, typesOf, codec);
    ProcessedIsIndexed(records, key, types, codec);
    ProcessedCounts(records, key, types, codec);
    ProcessedSettles(records, key, typesOf, codec);
  }

  lemma MigratingMore(
    first: Records, records: Records, after: Records, key: RecordKey, left: set<RecordKey>,
    droppedItems: nat, dropped: nat, typesOf: TypesOf, codec: Codec)
    requires IsMigrating(first, records, left, droppedItems, typesOf, codec) && key in left && IsIndexed(after)
    requires Total(after, typesOf, codec) == Total(records, typesOf, codec)
    requires |Content(records)| == |Content(after)| + dropped
    requires SettlesAt(records, after, key, typesOf, codec)
    requires IsSettled(key, records[key], typesOf, codec) ==> after == records && dropped == 0
    ensures IsMigrating(first, after, left - {key}, droppedItems + dropped, typesOf, codec)
  {
    OneMoreSettled(records, after, key, left, typesOf, codec);
  }

  lemma OneMoreSettled(
    records: Records, after: Records, key: RecordKey, left: set<RecordKey>, typesOf: TypesOf, codec: Codec)
    requires AreSettledBut(records, left, typesOf, codec) && SettlesAt(records, after, key, typesOf, codec)
    ensures AreSettledBut(after, left - {key}, typesOf, codec)
  {
  }

  // ---------- reads that are out of date ----------

  /**
   A record may be read before others are merged into it and processed after. The merged entries then survive
   exactly when there are none, or the record as it was read is left as it is.
   */
  lemma OutdatedReadLosesEntries(
    records: Records, key: RecordKey, seen: Record, merged: seq<Entry>, types: Types, codec: Codec)
    requires key in records && records[key] == seen.(entries := seen.entries + merged)
    requires key == KeyOf(key.category, seen.shared) && OnlyWholeFloatsChange(seen.shared, types, codec)
    requires AreFixed(merged, types, codec)
    ensures Processed(records, key, seen, types, codec) == Processed(records, key, records[key], types, codec) <==>
      merged == [] || IsSkipped(seen, types, codec)
  {
    FixedAreKept(seen.shared, merged, types, codec);
    CastEntriesConcat(seen.shared, seen.entries, merged, types, codec);
    EqualDataAfterCast(seen.shared, types, codec);
    NoneAppear(seen.shared, seen.entries, types, codec);
    if merged == [] {
      assert seen.entries + merged == seen.entries;
    } else if IsSkipped(seen, types, codec) {
      SkippedWithMerged(seen, merged, types, codec);
    } else {
      var now, cast := records[key], CastOf(records[key], types, codec);
      var current, stale := Processed(records, key, now, types, codec), Processed(records, key, seen, types, codec);
      assert cast.entries == CastOf(seen, types, codec).entries + merged;
      assert key in current && |current[key].entries| >= |cast.entries|;
      assert key in stale ==> stale[key].entries == CastOf(seen, types, codec).entries;
    }
  }

  lemma SkippedWithMerged(seen: Record, merged: seq<Entry>, types: Types, codec: Codec)
    requires IsSkipped(seen, types, codec) && AreFixed(merged, types, codec)
    ensures IsSkipped(seen.(entries := seen.entries + merged), types, codec)
  {
    var all := seen.(entries := seen.entries + merged);
    SkippedExactly(seen, types, codec);
    SkippedExactly(all, types, codec);
    JoinedChange(seen.entries, merged, types, codec);
  }
}
