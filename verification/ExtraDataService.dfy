/** Adding, replacing and importing items (saltbox_core/minion_collections/services/extra_data.py). */
module ExtraDataService {
  import opened Wrappers
  import opened ExtraData
  import opened ExtraDataCategory
  import opened ExtraDataWrites
  import opened MinionStore

  datatype WriteError = EmptyItem | InvalidData(errors: set<FieldError>) | TooManyItems | InvalidImport

  // ---------- cleaning a list of items ----------

  /** Data collected automatically loses unknown fields when the category ignores them. */
  function Relevant(schema: Schema, data: Data, isSystem: bool): Data {
    if isSystem && schema.extraFields == Ignore
    then map key | key in data && exists field :: field in schema.fields && field.name == key :: data[key]
    else data
  }

  predicate IsUsable(schema: Schema, data: Data, isSystem: bool, isMinionDataOnly: bool, parse: DateParser) {
    Relevant(schema, data, isSystem) != map[]
    && Clean(schema, Relevant(schema, data, isSystem), isMinionDataOnly, parse).Ok?
  }

  function UsableDatas(
    schema: Schema, datas: seq<Data>, isSystem: bool, isMinionDataOnly: bool, parse: DateParser): seq<Data>
  {
    if datas == [] then []
    else
      var n := |datas| - 1;
      UsableDatas(schema, datas[..n], isSystem, isMinionDataOnly, parse)
      + if IsUsable(schema, datas[n], isSystem, isMinionDataOnly, parse)
        then [Clean(schema, Relevant(schema, datas[n], isSystem), isMinionDataOnly, parse).value] else []
  }

  /** Whether manual items are accepted at all: every one of them, and no more than fit. */
  ghost predicate AreAccepted(schema: Schema, datas: seq<Data>, isMinionDataOnly: bool, parse: DateParser) {
    && (forall data :: data in datas ==> IsUsable(schema, data, false, isMinionDataOnly, parse))
    && (schema.isSingleItem ==> |datas| <= 1)
  }

  /** Manual items are accepted or refused as a whole; of automatic ones the usable stay, or only the last. */
  method CleanDatas(schema: Schema, datas: seq<Data>, isSystem: bool, isMinionDataOnly: bool, parse: DateParser)
    returns (result: Result<seq<Data>, WriteError>)
    ensures isSystem ==> result.Ok?
    ensures !isSystem ==> (result.Ok? <==> AreAccepted(schema, datas, isMinionDataOnly, parse))
    ensures result.Ok? ==>
      var usable := UsableDatas(schema, datas, isSystem, isMinionDataOnly, parse);
      result.value == if schema.isSingleItem && |usable| > 1 then usable[|usable| - 1..] else usable
  {
    var cleaned: seq<Data> := [];
    for i := 0 to |datas|
      invariant cleaned == UsableDatas(schema, datas[..i], isSystem, isMinionDataOnly, parse)
      invariant !isSystem ==> |cleaned| == i
      invariant !isSystem ==> forall data :: data in datas[..i] ==>
        IsUsable(schema, data, false, isMinionDataOnly, parse)
    {
      var data := Relevant(schema, datas[i], isSystem);
      assert datas[..i + 1][..i] == datas[..i] && datas[..i + 1] == datas[..i] + [datas[i]];
      if data == map[] {
        if isSystem {
          continue;
        }
        assert datas[i] in datas;
        return Err(EmptyItem);
      }
      var outcome := CleanData(schema, data, isMinionDataOnly, parse);
      match outcome
      case Ok(value) => cleaned := cleaned + [value];
      case Err(errors) =>
        if !isSystem {
          assert datas[i] in datas;
          return Err(InvalidData(errors));
        }
    }
    assert datas[..|datas|] == datas;
    if schema.isSingleItem && |cleaned| > 1 {
      if !isSystem {
        return Err(TooManyItems);
      }
      cleaned := cleaned[|cleaned| - 1..];
    }
    return Ok(cleaned);
  }

  /** Where unknown fields are ignored, one makes manual data useless, and automatic data is as good without it. */
  lemma UnknownFieldDecides(schema: Schema, data: Data, key: string, isMinionDataOnly: bool, parse: DateParser)
    requires schema.extraFields == Ignore && key in data && IsUnknown(schema.fields, key)
    ensures !IsUsable(schema, data, false, isMinionDataOnly, parse)
    ensures Relevant(schema, data, true) == Relevant(schema, data - {key}, true)
    ensures IsUsable(schema, data, true, isMinionDataOnly, parse) <==>
      IsUsable(schema, data - {key}, true, isMinionDataOnly, parse)
  {
    RefusedExactly(schema, data, isMinionDataOnly, parse);
    assert HasForbidden(schema, data);
    var without := data - {key};
    assert forall field :: field in schema.fields ==> field.name != key;
    assert Relevant(schema, data, true) == Relevant(schema, without, true);
  }

  /** Data without unknown fields, or with a place for them, is usable exactly when it is not empty and all is right. */
  lemma UsableExactly(schema: Schema, data: Data, isSystem: bool, isMinionDataOnly: bool, parse: DateParser)
    requires schema.extraFields == Ignore ==> forall key :: key in data ==> !IsUnknown(schema.fields, key)
    ensures IsUsable(schema, data, isSystem, isMinionDataOnly, parse) <==>
      data != map[] && !HasMisfit(schema, data, parse) && !HasMissing(schema, data, isMinionDataOnly)
  {
    RefusedExactly(schema, data, isMinionDataOnly, parse);
    forall key | schema.extraFields == Ignore && key in data
      ensures exists field :: field in schema.fields && field.name == key
    {
      var i :| 0 <= i < |schema.fields| && schema.fields[i].name == key;
      assert schema.fields[i] in schema.fields;
    }
    assert Relevant(schema, data, isSystem) == data;
  }

  lemma {:induction false} UsableAreClean(
    schema: Schema, datas: seq<Data>, isSystem: bool, isMinionDataOnly: bool, parse: DateParser, data: Data)
    requires data in UsableDatas(schema, datas, isSystem, isMinionDataOnly, parse)
    ensures Clean(schema, data, isMinionDataOnly, parse) == Ok(data) && IsReadBack(schema, data)
  {
    var n := |datas| - 1;
    if data in UsableDatas(schema, datas[..n], isSystem, isMinionDataOnly, parse) {
      UsableAreClean(schema, datas[..n], isSystem, isMinionDataOnly, parse, data);
    } else {
      CleanTwice(schema, Relevant(schema, datas[n], isSystem), isMinionDataOnly, parse);
      SplitThenReadBack(schema, Relevant(schema, datas[n], isSystem), isMinionDataOnly, parse);
    }
  }

  // ---------- writing ----------

  /** The same data for each of the minions. */
  function ForAll(minions: set<MinionId>, datas: seq<Data>): Datas {
    map m | m in minions :: datas
  }

  /** The homes of the shared parts are those that the texts give them. */
  ghost predicate IsWrittenByText(
    s: Store, n: Store, schema: Schema, datas: Datas, isSystem: bool, replace: bool, text: Data -> string, homes: Homes)
  {
    && IsWritten(s, n, schema, datas, isSystem, replace, homes)
    && (schema.isStatic || AreHomes(homes, SharedParts(schema, datas, datas.Keys * s.statics.Keys), text))
  }

  /** A write that the rules of single-item categories allow, of data that a reader gets back whole. */
  ghost predicate IsGoodWrite(
    s: Store, n: Store, schema: Schema, datas: Datas, isSystem: bool, replace: bool, text: Data -> string)
  {
    && (exists homes :: IsWrittenByText(s, n, schema, datas, isSystem, replace, text, homes))
    && (IsIndexed(s.records) ==> IsIndexed(n.records)) && IsAllowed(schema, datas, replace)
    && forall m, data :: m in datas && data in datas[m] ==> IsReadBack(schema, data)
  }

  method WriteChecked(db: Minions, schema: Schema, datas: Datas, isSystem: bool, replace: bool)
    requires IsAllowed(schema, datas, replace)
    requires forall m, data :: m in datas && data in datas[m] ==> IsReadBack(schema, data)
    modifies db
    ensures IsGoodWrite(old(db.Current()), db.Current(), schema, datas, isSystem, replace, db.text)
  {
    ghost var homes := db.WriteItems(schema, datas, isSystem, replace);
    assert IsWrittenByText(old(db.Current()), db.Current(), schema, datas, isSystem, replace, db.text, homes);
  }

  method ReplaceItems(
    db: Minions, schema: Schema, minions: set<MinionId>, datas: seq<Data>, isSystem: bool, parse: DateParser)
    returns (outcome: Result<(), WriteError>)
    modifies db
    ensures outcome.Err? ==> db.Current() == old(db.Current())
    ensures outcome.Err? <==> !isSystem && !AreAccepted(schema, datas, false, parse)
    ensures outcome.Ok? ==>
      var usable := UsableDatas(schema, datas, isSystem, false, parse);
      var written := if schema.isSingleItem && |usable| > 1 then usable[|usable| - 1..] else usable;
      // when nothing is usable, what is there stays
      if datas != [] && usable == [] then db.Current() == old(db.Current())
      else IsGoodWrite(old(db.Current()), db.Current(), schema, ForAll(minions, written), isSystem, true, db.text)
  {
    var cleaned := CleanDatas(schema, datas, isSystem, false, parse);
    if cleaned.Err? {
      return Err(cleaned.error);
    }
    if datas != [] && cleaned.value == [] {
      return Ok(());
    }
    forall data | data in cleaned.value
      ensures IsReadBack(schema, data)
    {
      UsableAreClean(schema, datas, isSystem, false, parse, data);
    }
    WriteChecked(db, schema, ForAll(minions, cleaned.value), isSystem, true);
    return Ok(());
  }

  lemma OneData(schema: Schema, data: Data, isSystem: bool, parse: DateParser)
    ensures UsableDatas(schema, [data], isSystem, false, parse) ==
      if IsUsable(schema, data, isSystem, false, parse)
      then [Clean(schema, Relevant(schema, data, isSystem), false, parse).value] else []
    ensures AreAccepted(schema, [data], false, parse) <==> IsUsable(schema, data, false, false, parse)
  {
    assert [data][..0] == [] && data in [data];
    assert UsableDatas(schema, [data][..0], isSystem, false, parse) == [];
  }

  ghost predicate HoldsTheSame(s: Store, n: Store) {
    forall m, p, kind :: Held(n, m, p, kind) == Held(s, m, p, kind)
  }

  lemma EmptyWriteHoldsTheSame(s: Store, n: Store, schema: Schema, minions: set<MinionId>, isSystem: bool, homes: Homes)
    requires IsWritten(s, n, schema, ForAll(minions, []), isSystem, false, homes)
    ensures HoldsTheSame(s, n)
  {
    forall m, p, kind
      ensures Held(n, m, p, kind) == Held(s, m, p, kind)
    {
      assert IsPlaceWritten(s, n, schema, ForAll(minions, []), isSystem, false, homes, m, p);
      if m in minions && m in s.statics && kind == isSystem {
        AddsNothing(Held(s, m, p, isSystem), Held(n, m, p, isSystem), isSystem);
      }
    }
  }

  /** In a single-item category adding is replacing; automatic data that is not usable adds nothing. */
  method AddItems(db: Minions, schema: Schema, minions: set<MinionId>, data: Data, isSystem: bool, parse: DateParser)
    returns (outcome: Result<(), WriteError>)
    modifies db
    ensures outcome.Err? <==> !isSystem && !IsUsable(schema, data, isSystem, false, parse)
    ensures outcome.Err? ==> db.Current() == old(db.Current())
    ensures !IsUsable(schema, data, isSystem, false, parse) ==> HoldsTheSame(old(db.Current()), db.Current())
    ensures IsUsable(schema, data, isSystem, false, parse) ==>
      IsGoodWrite(
        old(db.Current()), db.Current(), schema,
        ForAll(minions, [Clean(schema, Relevant(schema, data, isSystem), false, parse).value]),
        isSystem, schema.isSingleItem, db.text)
  {
    OneData(schema, data, isSystem, parse);
    if schema.isSingleItem {
      outcome := ReplaceItems(db, schema, minions, [data], isSystem, parse);
      return;
    }
    var cleaned := CleanDatas(schema, [data], isSystem, false, parse);
    if cleaned.Err? {
      return Err(cleaned.error);
    }
    WriteCleaned(db, schema, minions, [data], cleaned.value, isSystem, parse);
    if cleaned.value == [] {
      ghost var homes :|
        IsWrittenByText(old(db.Current()), db.Current(), schema, ForAll(minions, []), isSystem, false, db.text, homes);
      EmptyWriteHoldsTheSame(old(db.Current()), db.Current(), schema, minions, isSystem, homes);
    }
    return Ok(());
  }

  method WriteCleaned(
    db: Minions, schema: Schema, minions: set<MinionId>, ghost datas: seq<Data>, cleaned: seq<Data>,
    isSystem: bool, parse: DateParser)
    requires !schema.isSingleItem && cleaned == UsableDatas(schema, datas, isSystem, false, parse)
    modifies db
    ensures IsGoodWrite(old(db.Current()), db.Current(), schema, ForAll(minions, cleaned), isSystem, false, db.text)
  {
    forall d | d in cleaned
      ensures IsReadBack(schema, d)
    {
      UsableAreClean(schema, datas, isSystem, false, parse, d);
    }
    WriteChecked(db, schema, ForAll(minions, cleaned), isSystem, false);
  }

  // ---------- importing ----------

  /** A row of the file whose data is cleaned already. */
  datatype ImportRow = ImportRow(number: nat, minionId: string, master: string, data: Data)

  /** The minions the rows can name, and those of them in the collection. */
  datatype Scope = Scope(ids: map<(string, string), MinionId>, inCollection: set<MinionId>)

  function MinionOf(scope: Scope, row: ImportRow): Option<MinionId> {
    var name := (row.minionId, row.master);
    if name in scope.ids && scope.ids[name] in scope.inCollection then Some(scope.ids[name]) else None
  }

  /** The data the rows give for one minion, in their order. */
  function DatasFor(scope: Scope, rows: seq<ImportRow>, m: MinionId): seq<Data> {
    if rows == [] then []
    else
      var n := |rows| - 1;
      DatasFor(scope, rows[..n], m) + if MinionOf(scope, rows[n]) == Some(m) then [rows[n].data] else []
  }

  function UnknownRows(scope: Scope, rows: seq<ImportRow>): seq<nat> {
    if rows == [] then []
    else
      var n := |rows| - 1;
      UnknownRows(scope, rows[..n]) + if MinionOf(scope, rows[n]).None? then [rows[n].number] else []
  }

  ghost predicate AreFor(scope: Scope, rows: seq<ImportRow>, datas: Datas) {
    forall m ::
      (m in datas <==> DatasFor(scope, rows, m) != []) && (m in datas ==> datas[m] == DatasFor(scope, rows, m))
  }

  lemma {:induction false} DatasAreRows(scope: Scope, rows: seq<ImportRow>, m: MinionId, data: Data)
    requires data in DatasFor(scope, rows, m)
    ensures exists row :: row in rows && row.data == data
  {
    var n := |rows| - 1;
    if data in DatasFor(scope, rows[..n], m) {
      DatasAreRows(scope, rows[..n], m, data);
      var row :| row in rows[..n] && row.data == data;
      assert row in rows;
    } else {
      assert rows[n] in rows;
    }
  }

  lemma RowsReadBack(scope: Scope, rows: seq<ImportRow>, datas: Datas, schema: Schema, parse: DateParser)
    requires AreFor(scope, rows, datas)
    requires forall row :: row in rows ==> Clean(schema, row.data, false, parse) == Ok(row.data)
    ensures forall m, data :: m in datas && data in datas[m] ==> IsReadBack(schema, data)
  {
    forall m, data | m in datas && data in datas[m]
      ensures IsReadBack(schema, data)
    {
      DatasAreRows(scope, rows, m, data);
      SplitThenReadBack(schema, data, false, parse);
    }
  }

  lemma OneRowMore(scope: Scope, rows: seq<ImportRow>, i: nat, datas: Datas)
    requires i < |rows| && AreFor(scope, rows[..i], datas)
    ensures
      match MinionOf(scope, rows[i])
      case None => AreFor(scope, rows[..i + 1], datas)
      case Some(m) =>
        AreFor(scope, rows[..i + 1], datas[m := (if m in datas then datas[m] else []) + [rows[i].data]])
  {
    assert rows[..i + 1][..i] == rows[..i];
  }

  /** The loop over the rows. */
  method GroupRows(rows: seq<ImportRow>, scope: Scope, skipUnknown: bool)
    returns (datas: Datas, skipped: seq<nat>, failed: bool)
    ensures AreFor(scope, rows, datas)
    ensures skipped == if skipUnknown then UnknownRows(scope, rows) else []
    ensures failed <==> !skipUnknown && UnknownRows(scope, rows) != []
  {
    datas, skipped, failed := map[], [], false;
    for i := 0 to |rows|
      invariant AreFor(scope, rows[..i], datas)
      invariant skipped == if skipUnknown then UnknownRows(scope, rows[..i]) else []
      invariant failed <==> !skipUnknown && UnknownRows(scope, rows[..i]) != []
    {
      assert rows[..i + 1][..i] == rows[..i];
      OneRowMore(scope, rows, i, datas);
      match MinionOf(scope, rows[i])
      case None =>
        if skipUnknown {
          skipped := skipped + [rows[i].number];
        } else {
          failed := true;
        }
      case Some(m) =>
        datas := datas[m := (if m in datas then datas[m] else []) + [rows[i].data]];
    }
    assert rows[..|rows|] == rows;
  }

  /** An import is written whole or not at all; a single-item category is always replaced. */
  method ImportItems(
    db: Minions, schema: Schema, rows: seq<ImportRow>, hasErrors: bool, scope: Scope,
    replaceMode: bool, skipUnknown: bool, parse: DateParser)
    returns (outcome: Result<seq<nat>, WriteError>, datas: Datas)
    requires forall row :: row in rows ==> Clean(schema, row.data, false, parse) == Ok(row.data)
    modifies db
    ensures AreFor(scope, rows, datas)
    ensures outcome.Ok? <==>
      && !hasErrors && (skipUnknown || UnknownRows(scope, rows) == [])
      && (schema.isSingleItem ==> forall m :: m in datas ==> |datas[m]| <= 1)
    ensures outcome.Err? ==> db.Current() == old(db.Current())
    ensures outcome.Ok? ==>
      && outcome.value == UnknownRows(scope, rows)
      && IsGoodWrite(old(db.Current()), db.Current(), schema, datas, false, replaceMode || schema.isSingleItem, db.text)
  {
    var skipped, failed;
    datas, skipped, failed := GroupRows(rows, scope, skipUnknown);
    var isDoubled := schema.isSingleItem && exists m :: m in datas && |datas[m]| > 1;
    if hasErrors || failed || isDoubled {
      return Err(InvalidImport), datas;
    }
    RowsReadBack(scope, rows, datas, schema, parse);
    WriteChecked(db, schema, datas, false, replaceMode || schema.isSingleItem);
    return Ok(skipped), datas;
  }
}
