/**
 The schema of a category and what it does to an item
 (saltbox_core/minion_collections/schemas/extra_data_category.py).
 */
module ExtraDataCategory {
  import opened Wrappers
  import opened ExtraData

  datatype FieldType = StrType | IntType | FloatType | BoolType | DateTimeType | BytesType | ListType | DictType

  datatype Field = Field(name: string, fieldType: FieldType, isMinionField: bool, isEmptyAllowed: bool)

  datatype ExtraFields = Ignore | SaveToMinion | SaveToCategory

  datatype Schema = Schema(
    category: Category, isStatic: bool, isSingleItem: bool, fields: seq<Field>, extraFields: ExtraFields)

  datatype FieldError = UnknownField(key: string) | EmptyField(key: string) | WrongType(key: string)

  /** `datetime.fromisoformat`: None for a text that is no date. */
  type DateParser = string -> Option<int>

  /** The field of that name; of two with one name the last counts. */
  function FieldNamed(fields: seq<Field>, name: string): Option<Field> {
    if fields == [] then None
    else
      var last := fields[|fields| - 1];
      if last.name == name then Some(last) else FieldNamed(fields[..|fields| - 1], name)
  }

  function CleanFieldValue(value: Value, fieldType: FieldType, parse: DateParser): Option<Value> {
    match (fieldType, value)
    case (DateTimeType, Text(text)) =>
      (match parse(text) case Some(at) => Some(Date(at)) case None => None)
    case (DateTimeType, Date(_)) => Some(value)
    case (StrType, Text(_)) => Some(value)
    case (IntType, Int(_)) => Some(value)
    case (FloatType, Int(_)) => Some(value)
    case (FloatType, Float(_)) => Some(value)
    case (BoolType, Flag(_)) => Some(value)
    case (BytesType, Bytes(_)) => Some(value)
    case (ListType, List(_)) => Some(value)
    case (DictType, Dict(_)) => Some(value)
    case (_, _) => None
  }

  predicate HasType(value: Value, fieldType: FieldType) {
    match fieldType
    case StrType => value.Text?
    case IntType => value.Int?
    case FloatType => value.Float?
    case BoolType => value.Flag?
    case DateTimeType => value.Date?
    case BytesType => value.Bytes?
    case ListType => value.List?
    case DictType => value.Dict?
  }

  function CleanEntry(schema: Schema, key: string, value: Value, parse: DateParser): Result<Value, FieldError> {
    match FieldNamed(schema.fields, key)
    case None => if schema.extraFields == Ignore then Err(UnknownField(key)) else Ok(value)
    case Some(field) =>
      if value == Null || value == Text("") then
        if field.isEmptyAllowed then Ok(value) else Err(EmptyField(key))
      else
        match CleanFieldValue(value, field.fieldType, parse)
        case Some(cleaned) => Ok(cleaned)
        case None => Err(WrongType(key))
  }

  predicate IsRequired(field: Field, isMinionDataOnly: bool) {
    !field.isEmptyAllowed && (field.isMinionField || !isMinionDataOnly)
  }

  function CleanErrors(schema: Schema, data: Data, isMinionDataOnly: bool, parse: DateParser): set<FieldError> {
    (set key | key in data && CleanEntry(schema, key, data[key], parse).Err? ::
      CleanEntry(schema, key, data[key], parse).error)
    + set field | field in schema.fields && IsRequired(field, isMinionDataOnly) && field.name !in data ::
      EmptyField(field.name)
  }

  /** All the values are cleaned, or none is returned. */
  function Clean(schema: Schema, data: Data, isMinionDataOnly: bool, parse: DateParser): Result<Data, set<FieldError>> {
    var errors := CleanErrors(schema, data, isMinionDataOnly, parse);
    if errors != {} then Err(errors)
    else Ok(map key | key in data :: KeepOk(schema, key, data[key], parse))
  }

  function KeepOk(schema: Schema, key: string, value: Value, parse: DateParser): Value {
    match CleanEntry(schema, key, value, parse) case Ok(cleaned) => cleaned case Err(_) => value
  }

  predicate GoesToMinion(schema: Schema, key: string) {
    match FieldNamed(schema.fields, key)
    case Some(field) => field.isMinionField
    case None => schema.extraFields == SaveToMinion
  }

  predicate GoesToCategory(schema: Schema, key: string) {
    match FieldNamed(schema.fields, key)
    case Some(field) => !field.isMinionField
    case None => schema.extraFields == SaveToCategory
  }

  function CategoryPart(schema: Schema, data: Data): Data {
    map key | key in data && GoesToCategory(schema, key) :: data[key]
  }

  function MinionPart(schema: Schema, data: Data): Data {
    map key | key in data && GoesToMinion(schema, key) :: data[key]
  }

  /** What a reader gets: the shared data overlaid with the data of the entry. */
  function ReadBack(categoryData: Data, minionData: Data): Data {
    categoryData + minionData
  }

  // ---------- the loops ----------

  method CleanData(schema: Schema, data: Data, isMinionDataOnly: bool, parse: DateParser)
    returns (result: Result<Data, set<FieldError>>)
    ensures result == Clean(schema, data, isMinionDataOnly, parse)
  {
    var cleaned, errors := CleanEntries(schema, data, parse);
    var missing := MissingFields(schema, data, isMinionDataOnly);
    errors := errors + missing;
    if errors != {} {
      return Err(errors);
    }
    NoErrors(schema, data, isMinionDataOnly, parse);
    assert cleaned == Clean(schema, data, isMinionDataOnly, parse).value;
    return Ok(cleaned);
  }

  /** The loop over the data. */
  method CleanEntries(schema: Schema, data: Data, parse: DateParser) returns (cleaned: Data, errors: set<FieldError>)
    ensures errors == set key | key in data && CleanEntry(schema, key, data[key], parse).Err?
                      :: CleanEntry(schema, key, data[key], parse).error
    ensures cleaned == map key | key in data && CleanEntry(schema, key, data[key], parse).Ok?
                         :: CleanEntry(schema, key, data[key], parse).value
  {
    cleaned, errors := map[], {};
    var left := data.Keys;
    while left != {}
      invariant left <= data.Keys
      invariant errors == set key | key in data.Keys - left && CleanEntry(schema, key, data[key], parse).Err?
                            :: CleanEntry(schema, key, data[key], parse).error
      invariant cleaned == map key | key in data.Keys - left && CleanEntry(schema, key, data[key], parse).Ok?
                             :: CleanEntry(schema, key, data[key], parse).value
      decreases left
    {
      var key :| key in left;
      left := left - {key};
      match CleanEntry(schema, key, data[key], parse)
      case Ok(value) => cleaned := cleaned[key := value];
      case Err(error) => errors := errors + {error};
    }
  }

  /** The loop over the fields. */
  method MissingFields(schema: Schema, data: Data, isMinionDataOnly: bool) returns (errors: set<FieldError>)
    ensures errors == set field |
      field in schema.fields && IsRequired(field, isMinionDataOnly) && field.name !in data :: EmptyField(field.name)
  {
    errors := {};
    for i := 0 to |schema.fields|
      invariant errors == set field |
        field in schema.fields[..i] && IsRequired(field, isMinionDataOnly) && field.name !in data ::
          EmptyField(field.name)
    {
      var field := schema.fields[i];
      assert schema.fields[..i + 1] == schema.fields[..i] + [field];
      if IsRequired(field, isMinionDataOnly) && field.name !in data {
        errors := errors + {EmptyField(field.name)};
      }
    }
    assert schema.fields[..|schema.fields|] == schema.fields;
  }

  lemma NoErrors(schema: Schema, data: Data, isMinionDataOnly: bool, parse: DateParser)
    requires CleanErrors(schema, data, isMinionDataOnly, parse) == {}
    ensures forall key :: key in data ==> CleanEntry(schema, key, data[key], parse).Ok?
    ensures forall field :: field in schema.fields && IsRequired(field, isMinionDataOnly) ==> field.name in data
  {
    forall key | key in data
      ensures CleanEntry(schema, key, data[key], parse).Ok?
    {
      EntryErrorIsListed(schema, data, isMinionDataOnly, parse, key);
    }
    forall field | field in schema.fields && IsRequired(field, isMinionDataOnly)
      ensures field.name in data
    {
      MissingFieldIsListed(schema, data, isMinionDataOnly, parse, field);
    }
  }

  lemma EntryErrorIsListed(schema: Schema, data: Data, isMinionDataOnly: bool, parse: DateParser, key: string)
    requires key in data
    ensures CleanEntry(schema, key, data[key], parse).Err? ==>
      CleanEntry(schema, key, data[key], parse).error in CleanErrors(schema, data, isMinionDataOnly, parse)
  {
  }

  lemma MissingFieldIsListed(schema: Schema, data: Data, isMinionDataOnly: bool, parse: DateParser, field: Field)
    requires field in schema.fields && IsRequired(field, isMinionDataOnly)
    ensures field.name !in data ==> EmptyField(field.name) in CleanErrors(schema, data, isMinionDataOnly, parse)
  {
  }

  method SplitData(schema: Schema, data: Data) returns (categoryData: Data, minionData: Data)
    ensures categoryData == CategoryPart(schema, data) && minionData == MinionPart(schema, data)
  {
    categoryData, minionData := map[], map[];
    var left := data.Keys;
    while left != {}
      invariant left <= data.Keys
      invariant categoryData == map key | key in data.Keys - left && GoesToCategory(schema, key) :: data[key]
      invariant minionData == map key | key in data.Keys - left && GoesToMinion(schema, key) :: data[key]
      decreases left
    {
      var key :| key in left;
      left := left - {key};
      var field := FieldNamed(schema.fields, key);
      if field.Some? {
        if field.value.isMinionField {
          minionData := minionData[key := data[key]];
        } else {
          categoryData := categoryData[key := data[key]];
        }
      } else if schema.extraFields == SaveToMinion {
        minionData := minionData[key := data[key]];
      } else if schema.extraFields == SaveToCategory {
        categoryData := categoryData[key := data[key]];
      }
    }
  }

  // ---------- what is refused, and where a value goes ----------

  /** The field that counts for its name: no later one has the same. */
  predicate IsFieldAt(fields: seq<Field>, i: int) {
    0 <= i < |fields| && forall j :: i < j < |fields| ==> fields[j].name != fields[i].name
  }

  predicate IsUnknown(fields: seq<Field>, key: string) {
    forall i :: 0 <= i < |fields| ==> fields[i].name != key
  }

  lemma {:induction false} LastOfNameCounts(fields: seq<Field>, i: int)
    requires IsFieldAt(fields, i)
    ensures FieldNamed(fields, fields[i].name) == Some(fields[i])
  {
    if i < |fields| - 1 {
      LastOfNameCounts(fields[..|fields| - 1], i);
    }
  }

  lemma {:induction false} UnknownHasNoField(fields: seq<Field>, key: string)
    ensures IsUnknown(fields, key) <==> FieldNamed(fields, key).None?
    ensures !IsUnknown(fields, key) ==> exists i :: IsFieldAt(fields, i) && fields[i].name == key
  {
    if fields != [] {
      var n := |fields| - 1;
      UnknownHasNoField(fields[..n], key);
      if fields[n].name == key {
        assert IsFieldAt(fields, n);
      } else if !IsUnknown(fields[..n], key) {
        var i :| IsFieldAt(fields[..n], i) && fields[..n][i].name == key;
        assert IsFieldAt(fields, i);
      }
    }
  }

  /** A value is accepted in the type of its field, an integer as a float, and the text of a date as that date. */
  lemma AcceptedTypes(value: Value, fieldType: FieldType, parse: DateParser)
    ensures CleanFieldValue(value, fieldType, parse) == Some(value) <==>
      HasType(value, fieldType) || (fieldType == FloatType && value.Int?)
    ensures
      CleanFieldValue(value, fieldType, parse) != Some(value) ==>
        CleanFieldValue(value, fieldType, parse) ==
          if fieldType != DateTimeType || !value.Text? then None
          else if parse(value.text) == None then None
          else Some(Date(parse(value.text).value))
  {
  }

  predicate IsEmpty(value: Value) {
    value == Null || value == Text("")
  }

  /** An empty value where none is allowed, or one of another type. */
  predicate IsMisfit(field: Field, value: Value, parse: DateParser) {
    if IsEmpty(value) then !field.isEmptyAllowed
    else
      && !HasType(value, field.fieldType)
      && !(field.fieldType == FloatType && value.Int?)
      && !(field.fieldType == DateTimeType && value.Text? && parse(value.text).Some?)
  }

  ghost predicate HasMisfit(schema: Schema, data: Data, parse: DateParser) {
    exists i :: IsFieldAt(schema.fields, i) && schema.fields[i].name in data
      && IsMisfit(schema.fields[i], data[schema.fields[i].name], parse)
  }

  ghost predicate HasForbidden(schema: Schema, data: Data) {
    schema.extraFields == Ignore && exists key :: key in data && IsUnknown(schema.fields, key)
  }

  /** Missing are the fields that may not be empty; where only the own part is given, only those of the own part. */
  predicate HasMissing(schema: Schema, data: Data, isMinionDataOnly: bool) {
    exists field :: field in schema.fields && field.name !in data && !field.isEmptyAllowed
      && (isMinionDataOnly ==> field.isMinionField)
  }

  lemma EntryFailsExactly(schema: Schema, key: string, value: Value, parse: DateParser)
    ensures IsUnknown(schema.fields, key) ==>
      (CleanEntry(schema, key, value, parse).Err? <==> schema.extraFields == Ignore)
    ensures forall i :: IsFieldAt(schema.fields, i) && schema.fields[i].name == key ==>
      (CleanEntry(schema, key, value, parse).Err? <==> IsMisfit(schema.fields[i], value, parse))
  {
    UnknownHasNoField(schema.fields, key);
    forall i | IsFieldAt(schema.fields, i) && schema.fields[i].name == key
      ensures CleanEntry(schema, key, value, parse).Err? <==> IsMisfit(schema.fields[i], value, parse)
    {
      LastOfNameCounts(schema.fields, i);
    }
  }

  lemma BadEntryFails(schema: Schema, data: Data, isMinionDataOnly: bool, parse: DateParser, key: string)
    requires key in data && CleanEntry(schema, key, data[key], parse).Err?
    ensures Clean(schema, data, isMinionDataOnly, parse).Err?
    ensures HasMisfit(schema, data, parse) || HasForbidden(schema, data)
  {
    EntryErrorIsListed(schema, data, isMinionDataOnly, parse, key);
    EntryFailsExactly(schema, key, data[key], parse);
    UnknownHasNoField(schema.fields, key);
  }

  /** Data is refused exactly for a value that does not fit, an unknown field that is not kept, or a missing one. */
  lemma RefusedExactly(schema: Schema, data: Data, isMinionDataOnly: bool, parse: DateParser)
    ensures Clean(schema, data, isMinionDataOnly, parse).Err? <==>
      || HasMisfit(schema, data, parse) || HasForbidden(schema, data)
      || HasMissing(schema, data, isMinionDataOnly)
  {
    forall key | key in data && CleanEntry(schema, key, data[key], parse).Err?
      ensures Clean(schema, data, isMinionDataOnly, parse).Err?
      ensures HasMisfit(schema, data, parse) || HasForbidden(schema, data)
    {
      BadEntryFails(schema, data, isMinionDataOnly, parse, key);
    }
    forall key | key in data
      ensures IsUnknown(schema.fields, key) && schema.extraFields == Ignore ==>
        CleanEntry(schema, key, data[key], parse).Err?
      ensures forall i :: IsFieldAt(schema.fields, i) && schema.fields[i].name == key ==>
        (CleanEntry(schema, key, data[key], parse).Err? <==> IsMisfit(schema.fields[i], data[key], parse))
    {
      EntryFailsExactly(schema, key, data[key], parse);
    }
    if HasMissing(schema, data, isMinionDataOnly) {
      var field :| field in schema.fields && field.name !in data && !field.isEmptyAllowed
        && (isMinionDataOnly ==> field.isMinionField);
      MissingFieldIsListed(schema, data, isMinionDataOnly, parse, field);
    }
  }

  /** Accepted data keeps its fields and their values, but for the texts of dates, which become dates. */
  lemma AcceptedKeepsValues(schema: Schema, data: Data, isMinionDataOnly: bool, parse: DateParser, key: string)
    requires Clean(schema, data, isMinionDataOnly, parse).Ok?
    ensures
      var cleaned := Clean(schema, data, isMinionDataOnly, parse).value;
      && (key in cleaned <==> key in data)
      && (key in data && cleaned[key] != data[key] ==>
            && data[key].Text? && parse(data[key].text).Some?
            && cleaned[key] == Date(parse(data[key].text).value)
            && exists i :: IsFieldAt(schema.fields, i) && schema.fields[i].name == key
                 && schema.fields[i].fieldType == DateTimeType)
  {
    if key in data {
      NoErrors(schema, data, isMinionDataOnly, parse);
      UnknownHasNoField(schema.fields, key);
      if i :| IsFieldAt(schema.fields, i) && schema.fields[i].name == key {
        LastOfNameCounts(schema.fields, i);
        AcceptedTypes(data[key], schema.fields[i].fieldType, parse);
      }
    }
  }

  /** A minion field is stored in the entry and any other field of the schema in the shared data, as it is. */
  lemma FieldsGoWhereTheyBelong(schema: Schema, data: Data, i: int)
    requires IsFieldAt(schema.fields, i) && schema.fields[i].name in data
    ensures
      var field := schema.fields[i];
      var there, other :=
        if field.isMinionField then MinionPart(schema, data) else CategoryPart(schema, data),
        if field.isMinionField then CategoryPart(schema, data) else MinionPart(schema, data);
      field.name in there && there[field.name] == data[field.name] && field.name !in other
  {
    LastOfNameCounts(schema.fields, i);
  }

  /** Unknown fields go where the category says, or nowhere; neither part has anything that was not given. */
  lemma UnknownGoWhereTheCategorySays(schema: Schema, data: Data, key: string)
    ensures IsUnknown(schema.fields, key) && key in data ==>
      && (key in MinionPart(schema, data) <==> schema.extraFields == SaveToMinion)
      && (key in CategoryPart(schema, data) <==> schema.extraFields == SaveToCategory)
    ensures key in MinionPart(schema, data) ==> key in data && MinionPart(schema, data)[key] == data[key]
    ensures key in CategoryPart(schema, data) ==> key in data && CategoryPart(schema, data)[key] == data[key]
  {
    UnknownHasNoField(schema.fields, key);
  }

  // ---------- round trips ----------

  lemma CleanedEntryIsClean(schema: Schema, key: string, value: Value, parse: DateParser)
    requires CleanEntry(schema, key, value, parse).Ok?
    ensures CleanEntry(schema, key, CleanEntry(schema, key, value, parse).value, parse) ==
      CleanEntry(schema, key, value, parse)
  {
  }

  /** Cleaning cleaned data changes nothing. */
  lemma CleanTwice(schema: Schema, data: Data, isMinionDataOnly: bool, parse: DateParser)
    requires Clean(schema, data, isMinionDataOnly, parse).Ok?
    ensures
      var cleaned := Clean(schema, data, isMinionDataOnly, parse).value;
      Clean(schema, cleaned, isMinionDataOnly, parse) == Ok(cleaned)
  {
    var cleaned := Clean(schema, data, isMinionDataOnly, parse).value;
    NoErrors(schema, data, isMinionDataOnly, parse);
    forall key | key in cleaned
      ensures CleanEntry(schema, key, cleaned[key], parse) == Ok(cleaned[key])
    {
      CleanedEntryIsClean(schema, key, data[key], parse);
    }
    assert CleanErrors(schema, cleaned, isMinionDataOnly, parse) == {};
    assert Clean(schema, cleaned, isMinionDataOnly, parse).value == cleaned;
  }

  /** Data is split into two parts without a common field, and a reader gets cleaned data back whole. */
  lemma SplitThenReadBack(schema: Schema, data: Data, isMinionDataOnly: bool, parse: DateParser)
    requires Clean(schema, data, isMinionDataOnly, parse).Ok?
    ensures
      var cleaned := Clean(schema, data, isMinionDataOnly, parse).value;
      && CategoryPart(schema, cleaned).Keys !! MinionPart(schema, cleaned).Keys
      && ReadBack(CategoryPart(schema, cleaned), MinionPart(schema, cleaned)) == cleaned
  {
    var cleaned := Clean(schema, data, isMinionDataOnly, parse).value;
    NoErrors(schema, data, isMinionDataOnly, parse);
    forall key | key in cleaned
      ensures GoesToCategory(schema, key) <==> !GoesToMinion(schema, key)
    {
      assert CleanEntry(schema, key, data[key], parse).Ok?;
    }
  }

  /** Any data at all comes back whole exactly when it has no unknown field that the category ignores. */
  lemma ReadBackIsWhole(schema: Schema, data: Data)
    ensures ReadBack(CategoryPart(schema, data), MinionPart(schema, data)) == data <==>
      (schema.extraFields == Ignore ==> forall key :: key in data ==> FieldNamed(schema.fields, key).Some?)
  {
    var back := ReadBack(CategoryPart(schema, data), MinionPart(schema, data));
    assert forall key :: key in data ==>
      (key in back <==> GoesToCategory(schema, key) || GoesToMinion(schema, key));
    assert forall key :: key in back ==> key in data && back[key] == data[key];
    if forall key :: key in data ==> GoesToCategory(schema, key) || GoesToMinion(schema, key) {
      assert back == data;
    }
  }
}
