/**
 Query documents and the collection slugs they refer to
 (saltbox_core/minion_collections/utils/collection_filter.py).
 */
module CollectionFilter {
  import opened Wrappers

  /** A query value. An Obj lists its fields in insertion order; Leaf stands for numbers, booleans and null. */
  datatype Json = Str(text: string) | Leaf(value: int) | Arr(items: seq<Json>) | Obj(fields: seq<Field>)

  datatype Field = Field(key: string, value: Json)

  const COLLECTION_FILTER_FIELD := "collection"

  datatype Filter = Filter(negated: bool, slugs: seq<string>)

  datatype FilterError = MalformedFilter

  predicate AllStrings(items: seq<Json>) {
    forall i :: 0 <= i < |items| ==> items[i].Str?
  }

  predicate IsFilter(value: Json) {
    && value.Obj? && |value.fields| == 1
    && value.fields[0].key in ["$in", "$nin"]
    && value.fields[0].value.Arr?
    && AllStrings(value.fields[0].value.items)
  }

  function Texts(items: seq<Json>): (r: seq<string>)
    requires AllStrings(items)
    ensures |r| == |items|
  {
    seq(|items|, i requires 0 <= i < |items| => items[i].text)
  }

  /** parse_collection_filter: exactly one of `$in` and `$nin`, with a list of strings. */
  function ParseCollectionFilter(value: Json): Result<Filter, FilterError> {
    if IsFilter(value) then
      Ok(Filter(value.fields[0].key == "$nin", Texts(value.fields[0].value.items)))
    else
      Err(MalformedFilter)
  }

  /** The document with that operator and these texts. */
  function Listing(operator: string, texts: seq<string>): Json {
    Obj([Field(operator, Arr(seq(|texts|, i requires 0 <= i < |texts| => Str(texts[i]))))])
  }

  /** A filter is well formed exactly as `{"$in": [..]}` or `{"$nin": [..]}` with texts, which are its slugs. */
  lemma FilterIsListing(value: Json)
    ensures ParseCollectionFilter(value).Ok? <==>
      exists texts :: value == Listing("$in", texts) || value == Listing("$nin", texts)
    ensures forall texts :: ParseCollectionFilter(Listing("$in", texts)) == Ok(Filter(false, texts))
    ensures forall texts :: ParseCollectionFilter(Listing("$nin", texts)) == Ok(Filter(true, texts))
  {
    forall texts, operator | operator in ["$in", "$nin"]
      ensures IsFilter(Listing(operator, texts)) && Texts(Listing(operator, texts).fields[0].value.items) == texts
    {
    }
    if ParseCollectionFilter(value).Ok? {
      var field := value.fields[0];
      assert field.value == Arr(Listing(field.key, Texts(field.value.items)).fields[0].value.items);
      assert value == Listing(field.key, Texts(field.value.items));
    }
  }

  /** What a document with one filter names, and that it is well formed. */
  lemma ListingRefers(operator: string, texts: seq<string>, slug: string)
    requires operator in ["$in", "$nin"]
    ensures FiltersParse(Obj([Field("collection", Listing(operator, texts))]))
    ensures Refers(Obj([Field("collection", Listing(operator, texts))]), slug) <==> slug in texts
  {
    FilterIsListing(Listing(operator, texts));
    var f := Field("collection", Listing(operator, texts));
    assert f in [f] && forall g :: g in [f] ==> g == f;
  }

  function FilterSlugs(value: Json): set<string> {
    match ParseCollectionFilter(value)
    case Ok(filter) => set s | s in filter.slugs
    case Err(_) => {}
  }

  /** Every `collection` key, however deep, holds a well-formed filter. */
  predicate FiltersParse(query: Json) {
    match query
    case Obj(fields) => forall f | f in fields ::
      if f.key == COLLECTION_FILTER_FIELD then IsFilter(f.value) else FiltersParse(f.value)
    case Arr(items) => forall q | q in items :: FiltersParse(q)
    case _ => true
  }

  /** The slugs named by the `collection` keys at any depth. */
  ghost predicate Refers(query: Json, slug: string) {
    match query
    case Obj(fields) => exists f | f in fields ::
      if f.key == COLLECTION_FILTER_FIELD then slug in FilterSlugs(f.value) else Refers(f.value, slug)
    case Arr(items) => exists q | q in items :: Refers(q, slug)
    case _ => false
  }

  /** get_referenced_slugs. */
  method GetReferencedSlugs(query: Json) returns (r: Result<set<string>, FilterError>)
    ensures r.Ok? <==> FiltersParse(query)
    ensures r.Ok? ==> forall slug :: slug in r.value <==> Refers(query, slug)
  {
    var slugs: set<string> := {};
    match query {
      case Obj(fields) =>
        for i := 0 to |fields|
          invariant FiltersParse(Obj(fields[..i]))
          invariant forall slug :: slug in slugs <==> Refers(Obj(fields[..i]), slug)
        {
          var f := fields[i];
          assert fields[..i + 1] == fields[..i] + [f];
          assert f in fields;
          if f.key == COLLECTION_FILTER_FIELD {
            if !IsFilter(f.value) {
              return Err(MalformedFilter);
            }
            slugs := slugs + FilterSlugs(f.value);
          } else {
            var inner := GetReferencedSlugs(f.value);
            if inner.Err? {
              return Err(MalformedFilter);
            }
            slugs := slugs + inner.value;
          }
          ReferredByAppendedField(fields[..i], f);
        }
        assert fields[..|fields|] == fields;
      case Arr(items) =>
        for i := 0 to |items|
          invariant FiltersParse(Arr(items[..i]))
          invariant forall slug :: slug in slugs <==> Refers(Arr(items[..i]), slug)
        {
          assert items[..i + 1] == items[..i] + [items[i]];
          assert items[i] in items;
          var inner := GetReferencedSlugs(items[i]);
          if inner.Err? {
            return Err(MalformedFilter);
          }
          slugs := slugs + inner.value;
          ReferredByAppendedItem(items[..i], items[i]);
        }
        assert items[..|items|] == items;
      case _ =>
    }
    r := Ok(slugs);
  }

  ghost predicate FieldRefers(f: Field, slug: string) {
    if f.key == COLLECTION_FILTER_FIELD then slug in FilterSlugs(f.value) else Refers(f.value, slug)
  }

  lemma ReferredByAppendedField(fields: seq<Field>, f: Field)
    ensures forall slug :: Refers(Obj(fields + [f]), slug) <==> Refers(Obj(fields), slug) || FieldRefers(f, slug)
  {
    forall slug
      ensures Refers(Obj(fields + [f]), slug) <==> Refers(Obj(fields), slug) || FieldRefers(f, slug)
    {
      assert forall g :: g in fields + [f] <==> g in fields || g == f;
    }
  }

  lemma ReferredByAppendedItem(items: seq<Json>, item: Json)
    ensures forall slug :: Refers(Arr(items + [item]), slug) <==> Refers(Arr(items), slug) || Refers(item, slug)
  {
    forall slug
      ensures Refers(Arr(items + [item]), slug) <==> Refers(Arr(items), slug) || Refers(item, slug)
    {
      assert forall q :: q in items + [item] <==> q in items || q == item;
    }
  }
}
