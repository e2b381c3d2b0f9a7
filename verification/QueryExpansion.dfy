/**
 Rewriting a query with `collection` filters into one without
 (_expand_collection_condition and _expand_query_collections in
 saltbox_core/minion_collections/repositories/minion.py).
 */
module QueryExpansion {
  import opened Wrappers
  import opened CollectionFilter

  /** A stored collection, as the repository lists it: its slug and its own query joined with its ancestors'. */
  datatype Stored = Stored(slug: string, fullQuery: Json)

  datatype ExpandError = MalformedCondition | CyclicReference(slugs: seq<string>)

  type Expanded<T> = Result<T, ExpandError>

  // ---------- the rewriting ----------

  /** The slugs that can still be entered. */
  function Enterable(cs: seq<Stored>, parents: seq<string>): set<string> {
    set c | c in cs && c.slug !in parents :: c.slug
  }

  /** The first of the slugs that is being expanded already. */
  function FirstRepeated(slugs: seq<string>, parents: seq<string>): (r: Option<string>)
    ensures r.None? <==> forall s :: s in slugs ==> s !in parents
    ensures r.Some? ==> r.value in slugs && r.value in parents
  {
    if slugs == [] then None
    else if slugs[0] in parents then Some(slugs[0])
    else FirstRepeated(slugs[1..], parents)
  }

  function IndexOf(s: string, ss: seq<string>): (i: nat)
    requires s in ss
    ensures i < |ss| && ss[i] == s
  {
    if ss[0] == s then 0 else 1 + IndexOf(s, ss[1..])
  }

  /** The stored collections with one of the slugs, in the order of the store. */
  function Select(cs: seq<Stored>, slugs: seq<string>): (r: seq<Stored>)
    ensures forall c :: c in r <==> c in cs && c.slug in slugs
  {
    if cs == [] then []
    else (if cs[0].slug in slugs then [cs[0]] else []) + Select(cs[1..], slugs)
  }

  const NOBODY := Obj([Field("$in", Arr([]))])

  /** What a filter turns into, given the expanded queries of the collections it selects. */
  function Condition(negated: bool, queries: seq<Json>): seq<Field> {
    if negated then
      if queries == [] then [] else [Field("$nor", Arr(queries))]
    else
      if queries == [] then [Field("_id", NOBODY)] else [Field("$or", Arr(queries))]
  }

  /** Assigning to a dictionary key: an existing entry is replaced where it stands. */
  function Put(fields: seq<Field>, f: Field): seq<Field> {
    if fields == [] then [f]
    else if fields[0].key == f.key then [f] + fields[1..]
    else [fields[0]] + Put(fields[1..], f)
  }

  function Update(fields: seq<Field>, added: seq<Field>): seq<Field>
    requires |added| <= 1
  {
    if added == [] then fields else Put(fields, added[0])
  }

  function Expand(cs: seq<Stored>, query: Json, parents: seq<string>): Expanded<Json>
    decreases Enterable(cs, parents), 1, query
  {
    match query
    case Obj(fields) =>
      (match ExpandFields(cs, fields, parents)
       case Ok(done) => Ok(Obj(done))
       case Err(e) => Err(e))
    case Arr(items) =>
      (match ExpandItems(cs, items, parents)
       case Ok(done) => Ok(Arr(done))
       case Err(e) => Err(e))
    case _ => Ok(query)
  }

  function ExpandFields(cs: seq<Stored>, fields: seq<Field>, parents: seq<string>): Expanded<seq<Field>>
    decreases Enterable(cs, parents), 1, fields
  {
    if fields == [] then Ok([]) else
    var f := fields[|fields| - 1];
    match ExpandFields(cs, fields[..|fields| - 1], parents)
    case Err(e) => Err(e)
    case Ok(done) =>
      match ExpandField(cs, f, parents)
      case Err(e) => Err(e)
      case Ok(added) => Ok(Update(done, added))
  }

  /** The entries one field contributes: itself with its value expanded, or the condition of its filter. */
  function ExpandField(cs: seq<Stored>, f: Field, parents: seq<string>): (r: Expanded<seq<Field>>)
    ensures r.Ok? ==> |r.value| <= 1
    decreases Enterable(cs, parents), 1, f
  {
    if f.key == COLLECTION_FILTER_FIELD then ExpandCondition(cs, f.value, parents)
    else
      match Expand(cs, f.value, parents)
      case Err(e) => Err(e)
      case Ok(value) => Ok([Field(f.key, value)])
  }

  function ExpandItems(cs: seq<Stored>, items: seq<Json>, parents: seq<string>): Expanded<seq<Json>>
    decreases Enterable(cs, parents), 1, items
  {
    if items == [] then Ok([]) else
    match ExpandItems(cs, items[..|items| - 1], parents)
    case Err(e) => Err(e)
    case Ok(done) =>
      match Expand(cs, items[|items| - 1], parents)
      case Err(e) => Err(e)
      case Ok(item) => Ok(done + [item])
  }

  function ExpandCondition(cs: seq<Stored>, value: Json, parents: seq<string>): (r: Expanded<seq<Field>>)
    ensures r.Ok? ==> |r.value| <= 1
    decreases Enterable(cs, parents), 1, value
  {
    match ParseCollectionFilter(value)
    case Err(_) => Err(MalformedCondition)
    case Ok(filter) =>
      match FirstRepeated(filter.slugs, parents)
      case Some(slug) => Err(CyclicReference(parents[IndexOf(slug, parents)..] + [slug]))
      case None =>
        match ExpandStored(cs, Select(cs, filter.slugs), parents)
        case Err(e) => Err(e)
        case Ok(queries) => Ok(Condition(filter.negated, queries))
  }

  function ExpandStored(cs: seq<Stored>, chosen: seq<Stored>, parents: seq<string>): Expanded<seq<Json>>
    requires forall c :: c in chosen ==> c in cs && c.slug !in parents
    decreases Enterable(cs, parents), 0, chosen
  {
    if chosen == [] then Ok([]) else
    var c := chosen[|chosen| - 1];
    match ExpandStored(cs, chosen[..|chosen| - 1], parents)
    case Err(e) => Err(e)
    case Ok(done) =>
      assert c.slug in Enterable(cs, parents) && c.slug !in Enterable(cs, parents + [c.slug]);
      match Expand(cs, c.fullQuery, parents + [c.slug])
      case Err(e) => Err(e)
      case Ok(query) => Ok(done + [query])
  }

  // ---------- the rewriting as it runs ----------

  method ExpandQueryCollections(cs: seq<Stored>, query: Json, parents: seq<string>) returns (r: Expanded<Json>)
    ensures r == Expand(cs, query, parents)
    decreases Enterable(cs, parents), 1, query
  {
    match query {
      case Obj(fields) =>
        var expanded: seq<Field> := [];
        for i := 0 to |fields|
          invariant ExpandFields(cs, fields[..i], parents) == Ok(expanded)
        {
          var f := fields[i];
          assert f in fields;
          assert fields[..i + 1][..i] == fields[..i];
          var added: Expanded<seq<Field>>;
          if f.key == COLLECTION_FILTER_FIELD {
            added := ExpandCollectionCondition(cs, f.value, parents);
          } else {
            var value := ExpandQueryCollections(cs, f.value, parents);
            added := if value.Ok? then Ok([Field(f.key, value.value)]) else Err(value.error);
          }
          assert added == ExpandField(cs, f, parents);
          if added.Err? {
            FieldErrorEndsExpansion(cs, fields, parents, i + 1, added.error);
            return Err(added.error);
          }
          expanded := Update(expanded, added.value);
        }
        assert fields[..|fields|] == fields;
        r := Ok(Obj(expanded));
      case Arr(items) =>
        var expanded: seq<Json> := [];
        for i := 0 to |items|
          invariant ExpandItems(cs, items[..i], parents) == Ok(expanded)
        {
          assert items[i] in items;
          assert items[..i + 1][..i] == items[..i];
          var item := ExpandQueryCollections(cs, items[i], parents);
          if item.Err? {
            ItemErrorEndsExpansion(cs, items, parents, i + 1, item.error);
            return Err(item.error);
          }
          expanded := expanded + [item.value];
        }
        assert items[..|items|] == items;
        r := Ok(Arr(expanded));
      case _ =>
        r := Ok(query);
    }
  }

  method ExpandCollectionCondition(cs: seq<Stored>, value: Json, parents: seq<string>)
    returns (r: Expanded<seq<Field>>)
    ensures r == ExpandCondition(cs, value, parents)
    decreases Enterable(cs, parents), 1, value
  {
    var parsed := ParseCollectionFilter(value);
    if parsed.Err? {
      return Err(MalformedCondition);
    }
    var slugs := parsed.value.slugs;
    var repeated := FirstRepeated(slugs, parents);
    if repeated.Some? {
      return Err(CyclicReference(parents[IndexOf(repeated.value, parents)..] + [repeated.value]));
    }
    var chosen := Select(cs, slugs);
    var queries: seq<Json> := [];
    for i := 0 to |chosen|
      invariant ExpandStored(cs, chosen[..i], parents) == Ok(queries)
    {
      var c := chosen[i];
      FewerAreEnterable(cs, parents, c);
      StoredOneMore(cs, chosen, parents, i, queries);
      var query := ExpandQueryCollections(cs, c.fullQuery, parents + [c.slug]);
      if query.Err? {
        StoredErrorEndsExpansion(cs, chosen, parents, i + 1, query.error);
        return Err(query.error);
      }
      queries := queries + [query.value];
    }
    assert chosen[..|chosen|] == chosen;
    r := Ok(Condition(parsed.value.negated, queries));
  }

  /** A collection that is entered cannot be entered again on the way. */
  lemma FewerAreEnterable(cs: seq<Stored>, parents: seq<string>, c: Stored)
    requires c in cs && c.slug !in parents
    ensures c.slug in Enterable(cs, parents) && c.slug !in Enterable(cs, parents + [c.slug])
    ensures Enterable(cs, parents + [c.slug]) < Enterable(cs, parents)
  {
  }

  lemma {:induction false} StoredOneMore(
    cs: seq<Stored>, chosen: seq<Stored>, parents: seq<string>, i: nat, queries: seq<Json>)
    requires forall c :: c in chosen ==> c in cs && c.slug !in parents
    requires i < |chosen| && ExpandStored(cs, chosen[..i], parents) == Ok(queries)
    ensures chosen[i] in chosen
    ensures ExpandStored(cs, chosen[..i + 1], parents) ==
      match Expand(cs, chosen[i].fullQuery, parents + [chosen[i].slug])
      case Err(e) => Err(e)
      case Ok(query) => Ok(queries + [query])
  {
    assert chosen[..i + 1][..i] == chosen[..i];
  }

  lemma {:induction false} FieldErrorEndsExpansion(
    cs: seq<Stored>, fields: seq<Field>, parents: seq<string>, n: nat, e: ExpandError)
    requires n <= |fields| && ExpandFields(cs, fields[..n], parents) == Err(e)
    ensures ExpandFields(cs, fields, parents) == Err(e)
    decreases |fields| - n
  {
    if n < |fields| {
      assert fields[..n + 1][..n] == fields[..n];
      FieldErrorEndsExpansion(cs, fields, parents, n + 1, e);
    } else {
      assert fields[..n] == fields;
    }
  }

  lemma {:induction false} ItemErrorEndsExpansion(
    cs: seq<Stored>, items: seq<Json>, parents: seq<string>, n: nat, e: ExpandError)
    requires n <= |items| && ExpandItems(cs, items[..n], parents) == Err(e)
    ensures ExpandItems(cs, items, parents) == Err(e)
    decreases |items| - n
  {
    if n < |items| {
      assert items[..n + 1][..n] == items[..n];
      ItemErrorEndsExpansion(cs, items, parents, n + 1, e);
    } else {
      assert items[..n] == items;
    }
  }

  lemma {:induction false} StoredErrorEndsExpansion(
    cs: seq<Stored>, chosen: seq<Stored>, parents: seq<string>, n: nat, e: ExpandError)
    requires forall c :: c in chosen ==> c in cs && c.slug !in parents
    requires n <= |chosen| && ExpandStored(cs, chosen[..n], parents) == Err(e)
    ensures ExpandStored(cs, chosen, parents) == Err(e)
    decreases |chosen| - n
  {
    if n < |chosen| {
      assert chosen[..n + 1][..n] == chosen[..n];
      StoredErrorEndsExpansion(cs, chosen, parents, n + 1, e);
    } else {
      assert chosen[..n] == chosen;
    }
  }

  // ---------- the collections being expanded only decide failure, never the result ----------

  lemma {:induction false} ParentsDoNotChangeResult(cs: seq<Stored>, query: Json, ps: seq<string>, qs: seq<string>)
    requires Expand(cs, query, ps).Ok? && Expand(cs, query, qs).Ok?
    ensures Expand(cs, query, ps) == Expand(cs, query, qs)
    decreases Enterable(cs, ps), 1, query
  {
    match query
    case Obj(fields) => ParentsDoNotChangeFields(cs, fields, ps, qs);
    case Arr(items) => ParentsDoNotChangeItems(cs, items, ps, qs);
    case _ =>
  }

  lemma {:induction false} ParentsDoNotChangeFields(
    cs: seq<Stored>, fields: seq<Field>, ps: seq<string>, qs: seq<string>)
    requires ExpandFields(cs, fields, ps).Ok? && ExpandFields(cs, fields, qs).Ok?
    ensures ExpandFields(cs, fields, ps) == ExpandFields(cs, fields, qs)
    decreases Enterable(cs, ps), 1, fields
  {
    if fields != [] {
      var f := fields[|fields| - 1];
      ParentsDoNotChangeFields(cs, fields[..|fields| - 1], ps, qs);
      ParentsDoNotChangeField(cs, f, ps, qs);
    }
  }

  lemma {:induction false} ParentsDoNotChangeField(cs: seq<Stored>, f: Field, ps: seq<string>, qs: seq<string>)
    requires ExpandField(cs, f, ps).Ok? && ExpandField(cs, f, qs).Ok?
    ensures ExpandField(cs, f, ps) == ExpandField(cs, f, qs)
    decreases Enterable(cs, ps), 1, f
  {
    if f.key == COLLECTION_FILTER_FIELD {
      var filter := ParseCollectionFilter(f.value).value;
      ParentsDoNotChangeStored(cs, Select(cs, filter.slugs), ps, qs);
    } else {
      ParentsDoNotChangeResult(cs, f.value, ps, qs);
    }
  }

  lemma {:induction false} ParentsDoNotChangeItems(cs: seq<Stored>, items: seq<Json>, ps: seq<string>, qs: seq<string>)
    requires ExpandItems(cs, items, ps).Ok? && ExpandItems(cs, items, qs).Ok?
    ensures ExpandItems(cs, items, ps) == ExpandItems(cs, items, qs)
    decreases Enterable(cs, ps), 1, items
  {
    if items != [] {
      ParentsDoNotChangeItems(cs, items[..|items| - 1], ps, qs);
      ParentsDoNotChangeResult(cs, items[|items| - 1], ps, qs);
    }
  }

  lemma {:induction false} ParentsDoNotChangeStored(
    cs: seq<Stored>, chosen: seq<Stored>, ps: seq<string>, qs: seq<string>)
    requires forall c :: c in chosen ==> c in cs && c.slug !in ps && c.slug !in qs
    requires ExpandStored(cs, chosen, ps).Ok? && ExpandStored(cs, chosen, qs).Ok?
    ensures ExpandStored(cs, chosen, ps) == ExpandStored(cs, chosen, qs)
    decreases Enterable(cs, ps), 0, chosen
  {
    if chosen != [] {
      var c := chosen[|chosen| - 1];
      assert c.slug in Enterable(cs, ps) && c.slug !in Enterable(cs, ps + [c.slug]);
      ParentsDoNotChangeStored(cs, chosen[..|chosen| - 1], ps, qs);
      ParentsDoNotChangeResult(cs, c.fullQuery, ps + [c.slug], qs + [c.slug]);
    }
  }
}
