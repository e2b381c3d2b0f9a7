/**
 What queries mean for a minion, and what expanding their `collection` filters does to that meaning.

 A minion is given by the ordinary conditions it satisfies. Which collections it belongs to is given by a
 membership: any assignment of truth values to the stored slugs that agrees with the stored queries.
 */
module QueryMeaning {
  import opened Wrappers
  import opened CollectionFilter
  import opened QueryExpansion

  /** Whether the minion satisfies the ordinary condition `key: value`. */
  type Minion = (string, Json) -> bool

  type Membership = string -> bool

  predicate IsLogical(f: Field) {
    f.key in ["$and", "$or", "$nor"] && f.value.Arr?
  }

  // ---------- queries without collection filters ----------

  predicate Matches(m: Minion, query: Json) {
    query.Obj? && forall f | f in query.fields :: MatchesField(m, f)
  }

  predicate MatchesField(m: Minion, f: Field) {
    if IsLogical(f) then
      if f.key == "$and" then forall q | q in f.value.items :: Matches(m, q)
      else if f.key == "$or" then exists q | q in f.value.items :: Matches(m, q)
      else forall q | q in f.value.items :: !Matches(m, q)
    else if f.key == "_id" && f.value == Obj([Field("$in", Arr([]))]) then false
    else m(f.key, f.value)
  }

  // ---------- queries with collection filters ----------

  predicate IsStored(cs: seq<Stored>, slug: string) {
    exists c :: c in cs && c.slug == slug
  }

  /** The document has the form of a filter: one operator and a list. */
  predicate IsOperation(value: Json) {
    value.Obj? && |value.fields| == 1 && value.fields[0].value.Arr?
  }

  /** One of the listed slugs is that of a stored collection. */
  predicate SelectsAny(cs: seq<Stored>, items: seq<Json>) {
    exists t :: t in items && t.Str? && IsStored(cs, t.text)
  }

  /** The minion belongs to a stored collection with one of the listed slugs. */
  predicate InSome(cs: seq<Stored>, member: Membership, items: seq<Json>) {
    exists t :: t in items && t.Str? && IsStored(cs, t.text) && member(t.text)
  }

  /** `$in` asks for some of the listed collections, `$nin` for none. */
  predicate MeansFilter(cs: seq<Stored>, member: Membership, value: Json) {
    && IsOperation(value)
    && match value.fields[0].key
       case "$in" => InSome(cs, member, value.fields[0].value.items)
       case "$nin" => !InSome(cs, member, value.fields[0].value.items)
       case _ => false
  }

  /** The dictionary key under which a field ends up after expansion, if it ends up anywhere. */
  function ExpandedKey(cs: seq<Stored>, f: Field): Option<string> {
    if f.key != COLLECTION_FILTER_FIELD then Some(f.key)
    else if !IsOperation(f.value) then None
    else if SelectsAny(cs, f.value.fields[0].value.items) then
      Some(if f.value.fields[0].key == "$nin" then "$nor" else "$or")
    else if f.value.fields[0].key == "$nin" then None
    else Some("_id")
  }

  /** A later field of the same document takes the dictionary key of the i-th. */
  predicate IsOverwritten(cs: seq<Stored>, fields: seq<Field>, i: nat)
    requires i < |fields|
  {
    && ExpandedKey(cs, fields[i]).Some?
    && exists j :: i < j < |fields| && ExpandedKey(cs, fields[j]) == ExpandedKey(cs, fields[i])
  }

  /**
   The meaning of a query whose collection filters select by membership.
   With `kept` only the fields that no later one overwrites count; without it all do, as is meant.
   */
  ghost predicate Means(cs: seq<Stored>, member: Membership, m: Minion, query: Json, kept: bool) {
    query.Obj? && forall i :: 0 <= i < |query.fields| ==>
      (kept && IsOverwritten(cs, query.fields, i)) || MeansField(cs, member, m, query.fields[i], kept)
  }

  ghost predicate MeansField(cs: seq<Stored>, member: Membership, m: Minion, f: Field, kept: bool) {
    if f.key == COLLECTION_FILTER_FIELD then
      MeansFilter(cs, member, f.value)
    else if IsLogical(f) then
      if f.key == "$and" then forall q | q in f.value.items :: Means(cs, member, m, q, kept)
      else if f.key == "$or" then exists q | q in f.value.items :: Means(cs, member, m, q, kept)
      else forall q | q in f.value.items :: !Means(cs, member, m, q, kept)
    else if f.key == "_id" && f.value == Obj([Field("$in", Arr([]))]) then false
    else m(f.key, f.value)
  }

  /** A minion belongs to a stored collection when it satisfies its full query. */
  ghost predicate IsMembership(cs: seq<Stored>, member: Membership, m: Minion, kept: bool) {
    forall c :: c in cs ==> (member(c.slug) <==> Means(cs, member, m, c.fullQuery, kept))
  }

  /** No `collection` key hides inside the value of an ordinary condition. */
  predicate IsPlaced(query: Json) {
    query.Obj? ==> forall f | f in query.fields :: IsPlacedField(f)
  }

  predicate IsPlacedField(f: Field) {
    if f.key == COLLECTION_FILTER_FIELD then true
    else if IsLogical(f) then forall q | q in f.value.items :: IsPlaced(q)
    else IsPlain(f.value)
  }

  predicate DistinctKeys(fields: seq<Field>) {
    forall i, j :: 0 <= i < j < |fields| ==> fields[i].key != fields[j].key
  }

  /** Dictionaries, lists and scalars in which no dictionary has a `collection` key. */
  predicate IsPlain(value: Json) {
    match value
    case Obj(fields) =>
      DistinctKeys(fields) && forall f | f in fields :: f.key != COLLECTION_FILTER_FIELD && IsPlain(f.value)
    case Arr(items) => forall q | q in items :: IsPlain(q)
    case _ => true
  }

  ghost predicate StoreIsPlaced(cs: seq<Stored>) {
    forall c :: c in cs ==> IsPlaced(c.fullQuery)
  }

  // ---------- dictionary updates ----------

  /** What the entries with one key demand. */
  ghost predicate KeyMatches(m: Minion, fields: seq<Field>, key: string) {
    forall f :: f in fields && f.key == key ==> MatchesField(m, f)
  }

  lemma PutEntries(fields: seq<Field>, f: Field)
    requires DistinctKeys(fields)
    ensures DistinctKeys(Put(fields, f))
    ensures forall g :: g in Put(fields, f) <==> g == f || (g in fields && g.key != f.key)
  {
    if fields != [] {
      if fields[0].key == f.key {
        assert fields == [fields[0]] + fields[1..];
      } else {
        PutEntries(fields[1..], f);
        assert fields == [fields[0]] + fields[1..];
        assert forall g :: g in fields[1..] ==> g.key != fields[0].key;
      }
    }
  }

  lemma {:induction false} PutAppendsNewKey(fields: seq<Field>, f: Field)
    requires forall g :: g in fields ==> g.key != f.key
    ensures Put(fields, f) == fields + [f]
  {
    if fields != [] {
      PutAppendsNewKey(fields[1..], f);
      assert fields == [fields[0]] + fields[1..];
    }
  }

  // ---------- plain values are left alone ----------

  lemma {:induction false} PlainExpandsToItself(cs: seq<Stored>, value: Json, parents: seq<string>)
    requires IsPlain(value)
    ensures Expand(cs, value, parents) == Ok(value)
  {
    match value
    case Obj(fields) => PlainFieldsExpandToThemselves(cs, fields, parents);
    case Arr(items) => PlainItemsExpandToThemselves(cs, items, parents);
    case _ =>
  }

  lemma {:induction false} PlainFieldsExpandToThemselves(cs: seq<Stored>, fields: seq<Field>, parents: seq<string>)
    requires IsPlain(Obj(fields))
    ensures ExpandFields(cs, fields, parents) == Ok(fields)
  {
    if fields != [] {
      var n := |fields| - 1;
      var f := fields[n];
      assert f in fields;
      PlainFieldsExpandToThemselves(cs, fields[..n], parents);
      PlainExpandsToItself(cs, f.value, parents);
      PutAppendsNewKey(fields[..n], f);
      assert fields == fields[..n] + [f];
    }
  }

  lemma {:induction false} PlainItemsExpandToThemselves(cs: seq<Stored>, items: seq<Json>, parents: seq<string>)
    requires IsPlain(Arr(items))
    ensures ExpandItems(cs, items, parents) == Ok(items)
  {
    if items != [] {
      var n := |items| - 1;
      assert items[n] in items;
      PlainItemsExpandToThemselves(cs, items[..n], parents);
      PlainExpandsToItself(cs, items[n], parents);
      assert items == items[..n] + [items[n]];
    }
  }

  // ---------- expansion keeps the meaning of what is not overwritten ----------

  /** Every collection that can still be entered is rewritten to a query its members satisfy. */
  ghost predicate EntersRightly(cs: seq<Stored>, member: Membership, m: Minion, parents: seq<string>) {
    forall c, r :: c in cs && c.slug !in parents && Expand(cs, c.fullQuery, parents + [c.slug]) == Ok(r) ==>
      (Matches(m, r) <==> member(c.slug))
  }

  lemma {:induction false} StoredQueriesMatch(
    cs: seq<Stored>, member: Membership, m: Minion, chosen: seq<Stored>, parents: seq<string>, queries: seq<Json>)
    requires EntersRightly(cs, member, m, parents)
    requires forall c :: c in chosen ==> c in cs && c.slug !in parents
    requires ExpandStored(cs, chosen, parents) == Ok(queries)
    ensures |queries| == |chosen|
    ensures forall i :: 0 <= i < |chosen| ==> (Matches(m, queries[i]) <==> member(chosen[i].slug))
  {
    if chosen != [] {
      var n := |chosen| - 1;
      assert chosen[n] in chosen;
      StoredQueriesMatch(cs, member, m, chosen[..n], parents, ExpandStored(cs, chosen[..n], parents).value);
    }
  }

  lemma {:induction false} SelectedAreListed(cs: seq<Stored>, items: seq<Json>, slug: string)
    requires AllStrings(items)
    ensures (exists c :: c in Select(cs, Texts(items)) && c.slug == slug) <==>
      IsStored(cs, slug) && exists t :: t in items && t.Str? && t.text == slug
  {
    if c :| c in Select(cs, Texts(items)) && c.slug == slug {
      var k :| 0 <= k < |items| && Texts(items)[k] == slug;
      assert items[k] in items;
    }
    if c, t :| c in cs && c.slug == slug && t in items && t.Str? && t.text == slug {
      var k :| 0 <= k < |items| && items[k] == t;
      assert Texts(items)[k] == slug && c in Select(cs, Texts(items));
    }
  }

  lemma SomeIsSelected(cs: seq<Stored>, items: seq<Json>)
    requires AllStrings(items)
    ensures SelectsAny(cs, items) <==> Select(cs, Texts(items)) != []
  {
    if t :| t in items && t.Str? && IsStored(cs, t.text) {
      SelectedAreListed(cs, items, t.text);
    }
    if Select(cs, Texts(items)) != [] {
      var c := Select(cs, Texts(items))[0];
      assert c in Select(cs, Texts(items));
      SelectedAreListed(cs, items, c.slug);
    }
  }

  lemma SomeQueryMatches(
    cs: seq<Stored>, member: Membership, m: Minion, items: seq<Json>, chosen: seq<Stored>, queries: seq<Json>)
    requires AllStrings(items) && chosen == Select(cs, Texts(items)) && |queries| == |chosen|
    requires forall i :: 0 <= i < |chosen| ==> (Matches(m, queries[i]) <==> member(chosen[i].slug))
    ensures InSome(cs, member, items) <==> exists q :: q in queries && Matches(m, q)
  {
    if t :| t in items && t.Str? && IsStored(cs, t.text) && member(t.text) {
      SelectedAreListed(cs, items, t.text);
      var c :| c in chosen && c.slug == t.text;
      var i :| 0 <= i < |chosen| && chosen[i] == c;
      assert queries[i] in queries;
    }
    if q :| q in queries && Matches(m, q) {
      var i :| 0 <= i < |queries| && queries[i] == q;
      assert chosen[i] in chosen;
      SelectedAreListed(cs, items, chosen[i].slug);
    }
  }

  lemma ConditionMatches(m: Minion, negated: bool, queries: seq<Json>)
    ensures var added := Condition(negated, queries);
            if added == [] then negated && queries == []
            else MatchesField(m, added[0]) <==> (exists q :: q in queries && Matches(m, q)) != negated
  {
  }

  /** A filter is rewritten to at most one entry, which says the same. */
  lemma ConditionMeans(
    cs: seq<Stored>, member: Membership, m: Minion, f: Field, parents: seq<string>, added: seq<Field>)
    requires EntersRightly(cs, member, m, parents)
    requires f.key == COLLECTION_FILTER_FIELD && ExpandField(cs, f, parents) == Ok(added)
    ensures added == [] ==> ExpandedKey(cs, f) == None && MeansField(cs, member, m, f, true)
    ensures added != [] ==> ExpandedKey(cs, f) == Some(added[0].key)
    ensures added != [] ==> (MatchesField(m, added[0]) <==> MeansField(cs, member, m, f, true))
  {
    var filter := ParseCollectionFilter(f.value).value;
    var chosen := Select(cs, filter.slugs);
    var queries := ExpandStored(cs, chosen, parents).value;
    StoredQueriesMatch(cs, member, m, chosen, parents, queries);
    SomeQueryMatches(cs, member, m, f.value.fields[0].value.items, chosen, queries);
    SomeIsSelected(cs, f.value.fields[0].value.items);
    ConditionMatches(m, filter.negated, queries);
  }

  /** What the fields that end up under one key, and stay there, demand. */
  ghost predicate KeyMeans(cs: seq<Stored>, member: Membership, m: Minion, fields: seq<Field>, key: string) {
    forall i :: 0 <= i < |fields| && ExpandedKey(cs, fields[i]) == Some(key) && !IsOverwritten(cs, fields, i) ==>
      MeansField(cs, member, m, fields[i], true)
  }

  lemma KeyMeansAppended(cs: seq<Stored>, member: Membership, m: Minion, fields: seq<Field>, f: Field, key: string)
    ensures KeyMeans(cs, member, m, fields + [f], key) <==>
            if ExpandedKey(cs, f) == Some(key) then MeansField(cs, member, m, f, true)
            else KeyMeans(cs, member, m, fields, key)
  {
    var all, n := fields + [f], |fields|;
    assert all[n] == f && !IsOverwritten(cs, all, n);
    forall i | 0 <= i < n && ExpandedKey(cs, all[i]) == Some(key)
      ensures IsOverwritten(cs, all, i) <==> IsOverwritten(cs, fields, i) || ExpandedKey(cs, f) == Some(key)
    {
      if j :| i < j < n && ExpandedKey(cs, fields[j]) == Some(key) {
        assert ExpandedKey(cs, all[j]) == Some(key);
      }
    }
    if KeyMeans(cs, member, m, all, key) && ExpandedKey(cs, f) != Some(key) {
      forall i | 0 <= i < n && ExpandedKey(cs, fields[i]) == Some(key) && !IsOverwritten(cs, fields, i)
        ensures MeansField(cs, member, m, fields[i], true)
      {
        assert all[i] == fields[i];
      }
    }
  }

  lemma {:induction false} ExpansionMeans(
    cs: seq<Stored>, member: Membership, m: Minion, query: Json, parents: seq<string>, r: Json)
    requires EntersRightly(cs, member, m, parents)
    requires IsPlaced(query) && Expand(cs, query, parents) == Ok(r)
    ensures Matches(m, r) <==> Means(cs, member, m, query, true)
    decreases query, 2
  {
    match query
    case Obj(fields) =>
      FieldsMean(cs, member, m, fields, parents, r.fields);
      if Matches(m, r) {
        forall i | 0 <= i < |fields| && !IsOverwritten(cs, fields, i)
          ensures MeansField(cs, member, m, fields[i], true)
        {
          if ExpandedKey(cs, fields[i]).Some? {
            assert KeyMatches(m, r.fields, ExpandedKey(cs, fields[i]).value);
          }
        }
      }
      if Means(cs, member, m, query, true) {
        forall f | f in r.fields
          ensures MatchesField(m, f)
        {
          assert KeyMeans(cs, member, m, fields, f.key);
        }
      }
    case _ =>
  }

  lemma {:induction false} FieldsMean(
    cs: seq<Stored>, member: Membership, m: Minion, fields: seq<Field>, parents: seq<string>, done: seq<Field>)
    requires EntersRightly(cs, member, m, parents)
    requires (forall f :: f in fields ==> IsPlacedField(f)) && ExpandFields(cs, fields, parents) == Ok(done)
    ensures DistinctKeys(done)
    ensures forall key :: KeyMatches(m, done, key) <==> KeyMeans(cs, member, m, fields, key)
    ensures forall i :: 0 <= i < |fields| && ExpandedKey(cs, fields[i]).None? ==>
              MeansField(cs, member, m, fields[i], true)
    decreases fields, 1
  {
    if fields != [] {
      var n := |fields| - 1;
      var f := fields[n];
      assert f in fields && fields == fields[..n] + [f];
      var before := ExpandFields(cs, fields[..n], parents).value;
      var added := ExpandField(cs, f, parents).value;
      FieldsMean(cs, member, m, fields[..n], parents, before);
      FieldMeans(cs, member, m, f, parents, added);
      if added != [] {
        PutEntries(before, added[0]);
      }
      forall key
        ensures KeyMatches(m, done, key) <==> KeyMeans(cs, member, m, fields, key)
      {
        KeyMeansAppended(cs, member, m, fields[..n], f, key);
        assert KeyMatches(m, before, key) <==> KeyMeans(cs, member, m, fields[..n], key);
      }
    }
  }

  lemma {:induction false} FieldMeans(
    cs: seq<Stored>, member: Membership, m: Minion, f: Field, parents: seq<string>, added: seq<Field>)
    requires EntersRightly(cs, member, m, parents)
    requires IsPlacedField(f) && ExpandField(cs, f, parents) == Ok(added)
    ensures added == [] ==> ExpandedKey(cs, f) == None && MeansField(cs, member, m, f, true)
    ensures added != [] ==> ExpandedKey(cs, f) == Some(added[0].key)
    ensures added != [] ==> (MatchesField(m, added[0]) <==> MeansField(cs, member, m, f, true))
    decreases f, 1
  {
    if f.key == COLLECTION_FILTER_FIELD {
      ConditionMeans(cs, member, m, f, parents, added);
    } else if IsLogical(f) {
      var done := ExpandItems(cs, f.value.items, parents).value;
      ItemsMean(cs, member, m, f.value.items, parents, done);
      GroupMeans(cs, member, m, f, done);
    } else {
      PlainExpandsToItself(cs, f.value, parents);
    }
  }

  lemma GroupMeans(cs: seq<Stored>, member: Membership, m: Minion, f: Field, done: seq<Json>)
    requires IsLogical(f) && |done| == |f.value.items|
    requires forall i :: 0 <= i < |done| ==> (Matches(m, done[i]) <==> Means(cs, member, m, f.value.items[i], true))
    ensures MatchesField(m, Field(f.key, Arr(done))) <==> MeansField(cs, member, m, f, true)
  {
    var items := f.value.items;
    forall q | q in items
      ensures exists i :: 0 <= i < |done| && items[i] == q && done[i] in done
    {
      var i :| 0 <= i < |items| && items[i] == q;
      assert done[i] in done;
    }
    forall q | q in done
      ensures exists i :: 0 <= i < |done| && done[i] == q && items[i] in items
    {
      var i :| 0 <= i < |done| && done[i] == q;
      assert items[i] in items;
    }
  }

  lemma {:induction false} ItemsMean(
    cs: seq<Stored>, member: Membership, m: Minion, items: seq<Json>, parents: seq<string>, done: seq<Json>)
    requires EntersRightly(cs, member, m, parents)
    requires (forall q :: q in items ==> IsPlaced(q)) && ExpandItems(cs, items, parents) == Ok(done)
    ensures |done| == |items|
    ensures forall i :: 0 <= i < |done| ==> (Matches(m, done[i]) <==> Means(cs, member, m, items[i], true))
    decreases items, 1
  {
    if items != [] {
      var n := |items| - 1;
      assert items[n] in items;
      ItemsMean(cs, member, m, items[..n], parents, ExpandItems(cs, items[..n], parents).value);
      ExpansionMeans(cs, member, m, items[n], parents, Expand(cs, items[n], parents).value);
    }
  }

  lemma {:induction false} MembershipEntersRightly(
    cs: seq<Stored>, member: Membership, m: Minion, parents: seq<string>)
    requires StoreIsPlaced(cs) && IsMembership(cs, member, m, true)
    ensures EntersRightly(cs, member, m, parents)
    decreases Enterable(cs, parents)
  {
    forall c, r | c in cs && c.slug !in parents && Expand(cs, c.fullQuery, parents + [c.slug]) == Ok(r)
      ensures Matches(m, r) <==> member(c.slug)
    {
      assert c.slug in Enterable(cs, parents) && c.slug !in Enterable(cs, parents + [c.slug]);
      MembershipEntersRightly(cs, member, m, parents + [c.slug]);
      ExpansionMeans(cs, member, m, c.fullQuery, parents + [c.slug], r);
    }
  }

  // ---------- documents in which nothing is overwritten ----------

  ghost predicate NothingOverwritten(cs: seq<Stored>, query: Json) {
    query.Obj? ==>
      && (forall i :: 0 <= i < |query.fields| ==> !IsOverwritten(cs, query.fields, i))
      && forall f | f in query.fields :: IsLogical(f) ==> forall q | q in f.value.items :: NothingOverwritten(cs, q)
  }

  lemma {:induction false} NothingOverwrittenMeansAllKept(
    cs: seq<Stored>, member: Membership, m: Minion, query: Json)
    requires NothingOverwritten(cs, query)
    ensures Means(cs, member, m, query, true) <==> Means(cs, member, m, query, false)
  {
    if query.Obj? {
      forall f | f in query.fields
        ensures MeansField(cs, member, m, f, true) <==> MeansField(cs, member, m, f, false)
      {
        if IsLogical(f) {
          forall q | q in f.value.items
            ensures Means(cs, member, m, q, true) <==> Means(cs, member, m, q, false)
          {
            NothingOverwrittenMeansAllKept(cs, member, m, q);
          }
        }
      }
      assert forall i :: 0 <= i < |query.fields| ==> query.fields[i] in query.fields;
    }
  }

  // ---------- main results ----------

  /** What an expanded query means, for every query: what the original means with overwritten fields left out. */
  lemma ExpansionKeepsWhatIsNotOverwritten(
    cs: seq<Stored>, member: Membership, m: Minion, query: Json, parents: seq<string>, r: Json)
    requires StoreIsPlaced(cs) && IsMembership(cs, member, m, true)
    requires IsPlaced(query) && Expand(cs, query, parents) == Ok(r)
    ensures Matches(m, r) <==> Means(cs, member, m, query, true)
  {
    MembershipEntersRightly(cs, member, m, parents);
    ExpansionMeans(cs, member, m, query, parents, r);
  }

  /** When no document holds `collection` beside the key its filter turns into, expansion preserves meaning. */
  lemma ExpansionPreservesMeaning(
    cs: seq<Stored>, member: Membership, m: Minion, query: Json, parents: seq<string>, r: Json)
    requires StoreIsPlaced(cs) && IsMembership(cs, member, m, false)
    requires forall c :: c in cs ==> NothingOverwritten(cs, c.fullQuery)
    requires IsPlaced(query) && NothingOverwritten(cs, query)
    requires Expand(cs, query, parents) == Ok(r)
    ensures Matches(m, r) <==> Means(cs, member, m, query, false)
  {
    forall c | c in cs
      ensures Means(cs, member, m, c.fullQuery, true) <==> Means(cs, member, m, c.fullQuery, false)
    {
      NothingOverwrittenMeansAllKept(cs, member, m, c.fullQuery);
    }
    NothingOverwrittenMeansAllKept(cs, member, m, query);
    ExpansionKeepsWhatIsNotOverwritten(cs, member, m, query, parents, r);
  }

  /** The minions that a document with one filter finds: the members of some listed collection, or of none. */
  lemma FilterFindsMembers(
    cs: seq<Stored>, member: Membership, m: Minion, texts: seq<string>, parents: seq<string>, r: Json)
    requires StoreIsPlaced(cs) && IsMembership(cs, member, m, true)
    ensures Expand(cs, Obj([Field("collection", Listing("$in", texts))]), parents) == Ok(r) ==>
      (Matches(m, r) <==> exists c :: c in cs && c.slug in texts && member(c.slug))
    ensures Expand(cs, Obj([Field("collection", Listing("$nin", texts))]), parents) == Ok(r) ==>
      (Matches(m, r) <==> forall c :: c in cs && c.slug in texts ==> !member(c.slug))
  {
    forall operator | operator in ["$in", "$nin"]
        && Expand(cs, Obj([Field("collection", Listing(operator, texts))]), parents) == Ok(r)
      ensures Matches(m, r) <==> MeansFilter(cs, member, Listing(operator, texts))
    {
      OneFilterMeans(cs, member, m, Field("collection", Listing(operator, texts)), parents, r);
    }
    ListedMembers(cs, member, texts, Listing("$in", texts).fields[0].value.items);
  }

  /** A document with one filter is refused when the filter lists no texts. */
  lemma MalformedFilterIsRefused(cs: seq<Stored>, value: Json, parents: seq<string>)
    requires forall texts :: value != Listing("$in", texts) && value != Listing("$nin", texts)
    ensures Expand(cs, Obj([Field("collection", value)]), parents) == Err(MalformedCondition)
  {
    FilterIsListing(value);
    OneFilterFails(cs, value, parents, MalformedCondition);
  }

  /** Or for the first listed slug that is being expanded already, with the way from there back to it. */
  lemma {:induction false} RepeatedSlugIsRefused(
    cs: seq<Stored>, operator: string, texts: seq<string>, parents: seq<string>, i: nat)
    requires operator in ["$in", "$nin"] && i < |texts| && texts[i] in parents
    requires forall h :: 0 <= h < i ==> texts[h] !in parents
    ensures exists k ::
      && 0 <= k < |parents| && parents[k] == texts[i]
      && Expand(cs, Obj([Field("collection", Listing(operator, texts))]), parents)
         == Err(CyclicReference(parents[k..] + [texts[i]]))
  {
    FilterIsListing(Listing(operator, texts));
    FirstIsRepeated(texts, parents, i);
    var k := IndexOf(texts[i], parents);
    OneFilterFails(cs, Listing(operator, texts), parents, CyclicReference(parents[k..] + [texts[i]]));
    assert parents[k] == texts[i];
  }

  lemma {:induction false} FirstIsRepeated(texts: seq<string>, parents: seq<string>, i: nat)
    requires i < |texts| && texts[i] in parents && forall h :: 0 <= h < i ==> texts[h] !in parents
    ensures FirstRepeated(texts, parents) == Some(texts[i])
  {
    if i > 0 {
      FirstIsRepeated(texts[1..], parents, i - 1);
    }
  }

  lemma OneFilterFails(cs: seq<Stored>, value: Json, parents: seq<string>, e: ExpandError)
    requires ExpandCondition(cs, value, parents) == Err(e)
    ensures Expand(cs, Obj([Field("collection", value)]), parents) == Err(e)
  {
    var f := Field("collection", value);
    assert f.key == COLLECTION_FILTER_FIELD && ExpandField(cs, f, parents) == Err(e);
    OneFieldFails(cs, f, parents);
  }

  lemma OneFieldFails(cs: seq<Stored>, f: Field, parents: seq<string>)
    ensures ExpandField(cs, f, parents).Err? ==>
      Expand(cs, Obj([f]), parents) == Err(ExpandField(cs, f, parents).error)
  {
    assert [f][..|[f]| - 1] == [];
    assert ExpandFields(cs, [f][..|[f]| - 1], parents) == Ok([]);
  }

  lemma OneFilterMeans(cs: seq<Stored>, member: Membership, m: Minion, f: Field, parents: seq<string>, r: Json)
    requires StoreIsPlaced(cs) && IsMembership(cs, member, m, true) && f.key == COLLECTION_FILTER_FIELD
    requires Expand(cs, Obj([f]), parents) == Ok(r)
    ensures Matches(m, r) <==> MeansFilter(cs, member, f.value)
  {
    assert Obj([f]).fields == [f] && !IsOverwritten(cs, [f], 0);
    assert IsPlacedField(f) && forall g :: g in [f] ==> g == f;
    ExpansionKeepsWhatIsNotOverwritten(cs, member, m, Obj([f]), parents, r);
  }

  lemma ListedMembers(cs: seq<Stored>, member: Membership, texts: seq<string>, items: seq<Json>)
    requires |items| == |texts| && forall i :: 0 <= i < |texts| ==> items[i] == Str(texts[i])
    ensures InSome(cs, member, items) <==> exists c :: c in cs && c.slug in texts && member(c.slug)
  {
    if t :| t in items && t.Str? && IsStored(cs, t.text) && member(t.text) {
      var i :| 0 <= i < |items| && items[i] == t;
      var c :| c in cs && c.slug == t.text;
      assert c.slug in texts;
    }
    if c :| c in cs && c.slug in texts && member(c.slug) {
      var i :| 0 <= i < |texts| && texts[i] == c.slug;
      assert items[i] in items && IsStored(cs, c.slug);
    }
  }

  // ---------- the result has no collection filter left ----------

  predicate FreeOfFilters(query: Json) {
    match query
    case Obj(fields) => forall f | f in fields :: f.key != COLLECTION_FILTER_FIELD && FreeOfFilters(f.value)
    case Arr(items) => forall q | q in items :: FreeOfFilters(q)
    case _ => true
  }

  lemma {:induction false} ExpansionLeavesNoFilter(cs: seq<Stored>, query: Json, parents: seq<string>, r: Json)
    requires Expand(cs, query, parents) == Ok(r)
    ensures FreeOfFilters(r)
    decreases Enterable(cs, parents), 1, query
  {
    match query
    case Obj(fields) => FieldsLeaveNoFilter(cs, fields, parents, r.fields);
    case Arr(items) => ItemsLeaveNoFilter(cs, items, parents, r.items);
    case _ =>
  }

  lemma {:induction false} FieldsLeaveNoFilter(
    cs: seq<Stored>, fields: seq<Field>, parents: seq<string>, done: seq<Field>)
    requires ExpandFields(cs, fields, parents) == Ok(done)
    ensures FreeOfFilters(Obj(done))
    decreases Enterable(cs, parents), 1, fields
  {
    if fields != [] {
      var f := fields[|fields| - 1];
      var before := ExpandFields(cs, fields[..|fields| - 1], parents).value;
      FieldsLeaveNoFilter(cs, fields[..|fields| - 1], parents, before);
      var added := ExpandField(cs, f, parents).value;
      FieldLeavesNoFilter(cs, f, parents, added);
      if added != [] {
        PutOnlyAdds(before, added[0]);
      }
    }
  }

  lemma {:induction false} FieldLeavesNoFilter(cs: seq<Stored>, f: Field, parents: seq<string>, added: seq<Field>)
    requires ExpandField(cs, f, parents) == Ok(added)
    ensures FreeOfFilters(Obj(added))
    decreases Enterable(cs, parents), 1, f
  {
    if f.key != COLLECTION_FILTER_FIELD {
      ExpansionLeavesNoFilter(cs, f.value, parents, added[0].value);
    } else {
      var filter := ParseCollectionFilter(f.value).value;
      var queries := ExpandStored(cs, Select(cs, filter.slugs), parents).value;
      StoredLeaveNoFilter(cs, Select(cs, filter.slugs), parents, queries);
      ConditionLeavesNoFilter(filter.negated, queries);
    }
  }

  lemma ConditionLeavesNoFilter(negated: bool, queries: seq<Json>)
    requires FreeOfFilters(Arr(queries))
    ensures FreeOfFilters(Obj(Condition(negated, queries)))
  {
    var none := Field("$in", Arr([]));
    assert FreeOfFilters(Arr([])) && FreeOfFilters(none.value);
    assert forall f :: f in [none] ==> f == none;
    assert FreeOfFilters(NOBODY);
  }

  lemma {:induction false} PutOnlyAdds(fields: seq<Field>, f: Field)
    ensures forall g :: g in Put(fields, f) ==> g == f || g in fields
  {
    if fields != [] && fields[0].key != f.key {
      PutOnlyAdds(fields[1..], f);
    }
  }

  lemma {:induction false} ItemsLeaveNoFilter(
    cs: seq<Stored>, items: seq<Json>, parents: seq<string>, done: seq<Json>)
    requires ExpandItems(cs, items, parents) == Ok(done)
    ensures FreeOfFilters(Arr(done))
    decreases Enterable(cs, parents), 1, items
  {
    if items != [] {
      var n := |items| - 1;
      ItemsLeaveNoFilter(cs, items[..n], parents, ExpandItems(cs, items[..n], parents).value);
      ExpansionLeavesNoFilter(cs, items[n], parents, Expand(cs, items[n], parents).value);
    }
  }

  lemma {:induction false} StoredLeaveNoFilter(
    cs: seq<Stored>, chosen: seq<Stored>, parents: seq<string>, queries: seq<Json>)
    requires forall c :: c in chosen ==> c in cs && c.slug !in parents
    requires ExpandStored(cs, chosen, parents) == Ok(queries)
    ensures FreeOfFilters(Arr(queries))
    decreases Enterable(cs, parents), 0, chosen
  {
    if chosen != [] {
      var n := |chosen| - 1;
      var c := chosen[n];
      assert c.slug in Enterable(cs, parents) && c.slug !in Enterable(cs, parents + [c.slug]);
      StoredLeaveNoFilter(cs, chosen[..n], parents, ExpandStored(cs, chosen[..n], parents).value);
      ExpansionLeavesNoFilter(cs, c.fullQuery, parents + [c.slug],
                              Expand(cs, c.fullQuery, parents + [c.slug]).value);
    }
  }

  // ---------- where meaning is lost ----------

  const IN_X := Field(COLLECTION_FILTER_FIELD, Obj([Field("$in", Arr([Str("x")]))]))
  const WANTS_A := Obj([Field("a", Leaf(1))])
  const ONE_COLLECTION := [Stored("x", EMPTY)]
  const EMPTY := Obj([])

  /** `$or` beside a `$in` filter is dropped: what is left matches a minion exactly when the filter does. */
  lemma OrBesideFilterIsLost(
    cs: seq<Stored>, member: Membership, m: Minion, items: seq<Json>, f: Field, parents: seq<string>, r: Json)
    requires StoreIsPlaced(cs) && IsMembership(cs, member, m, true)
    requires f.key == COLLECTION_FILTER_FIELD && ExpandedKey(cs, f) == Some("$or")
    requires forall q :: q in items ==> IsPlaced(q)
    requires Expand(cs, Obj([Field("$or", Arr(items)), f]), parents) == Ok(r)
    ensures Matches(m, r) <==> MeansField(cs, member, m, f, true)
  {
    var fields := [Field("$or", Arr(items)), f];
    assert ExpandedKey(cs, fields[0]) == ExpandedKey(cs, fields[1]);
    assert IsOverwritten(cs, fields, 0) && !IsOverwritten(cs, fields, 1);
    assert forall g :: g in fields ==> g == fields[0] || g == f;
    assert IsPlacedField(fields[0]);
    ExpansionKeepsWhatIsNotOverwritten(cs, member, m, Obj(fields), parents, r);
  }

  lemma OneCollectionExpands()
    ensures Expand(ONE_COLLECTION, Obj([Field("$or", Arr([WANTS_A])), IN_X]), []).Ok?
    ensures ExpandedKey(ONE_COLLECTION, IN_X) == Some("$or")
  {
    var cs, either := ONE_COLLECTION, Field("$or", Arr([WANTS_A]));
    assert Texts([Str("x")]) == ["x"] && Select(cs, ["x"]) == cs;
    PlainOrExpands(cs);
    OnlyCollectionIsStored(cs);
    assert ExpandField(cs, IN_X, []).Ok?;
    assert [either, IN_X][..|[either, IN_X]| - 1] == [either];
  }

  lemma PlainOrExpands(cs: seq<Stored>)
    ensures var either := Field("$or", Arr([WANTS_A])); ExpandFields(cs, [either], []) == Ok([either])
  {
    var either := Field("$or", Arr([WANTS_A]));
    assert IsPlain(WANTS_A) by {
      assert forall f :: f in WANTS_A.fields ==> f == Field("a", Leaf(1));
    }
    PlainItemsExpandToThemselves(cs, [WANTS_A], []);
    OneFieldExpands(cs, either, [], either);
  }

  lemma OnlyCollectionIsStored(cs: seq<Stored>)
    requires cs == ONE_COLLECTION
    ensures ExpandStored(cs, cs, []).Ok?
  {
    assert cs[..|cs| - 1] == [];
    assert Expand(cs, EMPTY, [] + ["x"]).Ok? && ExpandStored(cs, [], []).Ok?;
  }

  /** So meaning is not preserved: every minion matches the expanded query, though the original asks for `a`. */
  lemma CollidingKeysLoseMeaning(m: Minion, member: Membership)
    requires !m("a", Leaf(1)) && member("x")
    ensures IsMembership(ONE_COLLECTION, member, m, false)
    ensures var query := Obj([Field("$or", Arr([WANTS_A])), IN_X]);
            && Expand(ONE_COLLECTION, query, []).Ok?
            && Matches(m, Expand(ONE_COLLECTION, query, []).value)
            && !Means(ONE_COLLECTION, member, m, query, false)
  {
    var cs := ONE_COLLECTION;
    var fields := [Field("$or", Arr([WANTS_A])), IN_X];
    OneCollectionExpands();
    assert forall f :: f in WANTS_A.fields ==> f == Field("a", Leaf(1)) && IsPlacedField(f);
    OrBesideFilterIsLost(cs, member, m, [WANTS_A], IN_X, [], Expand(cs, Obj(fields), []).value);
    assert Texts([Str("x")]) == ["x"] && cs[0] in cs && IsStored(cs, "x") && "x" in ["x"];
    assert Str("x") in [Str("x")] && InSome(cs, member, [Str("x")]);
    assert WANTS_A.fields[0] == Field("a", Leaf(1));
    assert !Means(cs, member, m, WANTS_A, false);
    assert !MeansField(cs, member, m, fields[0], false);
  }

  /** Dictionaries have no key twice. */
  predicate HasDistinctKeys(value: Json) {
    match value
    case Obj(fields) => DistinctKeys(fields) && forall f | f in fields :: HasDistinctKeys(f.value)
    case Arr(items) => forall q | q in items :: HasDistinctKeys(q)
    case _ => true
  }

  lemma {:induction false} FreeIsPlain(value: Json)
    requires HasDistinctKeys(value) && FreeOfFilters(value)
    ensures IsPlain(value)
  {
    match value
    case Obj(fields) =>
      forall f | f in fields
        ensures IsPlain(f.value)
      {
        FreeIsPlain(f.value);
      }
    case Arr(items) =>
      forall q | q in items
        ensures IsPlain(q)
      {
        FreeIsPlain(q);
      }
    case _ =>
  }

  /**
   A value comes out of the expansion as it is exactly when no `collection` key is in it at any depth: one that hides
   inside an ordinary condition is rewritten too, and the condition is no longer the same one.
   */
  lemma HiddenFilterIsRewritten(cs: seq<Stored>, value: Json, parents: seq<string>)
    requires HasDistinctKeys(value)
    ensures Expand(cs, value, parents) == Ok(value) <==> FreeOfFilters(value)
  {
    if FreeOfFilters(value) {
      FreeIsPlain(value);
      PlainExpandsToItself(cs, value, parents);
    }
    if Expand(cs, value, parents) == Ok(value) {
      ExpansionLeavesNoFilter(cs, value, parents, value);
    }
  }

  lemma OneFieldExpands(cs: seq<Stored>, f: Field, parents: seq<string>, added: Field)
    requires ExpandField(cs, f, parents) == Ok([added])
    ensures ExpandFields(cs, [f], parents) == Ok([added])
  {
    assert [f][..|[f]| - 1] == [];
    assert ExpandFields(cs, [], parents) == Ok([]);
  }
}
