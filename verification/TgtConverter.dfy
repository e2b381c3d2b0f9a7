/** Turning a stored query into a compound target (saltbox_core/utilities/mongo_query_to_salt_tgt_converter.py). */
module TgtConverter {
  import opened Wrappers
  import opened TgtExpressions

  datatype Key = MinionId | Grain(name: string) | Unknown(name: string)

  /** What is asked of a key; Ordered stands for `$gt`, `$gte`, `$lt`, `$lte`, Malformed for anything else. */
  datatype Condition =
    | Equals(value: string)
    | NotEquals(value: string)
    | Regex(regex: string)
    | In(values: seq<string>)
    | NotIn(values: seq<string>)
    | NotRegex(regex: string)
    | Ordered
    | Malformed

  datatype GroupOp = And | Or

  datatype Entry = Test(key: Key, condition: Condition) | Group(op: GroupOp, items: seq<Query>) | NotAList(op: GroupOp)

  datatype Query = Query(entries: seq<Entry>)

  datatype ConvertError = UnsupportedOperator | InvalidValue | InvalidQuery | EmptyGroup

  type Printed = Result<Tokens, ConvertError>

  // ---------- printing ----------

  function OpToken(op: GroupOp): Token {
    match op case And => AndOp case Or => OrOp
  }

  function Join(parts: seq<Tokens>, op: GroupOp): Tokens {
    if parts == [] then []
    else if |parts| == 1 then parts[0]
    else Join(parts[..|parts| - 1], op) + [OpToken(op)] + parts[|parts| - 1]
  }

  function GrainOf(key: Key): Option<string> {
    match key
    case MinionId => Some("id")
    case Grain(name) => Some(name)
    case Unknown(_) => None
  }

  /** process_item; nothing is printed for an unknown key. */
  function PrintTest(key: Key, condition: Condition): Result<Option<Tokens>, ConvertError> {
    match condition
    case Ordered => Err(UnsupportedOperator)
    case Malformed => Err(InvalidValue)
    case _ =>
      match GrainOf(key)
      case None => Ok(None)
      case Some(grain) =>
        Ok(Some(
          match condition
          case Equals(value) => [Match(Glob(grain, value))]
          case NotEquals(value) => [NotOp, Match(Glob(grain, value))]
          case Regex(regex) => [Match(Pattern(grain, regex))]
          case In(values) => [Match(AnyOf(grain, values))]
          case NotIn(values) => [NotOp, Match(AnyOf(grain, values))]
          case NotRegex(regex) => [NotOp, Match(Pattern(grain, regex))]))
  }

  function PrintEntry(e: Entry): Result<Option<Tokens>, ConvertError> {
    match e
    case Test(key, condition) => PrintTest(key, condition)
    case NotAList(_) => Err(InvalidQuery)
    case Group(op, items) =>
      match PrintItems(items, op)
      case Err(error) => Err(error)
      case Ok(parts) => GroupOf(parts, op)
  }

  /** Parentheses only around more than one item. */
  function GroupOf(parts: seq<Tokens>, op: GroupOp): Result<Option<Tokens>, ConvertError> {
    if parts == [] then Err(EmptyGroup)
    else if |parts| == 1 then Ok(Some(parts[0]))
    else Ok(Some([Open] + Join(parts, op) + [Close]))
  }

  function PrintItems(items: seq<Query>, op: GroupOp): Result<seq<Tokens>, ConvertError> {
    if items == [] then Ok([])
    else
      match PrintItems(items[..|items| - 1], op)
      case Err(error) => Err(error)
      case Ok(parts) =>
        match PrintQuery(items[|items| - 1], op)
        case Err(error) => Err(error)
        case Ok(part) => Ok(parts + [part])
  }

  function PrintEntries(entries: seq<Entry>): Result<seq<Tokens>, ConvertError> {
    if entries == [] then Ok([])
    else
      match PrintEntries(entries[..|entries| - 1])
      case Err(error) => Err(error)
      case Ok(parts) =>
        match PrintEntry(entries[|entries| - 1])
        case Err(error) => Err(error)
        case Ok(None) => Ok(parts)
        case Ok(Some(part)) => Ok(parts + [part])
  }

  /** The entries of a document are joined with the operator of the group around it. */
  function PrintQuery(q: Query, op: GroupOp): Printed {
    match PrintEntries(q.entries)
    case Err(error) => Err(error)
    case Ok(parts) => Ok(Join(parts, op))
  }

  function Strip(ts: Tokens): Tokens {
    if |ts| >= 2 && ts[0] == Open && ts[|ts| - 1] == Close then ts[1..|ts| - 1] else ts
  }

  // ---------- the loops ----------

  method Process(q: Query, op: GroupOp) returns (result: Printed)
    ensures result == PrintQuery(q, op)
    decreases q
  {
    var parts: seq<Tokens> := [];
    for i := 0 to |q.entries|
      invariant PrintEntries(q.entries[..i]) == Ok(parts)
    {
      assert q.entries[..i + 1][..i] == q.entries[..i];
      match q.entries[i]
      case NotAList(_) =>
        ErrorStays(q.entries, i + 1);
        return Err(InvalidQuery);
      case Group(groupOp, items) =>
        var printed := ProcessGroup(items, groupOp);
        if printed.Err? {
          ErrorStays(q.entries, i + 1);
          return Err(printed.error);
        }
        parts := parts + [printed.value];
      case Test(key, condition) =>
        var printed := PrintTest(key, condition);
        match printed
        case Err(error) =>
          ErrorStays(q.entries, i + 1);
          return Err(error);
        case Ok(None) =>
        case Ok(Some(part)) => parts := parts + [part];
    }
    assert q.entries[..|q.entries|] == q.entries;
    return Ok(Join(parts, op));
  }

  method ProcessGroup(items: seq<Query>, op: GroupOp) returns (result: Printed)
    ensures result.Ok? ==> PrintEntry(Group(op, items)) == Ok(Some(result.value))
    ensures result.Err? ==> PrintEntry(Group(op, items)) == Err(result.error)
    decreases items
  {
    var parts: seq<Tokens> := [];
    for i := 0 to |items|
      invariant |parts| == i && PrintItems(items[..i], op) == Ok(parts)
    {
      assert items[..i + 1][..i] == items[..i];
      var part := Process(items[i], op);
      if part.Err? {
        ItemErrorStays(items, op, i + 1);
        return Err(part.error);
      }
      parts := parts + [part.value];
    }
    assert items[..|items|] == items;
    if |parts| > 1 {
      return Ok([Open] + Join(parts, op) + [Close]);
    }
    // the first of no items is an error
    if parts == [] {
      return Err(EmptyGroup);
    }
    return Ok(parts[0]);
  }

  lemma {:induction false} ErrorStays(entries: seq<Entry>, i: nat)
    requires i <= |entries| && PrintEntries(entries[..i]).Err?
    ensures PrintEntries(entries) == PrintEntries(entries[..i])
    decreases |entries| - i
  {
    if i < |entries| {
      assert entries[..i + 1][..i] == entries[..i];
      ErrorStays(entries, i + 1);
    } else {
      assert entries[..i] == entries;
    }
  }

  lemma {:induction false} ItemErrorStays(items: seq<Query>, op: GroupOp, i: nat)
    requires i <= |items| && PrintItems(items[..i], op).Err?
    ensures PrintItems(items, op) == PrintItems(items[..i], op)
    decreases |items| - i
  {
    if i < |items| {
      assert items[..i + 1][..i] == items[..i];
      ItemErrorStays(items, op, i + 1);
    } else {
      assert items[..i] == items;
    }
  }

  method Convert(q: Query) returns (result: Printed)
    ensures result == match PrintQuery(q, And) case Ok(ts) => Ok(Strip(ts)) case Err(error) => Err(error)
  {
    result := Process(q, And);
    if result.Ok? {
      var ts := result.value;
      if |ts| >= 2 && ts[0] == Open && ts[|ts| - 1] == Close {
        result := Ok(ts[1..|ts| - 1]);
      }
    }
  }

  // ---------- what a query means ----------

  /** What a condition asks of one grain, with `holds` for what a single matcher says of the minion. */
  function Asks(grain: string, condition: Condition, holds: Matcher -> bool): bool {
    match condition
    case Equals(value) => holds(Glob(grain, value))
    case NotEquals(value) => !holds(Glob(grain, value))
    case Regex(regex) => holds(Pattern(grain, regex))
    case In(values) => holds(AnyOf(grain, values))
    case NotIn(values) => !holds(AnyOf(grain, values))
    case NotRegex(regex) => !holds(Pattern(grain, regex))
    case _ => false
  }

  /** `minion_id` asks of the grain `id`, and `grains.` of the grain behind it. */
  function TestHolds(key: Key, condition: Condition, holds: Matcher -> bool): bool {
    match key
    case MinionId => Asks("id", condition, holds)
    case Grain(name) => Asks(name, condition, holds)
    case Unknown(_) => false
  }

  function EntryHolds(e: Entry, holds: Matcher -> bool): bool {
    match e
    case Test(key, condition) => TestHolds(key, condition, holds)
    case NotAList(_) => false
    case Group(And, items) => forall i :: 0 <= i < |items| ==> QueryHolds(items[i], holds)
    case Group(Or, items) => exists i :: 0 <= i < |items| && QueryHolds(items[i], holds)
  }

  /** A document asks for all of its entries. */
  function QueryHolds(q: Query, holds: Matcher -> bool): bool {
    forall i :: 0 <= i < |q.entries| ==> EntryHolds(q.entries[i], holds)
  }

  // ---------- when a query cannot be converted ----------

  /** A condition that is not supported or malformed, a group that is no list, or one without items, at any depth. */
  predicate HasFault(q: Query) {
    exists i :: 0 <= i < |q.entries| && IsFault(q.entries[i])
  }

  predicate IsFault(e: Entry) {
    match e
    case Test(_, condition) => condition == Ordered || condition == Malformed
    case NotAList(_) => true
    case Group(_, items) => items == [] || exists i :: 0 <= i < |items| && HasFault(items[i])
  }

  /** Exactly such a query is refused; whether its keys are known makes no difference. */
  lemma {:induction false} RefusedExactly(q: Query, op: GroupOp)
    ensures PrintQuery(q, op).Err? <==> HasFault(q)
    decreases q, 1
  {
    forall e | e in q.entries
      ensures PrintEntry(e).Err? <==> IsFault(e)
    {
      EntryRefusedExactly(e);
    }
    EntriesRefusedExactly(q.entries);
  }

  lemma {:induction false} EntryRefusedExactly(e: Entry)
    ensures PrintEntry(e).Err? <==> IsFault(e)
    decreases e
  {
    if e.Group? {
      forall i | 0 <= i < |e.items|
        ensures PrintQuery(e.items[i], e.op).Err? <==> HasFault(e.items[i])
      {
        RefusedExactly(e.items[i], e.op);
      }
      ItemsRefusedExactly(e.items, e.op);
    }
  }

  lemma {:induction false} EntriesRefusedExactly(entries: seq<Entry>)
    ensures PrintEntries(entries).Err? <==> exists i :: 0 <= i < |entries| && PrintEntry(entries[i]).Err?
  {
    if entries != [] {
      var n := |entries| - 1;
      EntriesRefusedExactly(entries[..n]);
      if i :| 0 <= i < n && PrintEntry(entries[..n][i]).Err? {
        assert PrintEntry(entries[i]).Err?;
      }
    }
  }

  lemma {:induction false} ItemsRefusedExactly(items: seq<Query>, op: GroupOp)
    ensures PrintItems(items, op).Err? <==> exists i :: 0 <= i < |items| && PrintQuery(items[i], op).Err?
    ensures PrintItems(items, op).Ok? ==> |PrintItems(items, op).value| == |items|
  {
    if items != [] {
      var n := |items| - 1;
      ItemsRefusedExactly(items[..n], op);
      if i :| 0 <= i < n && PrintQuery(items[..n][i], op).Err? {
        assert PrintQuery(items[i], op).Err?;
      }
    }
  }

  // ---------- where printing keeps the meaning ----------

  predicate IsPrintable(key: Key, condition: Condition) {
    !key.Unknown? && condition != Ordered && condition != Malformed
  }

  predicate IsSafeEntry(e: Entry) {
    match e
    case Test(key, condition) => IsPrintable(key, condition)
    case NotAList(_) => false
    case Group(op, items) => items != [] && forall i :: 0 <= i < |items| ==> IsSafe(items[i], op)
  }

  /** Known keys, no empty group or document, and several entries in one only where they are joined by `and`. */
  predicate IsSafe(q: Query, op: GroupOp) {
    && q.entries != [] && (|q.entries| > 1 ==> op == And)
    && forall i :: 0 <= i < |q.entries| ==> IsSafeEntry(q.entries[i])
  }

  /** Words that mean `truth` and can stand beside either operator. */
  ghost predicate IsGood(ts: Tokens, truth: bool, holds: Matcher -> bool) {
    ts != [] && IsBalanced(ts) && FirstAt(ts, OrOp, 0) == |ts| && Eval(ts, holds) == Some(truth)
  }

  function AllOf(truths: seq<bool>): (r: bool)
    ensures r <==> forall i :: 0 <= i < |truths| ==> truths[i]
  {
    if truths == [] then true else AllOf(truths[..|truths| - 1]) && truths[|truths| - 1]
  }

  function SomeOf(truths: seq<bool>): (r: bool)
    ensures r <==> exists i :: 0 <= i < |truths| && truths[i]
  {
    if truths == [] then false else SomeOf(truths[..|truths| - 1]) || truths[|truths| - 1]
  }

  lemma AndIsGood(x: Tokens, a: bool, y: Tokens, b: bool, holds: Matcher -> bool)
    requires IsGood(x, a, holds) && IsGood(y, b, holds)
    ensures IsGood(x + [AndOp] + y, a && b, holds)
  {
    EvalAnd(x, y, holds);
    BalancedInfix(x, AndOp, y);
  }

  lemma {:induction false} AndMeansAll(parts: seq<Tokens>, truths: seq<bool>, holds: Matcher -> bool)
    requires parts != [] && |truths| == |parts|
    requires forall i :: 0 <= i < |parts| ==> IsGood(parts[i], truths[i], holds)
    ensures IsGood(Join(parts, And), AllOf(truths), holds)
  {
    var n := |parts| - 1;
    if n > 0 {
      AndMeansAll(parts[..n], truths[..n], holds);
      AndIsGood(Join(parts[..n], And), AllOf(truths[..n]), parts[n], truths[n], holds);
    } else {
      assert truths[..n] == [];
    }
  }

  /** Words that mean `truth` inside parentheses. */
  ghost predicate IsEnclosable(ts: Tokens, truth: bool, holds: Matcher -> bool) {
    IsBalanced(ts) && Eval(ts, holds) == Some(truth)
  }

  lemma OrIsEnclosable(x: Tokens, a: bool, y: Tokens, b: bool, holds: Matcher -> bool)
    requires IsEnclosable(x, a, holds) && IsEnclosable(y, b, holds)
    ensures IsEnclosable(x + [OrOp] + y, a || b, holds)
  {
    EvalOr(x, y, holds);
    BalancedInfix(x, OrOp, y);
  }

  lemma {:induction false} OrMeansAny(parts: seq<Tokens>, truths: seq<bool>, holds: Matcher -> bool)
    requires parts != [] && |truths| == |parts|
    requires forall i :: 0 <= i < |parts| ==> IsGood(parts[i], truths[i], holds)
    ensures IsEnclosable(Join(parts, Or), SomeOf(truths), holds)
  {
    var n := |parts| - 1;
    if n > 0 {
      OrMeansAny(parts[..n], truths[..n], holds);
      OrIsEnclosable(Join(parts[..n], Or), SomeOf(truths[..n]), parts[n], truths[n], holds);
    } else {
      assert truths[..n] == [];
    }
  }

  lemma ParensAreGood(ts: Tokens, truth: bool, holds: Matcher -> bool)
    requires IsEnclosable(ts, truth, holds)
    ensures IsGood([Open] + ts + [Close], truth, holds)
  {
    BalancedParens(ts);
    ParensHideAll(ts, OrOp);
    EvalParens(ts, holds);
  }

  /** What is printed for one test holds exactly when the minion satisfies it of the grain that the key names. */
  lemma OneTestMeans(key: Key, grain: string, text: string, values: seq<string>, holds: Matcher -> bool)
    requires key == Grain(grain) || (key == MinionId && grain == "id")
    ensures forall condition :: condition != Ordered && condition != Malformed ==>
      PrintTest(key, condition).Ok? && PrintTest(key, condition).value.Some?
    ensures Eval(PrintTest(key, Equals(text)).value.value, holds) == Some(holds(Glob(grain, text)))
    ensures Eval(PrintTest(key, NotEquals(text)).value.value, holds) == Some(!holds(Glob(grain, text)))
    ensures Eval(PrintTest(key, Regex(text)).value.value, holds) == Some(holds(Pattern(grain, text)))
    ensures Eval(PrintTest(key, NotRegex(text)).value.value, holds) == Some(!holds(Pattern(grain, text)))
    ensures Eval(PrintTest(key, In(values)).value.value, holds) == Some(holds(AnyOf(grain, values)))
    ensures Eval(PrintTest(key, NotIn(values)).value.value, holds) == Some(!holds(AnyOf(grain, values)))
  {
    OneConditionMeans(key, grain, Equals(text), holds);
    OneConditionMeans(key, grain, NotEquals(text), holds);
    OneConditionMeans(key, grain, Regex(text), holds);
    OneConditionMeans(key, grain, NotRegex(text), holds);
    OneConditionMeans(key, grain, In(values), holds);
    OneConditionMeans(key, grain, NotIn(values), holds);
  }

  lemma OneConditionMeans(key: Key, grain: string, condition: Condition, holds: Matcher -> bool)
    requires key == Grain(grain) || (key == MinionId && grain == "id")
    requires condition != Ordered && condition != Malformed
    ensures PrintTest(key, condition).Ok? && PrintTest(key, condition).value.Some?
    ensures Eval(PrintTest(key, condition).value.value, holds) == Some(Asks(grain, condition, holds))
  {
    TestMeans(key, condition, holds);
  }

  lemma TestMeans(key: Key, condition: Condition, holds: Matcher -> bool)
    requires IsPrintable(key, condition)
    ensures PrintTest(key, condition).Ok? && PrintTest(key, condition).value.Some?
    ensures IsGood(PrintTest(key, condition).value.value, TestHolds(key, condition, holds), holds)
  {
    var ts := PrintTest(key, condition).value.value;
    var match1 := ts[|ts| - 1];
    PlainIsBalanced(match1);
    assert Eval([match1], holds) == Some(holds(match1.matcher));
    if |ts| == 2 {
      PlainIsBalanced(NotOp);
      BalancedConcat([NotOp], [match1]);
      assert ts == [NotOp] + [match1] && ts[1..] == [match1];
      assert Eval(ts, holds) == Some(!holds(match1.matcher));
    } else {
      assert ts == [match1];
    }
  }

  // ---------- printed words mean what the query means ----------

  predicate IsPrinted(e: Entry) {
    PrintEntry(e).Ok? && PrintEntry(e).value.Some?
  }

  /** When every entry prints something, those are the parts. */
  lemma {:induction false} PartsOfEntries(entries: seq<Entry>)
    requires forall i :: 0 <= i < |entries| ==> IsPrinted(entries[i])
    ensures PrintEntries(entries).Ok? && |PrintEntries(entries).value| == |entries|
    ensures forall i :: 0 <= i < |entries| ==> PrintEntry(entries[i]) == Ok(Some(PrintEntries(entries).value[i]))
  {
    if entries != [] {
      PartsOfEntries(entries[..|entries| - 1]);
    }
  }

  lemma {:induction false} PartsOfItems(items: seq<Query>, op: GroupOp)
    requires forall i :: 0 <= i < |items| ==> PrintQuery(items[i], op).Ok?
    ensures PrintItems(items, op).Ok? && |PrintItems(items, op).value| == |items|
    ensures forall i :: 0 <= i < |items| ==> PrintQuery(items[i], op) == Ok(PrintItems(items, op).value[i])
  {
    if items != [] {
      PartsOfItems(items[..|items| - 1], op);
    }
  }

  lemma {:induction false} PrintedEntryMeans(e: Entry, holds: Matcher -> bool)
    requires IsSafeEntry(e)
    ensures PrintEntry(e).Ok? && PrintEntry(e).value.Some?
    ensures IsGood(PrintEntry(e).value.value, EntryHolds(e, holds), holds)
    decreases e
  {
    match e
    case Test(key, condition) => TestMeans(key, condition, holds);
    case Group(op, items) =>
      forall i | 0 <= i < |items|
        ensures PrintQuery(items[i], op).Ok?
        ensures IsGood(PrintQuery(items[i], op).value, QueryHolds(items[i], holds), holds)
      {
        PrintedQueryMeans(items[i], op, holds);
      }
      PrintedItemsMean(items, op, holds);
  }

  lemma PrintedItemsMean(items: seq<Query>, op: GroupOp, holds: Matcher -> bool)
    requires items != []
    requires forall i :: 0 <= i < |items| ==>
      PrintQuery(items[i], op).Ok? && IsGood(PrintQuery(items[i], op).value, QueryHolds(items[i], holds), holds)
    ensures
      var e := Group(op, items);
      IsPrinted(e) && IsGood(PrintEntry(e).value.value, EntryHolds(e, holds), holds)
  {
    var truths := seq(|items|, i requires 0 <= i < |items| => QueryHolds(items[i], holds));
    PartsOfItems(items, op);
    GroupHolds(op, items, truths, holds);
    GroupMeans(PrintItems(items, op).value, truths, op, holds);
  }

  lemma GroupHolds(op: GroupOp, items: seq<Query>, truths: seq<bool>, holds: Matcher -> bool)
    requires |truths| == |items| && forall i :: 0 <= i < |items| ==> truths[i] == QueryHolds(items[i], holds)
    ensures EntryHolds(Group(op, items), holds) == if op == And then AllOf(truths) else SomeOf(truths)
  {
  }

  lemma GroupMeans(parts: seq<Tokens>, truths: seq<bool>, op: GroupOp, holds: Matcher -> bool)
    requires parts != [] && |truths| == |parts|
    requires forall i :: 0 <= i < |parts| ==> IsGood(parts[i], truths[i], holds)
    ensures GroupOf(parts, op).Ok? && GroupOf(parts, op).value.Some?
    ensures IsGood(GroupOf(parts, op).value.value, if op == And then AllOf(truths) else SomeOf(truths), holds)
  {
    if op == And {
      AndMeansAll(parts, truths, holds);
      ParensAreGood(Join(parts, And), AllOf(truths), holds);
    } else {
      OrMeansAny(parts, truths, holds);
      ParensAreGood(Join(parts, Or), SomeOf(truths), holds);
    }
  }

  /** What is printed for a safe query is balanced and has the truth value of the query, for every minion. */
  lemma {:induction false} PrintedQueryMeans(q: Query, op: GroupOp, holds: Matcher -> bool)
    requires IsSafe(q, op)
    ensures PrintQuery(q, op).Ok? && IsGood(PrintQuery(q, op).value, QueryHolds(q, holds), holds)
    decreases q
  {
    var truths := seq(|q.entries|, i requires 0 <= i < |q.entries| => EntryHolds(q.entries[i], holds));
    forall i | 0 <= i < |q.entries|
      ensures
        var printed := PrintEntry(q.entries[i]);
        IsPrinted(q.entries[i]) && IsGood(printed.value.value, truths[i], holds)
    {
      PrintedEntryMeans(q.entries[i], holds);
    }
    PartsOfEntries(q.entries);
    var parts := PrintEntries(q.entries).value;
    AndMeansAll(parts, truths, holds);
  }

  // ---------- stripping the outer parentheses ----------

  /** The entry prints an opening parenthesis first. */
  predicate StartsOpen(e: Entry) {
    e.Group? && (|e.items| > 1 || (|e.items| == 1 && e.items[0].entries != [] && StartsOpen(e.items[0].entries[0])))
  }

  /** The entry prints a closing parenthesis last. */
  predicate EndsClosed(e: Entry) {
    e.Group? && (|e.items| > 1 ||
      (|e.items| == 1 && e.items[0].entries != [] && EndsClosed(e.items[0].entries[|e.items[0].entries| - 1])))
  }

  /** The query prints one group of several items and nothing beside it. */
  predicate IsOneGroup(q: Query) {
    && |q.entries| == 1 && q.entries[0].Group?
    && (|q.entries[0].items| > 1 || (|q.entries[0].items| == 1 && IsOneGroup(q.entries[0].items[0])))
  }

  /** The outermost parentheses printed belong to different groups. */
  predicate StripBreaks(q: Query) {
    q.entries != [] && StartsOpen(q.entries[0]) && EndsClosed(q.entries[|q.entries| - 1]) && !IsOneGroup(q)
  }

  ghost predicate IsEnclosed(ts: Tokens) {
    |ts| >= 2 && ts[0] == Open && ts[|ts| - 1] == Close && IsBalanced(ts[1..|ts| - 1])
  }

  lemma {:induction false} JoinEnds(parts: seq<Tokens>, op: GroupOp)
    requires parts != [] && forall i :: 0 <= i < |parts| ==> parts[i] != []
    ensures Join(parts, op) != []
    ensures Join(parts, op)[0] == parts[0][0]
    ensures Join(parts, op)[|Join(parts, op)| - 1] == parts[|parts| - 1][|parts[|parts| - 1]| - 1]
  {
    if |parts| > 1 {
      JoinEnds(parts[..|parts| - 1], op);
    }
  }

  /** The parts of a safe document, all of them with a meaning. */
  lemma SafeParts(q: Query, op: GroupOp, holds: Matcher -> bool) returns (parts: seq<Tokens>)
    requires IsSafe(q, op)
    ensures PrintEntries(q.entries) == Ok(parts) && |parts| == |q.entries|
    ensures PrintQuery(q, op) == Ok(Join(parts, op))
    ensures forall i :: 0 <= i < |parts| ==>
      PrintEntry(q.entries[i]) == Ok(Some(parts[i])) && IsGood(parts[i], EntryHolds(q.entries[i], holds), holds)
  {
    forall i | 0 <= i < |q.entries|
      ensures IsPrinted(q.entries[i])
      ensures IsGood(PrintEntry(q.entries[i]).value.value, EntryHolds(q.entries[i], holds), holds)
    {
      PrintedEntryMeans(q.entries[i], holds);
    }
    PartsOfEntries(q.entries);
    parts := PrintEntries(q.entries).value;
  }

  lemma TestEnds(key: Key, condition: Condition)
    requires IsPrintable(key, condition)
    ensures PrintTest(key, condition).Ok? && PrintTest(key, condition).value.Some?
    ensures
      var ts := PrintTest(key, condition).value.value;
      ts != [] && ts[0] != Open && ts[|ts| - 1] != Close
  {
  }

  lemma {:induction false} EntryEnds(e: Entry, holds: Matcher -> bool)
    requires IsSafeEntry(e)
    ensures IsPrinted(e) && PrintEntry(e).value.value != []
    ensures
      var ts := PrintEntry(e).value.value;
      (ts[0] == Open <==> StartsOpen(e)) && (ts[|ts| - 1] == Close <==> EndsClosed(e))
    decreases e, 1
  {
    match e
    case Test(key, condition) => TestEnds(key, condition);
    case Group(op, items) => GroupEnds(e, holds);
  }

  lemma {:induction false} GroupEnds(e: Entry, holds: Matcher -> bool)
    requires IsSafeEntry(e) && e.Group?
    ensures IsPrinted(e) && PrintEntry(e).value.value != []
    ensures
      var ts := PrintEntry(e).value.value;
      (ts[0] == Open <==> StartsOpen(e)) && (ts[|ts| - 1] == Close <==> EndsClosed(e))
    decreases e, 0
  {
    PrintedGroup(e, holds);
    if |e.items| == 1 {
      var q := e.items[0];
      QueryEnds(q, e.op, holds);
      assert IsSafe(q, e.op) && q.entries != [];
    }
  }

  lemma {:induction false} QueryEnds(q: Query, op: GroupOp, holds: Matcher -> bool)
    requires IsSafe(q, op)
    ensures PrintQuery(q, op).Ok? && PrintQuery(q, op).value != []
    ensures
      var ts := PrintQuery(q, op).value;
      (ts[0] == Open <==> StartsOpen(q.entries[0]))
        && (ts[|ts| - 1] == Close <==> EndsClosed(q.entries[|q.entries| - 1]))
    decreases q
  {
    var parts := SafeParts(q, op, holds);
    JoinEnds(parts, op);
    EntryEnds(q.entries[0], holds);
    EntryEnds(q.entries[|q.entries| - 1], holds);
  }

  /** Two balanced parts beside each other are not enclosed by the first and the last parenthesis. */
  lemma TwoAreNotEnclosed(x: Tokens, op: Token, y: Tokens)
    requires x != [] && IsBalanced(x)
    ensures !IsEnclosed(x + [op] + y)
  {
    var all := x + [op] + y;
    if all[0] == Open && |all| >= 2 && all[|all| - 1] == Close {
      var inner := all[1..|all| - 1];
      FirstPartIsInner(x, op, y);
      assert x == [Open] + x[1..];
      DepthConcat([Open], x[1..]);
      assert Depth(inner[..|x| - 1]) == -1;
    }
  }

  lemma FirstPartIsInner(x: Tokens, op: Token, y: Tokens)
    requires x != [] && |x + [op] + y| >= 2
    ensures |x| - 1 <= |(x + [op] + y)[1..|x + [op] + y| - 1]|
    ensures (x + [op] + y)[1..|x + [op] + y| - 1][..|x| - 1] == x[1..]
  {
    var all := x + [op] + y;
    assert all[..|x|] == x;
    assert all[1..|all| - 1][..|x| - 1] == all[1..|x|];
    assert all[1..|x|] == x[1..];
  }

  lemma {:induction false} OneGroupIsEnclosed(q: Query, op: GroupOp, holds: Matcher -> bool)
    requires IsSafe(q, op) && StartsOpen(q.entries[0]) && EndsClosed(q.entries[|q.entries| - 1])
    ensures PrintQuery(q, op).Ok?
    ensures IsEnclosed(PrintQuery(q, op).value) <==> IsOneGroup(q)
    decreases q
  {
    var parts := SafeParts(q, op, holds);
    if |q.entries| > 1 {
      var n := |parts| - 1;
      var truths := seq(n, i requires 0 <= i < n => EntryHolds(q.entries[i], holds));
      AndMeansAll(parts[..n], truths, holds);
      TwoAreNotEnclosed(Join(parts[..n], And), AndOp, parts[n]);
    } else {
      var e := q.entries[0];
      PrintedGroup(e, holds);
      if |e.items| == 1 {
        OneGroupIsEnclosed(e.items[0], e.op, holds);
      }
    }
  }

  /** A group of one item prints that item, a larger one encloses its items. */
  lemma PrintedGroup(e: Entry, holds: Matcher -> bool)
    requires IsSafeEntry(e) && e.Group?
    ensures IsPrinted(e)
    ensures |e.items| == 1 ==> PrintQuery(e.items[0], e.op) == Ok(PrintEntry(e).value.value)
    ensures |e.items| > 1 ==> IsEnclosed(PrintEntry(e).value.value)
  {
    forall i | 0 <= i < |e.items|
      ensures PrintQuery(e.items[i], e.op).Ok?
      ensures IsGood(PrintQuery(e.items[i], e.op).value, QueryHolds(e.items[i], holds), holds)
    {
      PrintedQueryMeans(e.items[i], e.op, holds);
    }
    PartsOfItems(e.items, e.op);
    var parts := PrintItems(e.items, e.op).value;
    if |parts| > 1 {
      JoinIsEnclosed(
        parts, seq(|e.items|, i requires 0 <= i < |e.items| => QueryHolds(e.items[i], holds)), e.op, holds);
    }
  }

  lemma JoinIsEnclosed(parts: seq<Tokens>, truths: seq<bool>, op: GroupOp, holds: Matcher -> bool)
    requires parts != [] && |truths| == |parts|
    requires forall i :: 0 <= i < |parts| ==> IsGood(parts[i], truths[i], holds)
    ensures IsEnclosed([Open] + Join(parts, op) + [Close])
  {
    if op == And {
      AndMeansAll(parts, truths, holds);
    } else {
      OrMeansAny(parts, truths, holds);
    }
    var inner := Join(parts, op);
    assert ([Open] + inner + [Close])[1..|inner| + 1] == inner;
  }

  /**
   What convert returns for a safe query means what the query means, unless the outermost parentheses belong to
   different groups: then the strip leaves words that are no expression at all.
   */
  lemma ConvertedMeans(q: Query, holds: Matcher -> bool)
    requires IsSafe(q, And)
    ensures PrintQuery(q, And).Ok?
    ensures Eval(Strip(PrintQuery(q, And).value), holds) == if StripBreaks(q) then None else Some(QueryHolds(q, holds))
  {
    PrintedQueryMeans(q, And, holds);
    var ts := PrintQuery(q, And).value;
    QueryEnds(q, And, holds);
    StrippedMeans(ts, holds);
    if StartsOpen(q.entries[0]) && EndsClosed(q.entries[|q.entries| - 1]) {
      OneGroupIsEnclosed(q, And, holds);
      TwoEnds(ts);
    }
  }

  /** Stripping keeps the meaning of what its outer parentheses enclose, and destroys all other words that have some. */
  lemma StrippedMeans(ts: Tokens, holds: Matcher -> bool)
    ensures
      if |ts| >= 2 && ts[0] == Open && ts[|ts| - 1] == Close then
        Eval(Strip(ts), holds) == if IsEnclosed(ts) then Eval(ts, holds) else None
      else Strip(ts) == ts
  {
    if |ts| >= 2 && ts[0] == Open && ts[|ts| - 1] == Close {
      var inner := ts[1..|ts| - 1];
      assert ts == [Open] + inner + [Close];
      InnerMeans(inner, holds);
    }
  }

  lemma InnerMeans(inner: Tokens, holds: Matcher -> bool)
    ensures Eval(inner, holds) == if IsBalanced(inner) then Eval([Open] + inner + [Close], holds) else None
  {
    if IsBalanced(inner) {
      EvalParens(inner, holds);
    } else {
      UnbalancedMeansNothing(inner, holds);
    }
  }

  lemma TwoEnds(ts: Tokens)
    requires ts != [] && ts[0] == Open && ts[|ts| - 1] == Close
    ensures |ts| >= 2
  {
  }

  // ---------- outside of the safe queries ----------

  /** A document whose entries are safe, however many they are. */
  predicate HasSafeEntries(q: Query) {
    q.entries != [] && forall i :: 0 <= i < |q.entries| ==> IsSafeEntry(q.entries[i])
  }

  predicate SomeEntryHolds(q: Query, holds: Matcher -> bool) {
    exists i :: 0 <= i < |q.entries| && EntryHolds(q.entries[i], holds)
  }

  /**
   In an `$or` the entries of one document are joined by `or`, without parentheses: what is printed means that some
   entry holds. It agrees with the document at exactly the minions where all entries hold or none does.
   */
  lemma SeveralEntriesUnderOr(q: Query, holds: Matcher -> bool)
    requires HasSafeEntries(q)
    ensures PrintQuery(q, Or).Ok? && IsEnclosable(PrintQuery(q, Or).value, SomeEntryHolds(q, holds), holds)
    ensures Eval(PrintQuery(q, Or).value, holds) == Some(QueryHolds(q, holds)) <==>
      QueryHolds(q, holds) || !SomeEntryHolds(q, holds)
  {
    var truths := seq(|q.entries|, i requires 0 <= i < |q.entries| => EntryHolds(q.entries[i], holds));
    forall i | 0 <= i < |q.entries|
      ensures IsPrinted(q.entries[i])
      ensures IsGood(PrintEntry(q.entries[i]).value.value, truths[i], holds)
    {
      PrintedEntryMeans(q.entries[i], holds);
    }
    PartsOfEntries(q.entries);
    OrMeansAny(PrintEntries(q.entries).value, truths, holds);
    assert SomeOf(truths) <==> SomeEntryHolds(q, holds);
    assert QueryHolds(q, holds) ==> EntryHolds(q.entries[0], holds);
  }

  predicate SomeItemHasSome(items: seq<Query>, holds: Matcher -> bool) {
    exists i :: 0 <= i < |items| && SomeEntryHolds(items[i], holds)
  }

  lemma {:induction false} EnclosableMeansAny(parts: seq<Tokens>, truths: seq<bool>, holds: Matcher -> bool)
    requires parts != [] && |truths| == |parts|
    requires forall i :: 0 <= i < |parts| ==> IsEnclosable(parts[i], truths[i], holds)
    ensures IsEnclosable(Join(parts, Or), SomeOf(truths), holds)
  {
    var n := |parts| - 1;
    if n > 0 {
      EnclosableMeansAny(parts[..n], truths[..n], holds);
      OrIsEnclosable(Join(parts[..n], Or), SomeOf(truths[..n]), parts[n], truths[n], holds);
    } else {
      assert truths[..n] == [];
    }
  }

  /**
   So an `$or` of several documents is printed as the disjunction of all their entries, in parentheses. It agrees
   with the query at exactly the minions where some document holds whole, or no entry of any does.
   */
  lemma OrGroupMeansAnyEntry(items: seq<Query>, holds: Matcher -> bool)
    requires |items| > 1 && forall i :: 0 <= i < |items| ==> HasSafeEntries(items[i])
    ensures IsPrinted(Group(Or, items))
    ensures IsGood(PrintEntry(Group(Or, items)).value.value, SomeItemHasSome(items, holds), holds)
    ensures SomeItemHasSome(items, holds) == EntryHolds(Group(Or, items), holds) <==>
      EntryHolds(Group(Or, items), holds) || !SomeItemHasSome(items, holds)
  {
    var truths := seq(|items|, i requires 0 <= i < |items| => SomeEntryHolds(items[i], holds));
    forall i | 0 <= i < |items|
      ensures PrintQuery(items[i], Or).Ok? && IsEnclosable(PrintQuery(items[i], Or).value, truths[i], holds)
      ensures QueryHolds(items[i], holds) ==> SomeEntryHolds(items[i], holds)
    {
      SeveralEntriesUnderOr(items[i], holds);
      assert QueryHolds(items[i], holds) ==> EntryHolds(items[i].entries[0], holds);
    }
    PartsOfItems(items, Or);
    var parts := PrintItems(items, Or).value;
    EnclosableMeansAny(parts, truths, holds);
    ParensAreGood(Join(parts, Or), SomeOf(truths), holds);
    assert SomeOf(truths) <==> SomeItemHasSome(items, holds);
  }

  /** An entry with an unknown key is left out: whatever it asks for, the target does not. */
  lemma UnknownKeyIsLeftOut(entries: seq<Entry>, name: string, condition: Condition, op: GroupOp)
    requires condition != Ordered && condition != Malformed
    ensures PrintQuery(Query(entries + [Test(Unknown(name), condition)]), op) == PrintQuery(Query(entries), op)
  {
    var all := entries + [Test(Unknown(name), condition)];
    assert all[..|all| - 1] == entries;
    assert PrintEntry(all[|all| - 1]) == Ok(None);
    assert PrintEntries(all) == PrintEntries(entries);
  }
}
