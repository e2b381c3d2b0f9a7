/** Salt's compound targets, as a list of words: `and` binds tighter than `or`. */
module TgtExpressions {
  import opened Wrappers

  /** One matcher: `G@` compares a grain, `P@` matches it with a pattern, here one pattern or a choice of values. */
  datatype Matcher =
    | Glob(grain: string, value: string)
    | Pattern(grain: string, regex: string)
    | AnyOf(grain: string, values: seq<string>)

  datatype Token = Open | Close | AndOp | OrOp | NotOp | Match(matcher: Matcher)

  type Tokens = seq<Token>

  function Step(t: Token): int {
    match t case Open => 1 case Close => -1 case _ => 0
  }

  function Depth(ts: Tokens): int {
    if ts == [] then 0 else Step(ts[0]) + Depth(ts[1..])
  }

  ghost predicate IsBalanced(ts: Tokens) {
    Depth(ts) == 0 && forall i :: 0 <= i <= |ts| ==> Depth(ts[..i]) >= 0
  }

  /** Where the operator first stands outside parentheses, counting from the given depth; the length when nowhere. */
  function FirstAt(ts: Tokens, op: Token, depth: int): (k: nat)
    ensures k <= |ts| && (k < |ts| ==> ts[k] == op)
  {
    if ts == [] then 0
    else if ts[0] == op && depth == 0 then 0
    else 1 + FirstAt(ts[1..], op, depth + Step(ts[0]))
  }

  function Either(a: Option<bool>, b: Option<bool>): Option<bool> {
    if a.Some? && b.Some? then Some(a.value || b.value) else None
  }

  function Both(a: Option<bool>, b: Option<bool>): Option<bool> {
    if a.Some? && b.Some? then Some(a.value && b.value) else None
  }

  /** What the words mean for a minion, or None when they are no expression. */
  function Eval(ts: Tokens, holds: Matcher -> bool): Option<bool>
    decreases |ts|
  {
    var o := FirstAt(ts, OrOp, 0);
    var a := FirstAt(ts, AndOp, 0);
    if o < |ts| then Either(Eval(ts[..o], holds), Eval(ts[o + 1..], holds))
    else if a < |ts| then Both(Eval(ts[..a], holds), Eval(ts[a + 1..], holds))
    else if ts == [] then None
    else if ts[0] == NotOp then
      (match Eval(ts[1..], holds) case Some(b) => Some(!b) case None => None)
    else if |ts| == 1 && ts[0].Match? then Some(holds(ts[0].matcher))
    else if |ts| >= 2 && ts[0] == Open && ts[|ts| - 1] == Close then Eval(ts[1..|ts| - 1], holds)
    else None
  }

  // ---------- depth ----------

  lemma {:induction false} DepthConcat(x: Tokens, y: Tokens)
    ensures Depth(x + y) == Depth(x) + Depth(y)
  {
    if x == [] {
      assert x + y == y;
    } else {
      assert (x + y)[1..] == x[1..] + y;
      DepthConcat(x[1..], y);
    }
  }

  lemma BalancedConcat(x: Tokens, y: Tokens)
    requires IsBalanced(x) && IsBalanced(y)
    ensures IsBalanced(x + y)
  {
    DepthConcat(x, y);
    forall i | 0 <= i <= |x + y|
      ensures Depth((x + y)[..i]) >= 0
    {
      if i <= |x| {
        assert (x + y)[..i] == x[..i];
      } else {
        assert (x + y)[..i] == x + y[..i - |x|];
        DepthConcat(x, y[..i - |x|]);
      }
    }
  }

  lemma PlainIsBalanced(t: Token)
    requires t != Open && t != Close
    ensures IsBalanced([t])
  {
    assert [t][..0] == [] && [t][..1] == [t];
  }

  lemma BalancedInfix(x: Tokens, op: Token, y: Tokens)
    requires IsBalanced(x) && IsBalanced(y) && op != Open && op != Close
    ensures IsBalanced(x + [op] + y)
  {
    PlainIsBalanced(op);
    BalancedConcat(x, [op]);
    BalancedConcat(x + [op], y);
  }

  lemma BalancedParens(x: Tokens)
    requires IsBalanced(x)
    ensures IsBalanced([Open] + x + [Close])
  {
    var all := [Open] + x + [Close];
    DepthConcat([Open] + x, [Close]);
    DepthConcat([Open], x);
    forall i | 0 <= i <= |all|
      ensures Depth(all[..i]) >= 0
    {
      if i == 0 {
        assert all[..i] == [];
      } else if i <= |x| + 1 {
        assert all[..i] == [Open] + x[..i - 1];
        DepthConcat([Open], x[..i - 1]);
      } else {
        assert all[..i] == all;
      }
    }
  }

  // ---------- operators outside parentheses ----------

  lemma {:induction false} FirstInConcat(x: Tokens, y: Tokens, op: Token, depth: int)
    ensures FirstAt(x + y, op, depth) ==
      if FirstAt(x, op, depth) < |x| then FirstAt(x, op, depth) else |x| + FirstAt(y, op, depth + Depth(x))
  {
    if x == [] {
      assert x + y == y;
    } else {
      assert (x + y)[1..] == x[1..] + y;
      FirstInConcat(x[1..], y, op, depth + Step(x[0]));
    }
  }

  /** Up to the first operator outside parentheses all parentheses are closed, and so they are after it. */
  lemma {:induction false} FirstIsOutside(x: Tokens, op: Token, depth: int)
    requires FirstAt(x, op, depth) < |x|
    ensures depth + Depth(x[..FirstAt(x, op, depth)]) == 0
  {
    var k := FirstAt(x, op, depth);
    if k == 0 {
      assert x[..k] == [];
    } else {
      FirstIsOutside(x[1..], op, depth + Step(x[0]));
      assert x[..k] == [x[0]] + x[1..][..k - 1];
      DepthConcat([x[0]], x[1..][..k - 1]);
    }
  }

  lemma SplitBalanced(x: Tokens, op: Token)
    requires IsBalanced(x) && op != Open && op != Close && FirstAt(x, op, 0) < |x|
    ensures var k := FirstAt(x, op, 0); x == x[..k] + [op] + x[k + 1..] && IsBalanced(x[..k]) && IsBalanced(x[k + 1..])
  {
    var k := FirstAt(x, op, 0);
    FirstIsOutside(x, op, 0);
    var left, right := x[..k], x[k + 1..];
    assert x == left + [op] + right;
    DepthConcat(left + [op], right);
    DepthConcat(left, [op]);
    forall i | 0 <= i <= |left|
      ensures Depth(left[..i]) >= 0
    {
      assert left[..i] == x[..i];
    }
    forall i | 0 <= i <= |right|
      ensures Depth(right[..i]) >= 0
    {
      assert x[..k + 1 + i] == left + [op] + right[..i];
      DepthConcat(left + [op], right[..i]);
    }
  }

  /** Inside parentheses nothing is outside of them. */
  lemma {:induction false} NothingOutside(x: Tokens, op: Token, depth: int)
    requires depth > 0 && op != Open && op != Close
    requires forall i :: 0 <= i <= |x| ==> depth + Depth(x[..i]) > 0
    ensures FirstAt(x, op, depth) == |x|
  {
    if x != [] {
      assert x[..1] == [x[0]] && Depth(x[..1]) == Step(x[0]);
      forall i | 0 <= i <= |x[1..]|
        ensures depth + Step(x[0]) + Depth(x[1..][..i]) > 0
      {
        assert x[..i + 1] == [x[0]] + x[1..][..i];
      }
      NothingOutside(x[1..], op, depth + Step(x[0]));
    }
  }

  lemma ParensHideAll(x: Tokens, op: Token)
    requires IsBalanced(x) && op != Open && op != Close
    ensures FirstAt([Open] + x + [Close], op, 0) == |x| + 2
  {
    NothingOutside(x, op, 1);
    FirstInConcat([Open], x, op, 0);
    FirstInConcat([Open] + x, [Close], op, 0);
    assert [Open][1..] == [] && [Close][1..] == [];
  }

  // ---------- what compound expressions mean ----------

  lemma EvalParens(x: Tokens, holds: Matcher -> bool)
    requires IsBalanced(x)
    ensures Eval([Open] + x + [Close], holds) == Eval(x, holds)
  {
    ParensHideAll(x, OrOp);
    ParensHideAll(x, AndOp);
    var all := [Open] + x + [Close];
    assert all[1..|all| - 1] == x;
  }

  lemma EvalAtOr(ts: Tokens, x: Tokens, y: Tokens, holds: Matcher -> bool)
    requires ts == x + [OrOp] + y && FirstAt(ts, OrOp, 0) == |x|
    ensures Eval(ts, holds) == Either(Eval(x, holds), Eval(y, holds))
  {
    assert ts[..|x|] == x && ts[|x| + 1..] == y;
  }

  lemma EvalAtAnd(ts: Tokens, x: Tokens, y: Tokens, holds: Matcher -> bool)
    requires ts == x + [AndOp] + y && FirstAt(ts, OrOp, 0) == |ts| && FirstAt(ts, AndOp, 0) == |x|
    ensures Eval(ts, holds) == Both(Eval(x, holds), Eval(y, holds))
  {
    assert ts[..|x|] == x && ts[|x| + 1..] == y;
  }

  lemma {:induction false} EvalOr(x: Tokens, y: Tokens, holds: Matcher -> bool)
    requires IsBalanced(x)
    ensures Eval(x + [OrOp] + y, holds) == Either(Eval(x, holds), Eval(y, holds))
    decreases |x|
  {
    var all := x + [OrOp] + y;
    var k := FirstAt(x, OrOp, 0);
    FirstOfInfix(x, OrOp, y, OrOp);
    if k == |x| {
      EvalAtOr(all, x, y, holds);
    } else {
      var left, right := SplitAt(x, OrOp, y);
      EvalOr(right, y, holds);
      OrFromParts(all, x, left, right, y, holds);
    }
  }

  lemma SplitAt(x: Tokens, op: Token, y: Tokens) returns (left: Tokens, right: Tokens)
    requires IsBalanced(x) && op != Open && op != Close && FirstAt(x, op, 0) < |x|
    ensures left == x[..FirstAt(x, op, 0)] && right == x[FirstAt(x, op, 0) + 1..]
    ensures x == left + [op] + right && IsBalanced(left) && IsBalanced(right)
    ensures x + [op] + y == left + [op] + (right + [op] + y)
  {
    SplitBalanced(x, op);
    left, right := x[..FirstAt(x, op, 0)], x[FirstAt(x, op, 0) + 1..];
  }

  lemma OrFromParts(all: Tokens, x: Tokens, left: Tokens, right: Tokens, y: Tokens, holds: Matcher -> bool)
    requires all == left + [OrOp] + (right + [OrOp] + y) && FirstAt(all, OrOp, 0) == |left|
    requires x == left + [OrOp] + right && FirstAt(x, OrOp, 0) == |left|
    requires Eval(right + [OrOp] + y, holds) == Either(Eval(right, holds), Eval(y, holds))
    ensures Eval(all, holds) == Either(Eval(x, holds), Eval(y, holds))
  {
    EvalAtOr(all, left, right + [OrOp] + y, holds);
    EvalAtOr(x, left, right, holds);
  }

  lemma AndFromParts(all: Tokens, x: Tokens, left: Tokens, right: Tokens, y: Tokens, holds: Matcher -> bool)
    requires all == left + [AndOp] + (right + [AndOp] + y)
    requires FirstAt(all, OrOp, 0) == |all| && FirstAt(all, AndOp, 0) == |left|
    requires x == left + [AndOp] + right && FirstAt(x, OrOp, 0) == |x| && FirstAt(x, AndOp, 0) == |left|
    requires Eval(right + [AndOp] + y, holds) == Both(Eval(right, holds), Eval(y, holds))
    ensures Eval(all, holds) == Both(Eval(x, holds), Eval(y, holds))
  {
    EvalAtAnd(all, left, right + [AndOp] + y, holds);
    EvalAtAnd(x, left, right, holds);
  }

  /** Where an operator first stands in an expression made of two with an operator between them. */
  lemma FirstOfInfix(x: Tokens, mid: Token, y: Tokens, op: Token)
    requires IsBalanced(x) && mid != Open && mid != Close
    ensures FirstAt(x + [mid] + y, op, 0) ==
      if FirstAt(x, op, 0) < |x| then FirstAt(x, op, 0)
      else if mid == op then |x|
      else |x| + 1 + FirstAt(y, op, 0)
  {
    assert x + [mid] + y == x + ([mid] + y) && ([mid] + y)[1..] == y;
    FirstInConcat(x, [mid] + y, op, 0);
  }

  lemma {:induction false} EvalAnd(x: Tokens, y: Tokens, holds: Matcher -> bool)
    requires IsBalanced(x) && FirstAt(x, OrOp, 0) == |x| && FirstAt(y, OrOp, 0) == |y|
    ensures Eval(x + [AndOp] + y, holds) == Both(Eval(x, holds), Eval(y, holds))
    ensures FirstAt(x + [AndOp] + y, OrOp, 0) == |x + [AndOp] + y|
    decreases |x|
  {
    var all := x + [AndOp] + y;
    var k := FirstAt(x, AndOp, 0);
    FirstOfInfix(x, AndOp, y, OrOp);
    FirstOfInfix(x, AndOp, y, AndOp);
    if k == |x| {
      EvalAtAnd(all, x, y, holds);
    } else {
      var left, right := SplitAt(x, AndOp, y);
      NoneInTail(x, k);
      EvalAnd(right, y, holds);
      AndFromParts(all, x, left, right, y, holds);
    }
  }

  lemma NoneInTail(x: Tokens, k: nat)
    requires IsBalanced(x) && FirstAt(x, OrOp, 0) == |x| && k == FirstAt(x, AndOp, 0) && k < |x|
    ensures FirstAt(x[k + 1..], OrOp, 0) == |x[k + 1..]|
  {
    SplitBalanced(x, AndOp);
    FirstInConcat(x[..k] + [AndOp], x[k + 1..], OrOp, 0);
    DepthConcat(x[..k], [AndOp]);
    assert x == (x[..k] + [AndOp]) + x[k + 1..];
  }

  /** The ways an expression can be made. */
  lemma {:induction false} EvalIsMade(ts: Tokens, holds: Matcher -> bool)
    requires Eval(ts, holds).Some?
    ensures
      var o, a := FirstAt(ts, OrOp, 0), FirstAt(ts, AndOp, 0);
      || (o < |ts| && Eval(ts[..o], holds).Some? && Eval(ts[o + 1..], holds).Some?)
      || (a < |ts| && Eval(ts[..a], holds).Some? && Eval(ts[a + 1..], holds).Some?)
      || (ts != [] && ts[0] == NotOp && Eval(ts[1..], holds).Some?)
      || (|ts| == 1 && ts[0].Match?)
      || (|ts| >= 2 && ts[0] == Open && ts[|ts| - 1] == Close && Eval(ts[1..|ts| - 1], holds).Some?)
  {
  }

  /** Only words with matching parentheses are an expression. */
  lemma {:induction false} OnlyBalancedMeans(ts: Tokens, holds: Matcher -> bool)
    requires Eval(ts, holds).Some?
    ensures IsBalanced(ts)
    decreases |ts|, 1
  {
    EvalIsMade(ts, holds);
    var o, a := FirstAt(ts, OrOp, 0), FirstAt(ts, AndOp, 0);
    if o < |ts| && Eval(ts[..o], holds).Some? && Eval(ts[o + 1..], holds).Some? {
      InfixMeans(ts, o, holds);
    } else if a < |ts| && Eval(ts[..a], holds).Some? && Eval(ts[a + 1..], holds).Some? {
      InfixMeans(ts, a, holds);
    } else if ts[0] == NotOp {
      OnlyBalancedMeans(ts[1..], holds);
      PlainIsBalanced(NotOp);
      BalancedConcat([NotOp], ts[1..]);
      assert ts == [NotOp] + ts[1..];
    } else if |ts| == 1 {
      PlainIsBalanced(ts[0]);
      assert ts == [ts[0]];
    } else {
      var inner := ts[1..|ts| - 1];
      OnlyBalancedMeans(inner, holds);
      BalancedParens(inner);
      assert ts == [Open] + inner + [Close];
    }
  }

  lemma {:induction false} InfixMeans(ts: Tokens, k: nat, holds: Matcher -> bool)
    requires k < |ts| && ts[k] in {OrOp, AndOp}
    requires Eval(ts[..k], holds).Some? && Eval(ts[k + 1..], holds).Some?
    ensures IsBalanced(ts)
    decreases |ts|, 0
  {
    OnlyBalancedMeans(ts[..k], holds);
    OnlyBalancedMeans(ts[k + 1..], holds);
    BalancedInfix(ts[..k], ts[k], ts[k + 1..]);
    assert ts == ts[..k] + [ts[k]] + ts[k + 1..];
  }

  lemma UnbalancedMeansNothing(ts: Tokens, holds: Matcher -> bool)
    requires !IsBalanced(ts)
    ensures Eval(ts, holds) == None
  {
    if Eval(ts, holds).Some? {
      OnlyBalancedMeans(ts, holds);
    }
  }
}
