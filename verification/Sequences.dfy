/** Sequences without repetition. */
module Sequences {

  ghost predicate Distinct<T>(s: seq<T>) {
    forall i, j :: 0 <= i < j < |s| ==> s[i] != s[j]
  }

  function Elements<T>(s: seq<T>): set<T> {
    set a | a in s
  }

  lemma {:induction false} DistinctByCount<T>(s: seq<T>)
    ensures Distinct(s) <==> forall x :: x in s ==> multiset(s)[x] == 1
  {
    if s != [] {
      var n := |s| - 1;
      var t := s[..n];
      DistinctByCount(t);
      assert s == t + [s[n]] && multiset(s) == multiset(t) + multiset{s[n]};
      if Distinct(s) {
        assert Distinct(t) && s[n] !in t;
      } else if s[n] !in t {
        assert !Distinct(t);
        var x :| x in t && multiset(t)[x] != 1;
        assert x in s && multiset(s)[x] != 1;
      } else {
        assert multiset(t)[s[n]] >= 1;
        assert s[n] in s && multiset(s)[s[n]] != 1;
      }
    }
  }

  lemma DistinctTail<T>(s: seq<T>)
    requires Distinct(s) && s != []
    ensures Distinct(s[1..])
    ensures forall x :: x in s[1..] <==> x in s && x != s[0]
  {
    assert s == [s[0]] + s[1..];
    assert forall i :: 1 <= i < |s| ==> s[i] == s[1..][i - 1];
  }

  lemma DistinctConcat<T>(s: seq<T>, t: seq<T>)
    requires Distinct(s) && Distinct(t) && forall x :: x in t ==> x !in s
    ensures Distinct(s + t)
  {
    forall i, j | 0 <= i < j < |s + t|
      ensures (s + t)[i] != (s + t)[j]
    {
      if i < |s| <= j {
        assert (s + t)[j] in t && (s + t)[i] in s;
      }
    }
  }

  lemma NonEmptyHasMember<T>(s: seq<T>)
    ensures s == [] || exists x :: x in s
  {
    if s != [] {
      assert s[0] in s;
    }
  }

  lemma OneFewerLeft<T>(all: seq<T>, placed: seq<T>, x: T)
    requires x in all && x !in placed
    ensures Elements(all) - Elements(placed + [x]) < Elements(all) - Elements(placed)
  {
    assert x in Elements(all) - Elements(placed) && x !in Elements(all) - Elements(placed + [x]);
  }

  lemma MoveHead<T>(s: seq<T>, t: seq<T>)
    requires t != []
    ensures s + t == s + [t[0]] + t[1..]
  {
  }
}
