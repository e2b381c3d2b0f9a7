/** Adding up what the values of a map hold. */
module Sums {

  /** All that the values of a map hold, every key counted once. */
  ghost function Sum<K(!new), V>(held: map<K, multiset<V>>): multiset<V>
    decreases |held|
  {
    if held == map[] then multiset{}
    else
      var key :| key in held;
      held[key] + Sum(held - {key})
  }

  lemma {:induction false} SumAt<K(!new), V>(held: map<K, multiset<V>>, key: K)
    requires key in held
    ensures Sum(held) == held[key] + Sum(held - {key})
    decreases |held|
  {
    var first :| first in held && Sum(held) == held[first] + Sum(held - {first});
    if first != key {
      SumAt(held - {first}, key);
      SumAt(held - {key}, first);
      assert held - {first} - {key} == held - {key} - {first};
    }
  }

  /** The value of one key changes by so much. */
  lemma SumPut<K(!new), V>(held: map<K, multiset<V>>, key: K, value: multiset<V>)
    ensures Sum(held[key := value]) == Sum(held - {key}) + value
  {
    SumAt(held[key := value], key);
    assert held[key := value] - {key} == held - {key};
  }

  /** One key gets so much more. */
  lemma SumMore<K(!new), V>(held: map<K, multiset<V>>, key: K, more: multiset<V>)
    ensures Sum(held[key := (if key in held then held[key] else multiset{}) + more]) == Sum(held) + more
  {
    if key in held {
      SumPut(held, key, held[key] + more);
      SumAt(held, key);
    } else {
      SumPut(held, key, multiset{} + more);
      assert held - {key} == held;
    }
  }

  lemma {:induction false} SumOfNothing<K(!new), V>(held: map<K, multiset<V>>)
    requires forall key :: key in held ==> held[key] == multiset{}
    ensures Sum(held) == multiset{}
    decreases |held|
  {
    if held != map[] {
      var key :| key in held;
      SumAt(held, key);
      SumOfNothing(held - {key});
    }
  }
}
