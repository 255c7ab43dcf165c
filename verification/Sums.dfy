/**
  Sums over finite sets, for loops over Go maps, whose order is unspecified.
  */
module Sums {

  ghost function SumOver<K>(keys: set<K>, f: K -> int): int {
    if keys == {} then 0
    else
      var k :| k in keys;
      f(k) + SumOver(keys - {k}, f)
  }

  lemma SumNone<K>(f: K -> int)
    ensures SumOver({}, f) == 0
  {
  }

  /** Any element may be taken out first. */
  lemma {:induction false} SumTake<K>(keys: set<K>, k: K, f: K -> int)
    requires k in keys
    ensures SumOver(keys, f) == f(k) + SumOver(keys - {k}, f)
    decreases keys
  {
    var first :| first in keys && SumOver(keys, f) == f(first) + SumOver(keys - {first}, f);
    if first != k {
      SumTake(keys - {first}, k, f);
      SumTake(keys - {k}, first, f);
      assert keys - {first} - {k} == keys - {k} - {first};
    }
  }
}
