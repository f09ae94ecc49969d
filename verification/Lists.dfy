/** Lists without repeated elements. */
module Lists {

  predicate IsDistinct<T(==)>(items: seq<T>) {
    forall i, j :: 0 <= i < j < |items| ==> items[i] != items[j]
  }

  lemma {:induction false} DistinctCounts<T>(items: seq<T>)
    requires IsDistinct(items)
    ensures forall item :: multiset(items)[item] == if item in items then 1 else 0
  {
    if items != [] {
      var n := |items| - 1;
      DistinctCounts(items[..n]);
      assert items == items[..n] + [items[n]];
      assert items[n] !in items[..n];
    }
  }
}
