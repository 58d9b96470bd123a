/** Association lists: sequences of (key, value) pairs in insertion order, the
    shape both a PHP array and the response's header table take here. */
module Assoc {
  /** The invariant every PHP array keeps: no key occurs twice. */
  predicate UniqueKeys<K(==), V>(a: seq<(K, V)>)
  {
    forall i, j :: 0 <= i < j < |a| ==> a[i].0 != a[j].0
  }
}
