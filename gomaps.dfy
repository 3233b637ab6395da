/**
 * Go's `range` over a map visits every key once, in an order the language
 * leaves unspecified. The model takes that order as an input.
 */
module GoMaps {

  /** `order` lists every key of `m` exactly once: one possible iteration order. */
  predicate IsKeyOrder<V>(order: seq<string>, m: map<string, V>) {
    && (forall k :: k in order ==> k in m)
    && (forall k :: k in m ==> k in order)
    && (forall i, j :: 0 <= i < j < |order| ==> order[i] != order[j])
  }

  /** An iteration order visits as many keys as the map has entries. */
  lemma KeyOrderLength<V>(order: seq<string>, m: map<string, V>)
    requires IsKeyOrder(order, m)
    ensures |order| == |m|
  {
    assert (set k | k in order) == m.Keys;
    DistinctSize(order);
  }

  lemma {:induction false} DistinctSize(s: seq<string>)
    requires forall i, j :: 0 <= i < j < |s| ==> s[i] != s[j]
    ensures |(set k | k in s)| == |s|
  {
    if s != [] {
      DistinctSize(s[1..]);
      assert (set k | k in s) == {s[0]} + (set k | k in s[1..]);
      assert s[0] !in (set k | k in s[1..]);
    }
  }
}
