/** Sums over event lists, and their conservation when the list is split by a key. */
module Sums {
  function Total<E>(s: seq<E>, w: E -> int): int {
    if s == [] then 0 else Total(s[..|s| - 1], w) + w(s[|s| - 1])
  }

  /** The elements carrying key `k`, in order: one bucket of a group-by. */
  function Group<E, K(==)>(s: seq<E>, keyOf: E -> K, k: K): seq<E> {
    if s == [] then []
    else Group(s[..|s| - 1], keyOf, k) + if keyOf(s[|s| - 1]) == k then [s[|s| - 1]] else []
  }

  predicate Distinct<K(==)>(keys: seq<K>) {
    forall i, j :: 0 <= i < j < |keys| ==> keys[i] != keys[j]
  }

  /** The sum over the buckets of `keys`. */
  function SumGroups<E, K(==)>(keys: seq<K>, s: seq<E>, keyOf: E -> K, w: E -> int): int {
    if keys == [] then 0
    else Total(Group(s, keyOf, keys[0]), w) + SumGroups(keys[1..], s, keyOf, w)
  }

  lemma {:induction false} TotalAppend<E>(s: seq<E>, e: E, w: E -> int)
    ensures Total(s + [e], w) == Total(s, w) + w(e)
  {
    assert (s + [e])[..|s|] == s;
  }

  lemma {:induction false} SumGroupsAppend<E, K>(keys: seq<K>, s: seq<E>, e: E, keyOf: E -> K, w: E -> int)
    requires Distinct(keys)
    ensures SumGroups(keys, s + [e], keyOf, w) == SumGroups(keys, s, keyOf, w) + if keyOf(e) in keys then w(e) else 0
  {
    assert (s + [e])[..|s|] == s;
    if keys != [] {
      SumGroupsAppend(keys[1..], s, e, keyOf, w);
      TotalAppend(Group(s, keyOf, keys[0]), e, w);
      assert Group(s, keyOf, keys[0]) + [] == Group(s, keyOf, keys[0]);
      assert keyOf(e) in keys <==> keyOf(e) == keys[0] || keyOf(e) in keys[1..];
    }
  }

  /** Whatever figure is summed, the buckets of a group-by add up to the whole. */
  lemma {:induction false} BucketsSumToWhole<E, K>(keys: seq<K>, s: seq<E>, keyOf: E -> K, w: E -> int)
    requires Distinct(keys) && forall i :: 0 <= i < |s| ==> keyOf(s[i]) in keys
    ensures SumGroups(keys, s, keyOf, w) == Total(s, w)
  {
    if s == [] {
      EmptyBuckets(keys, s, keyOf, w);
    } else {
      var init, e := s[..|s| - 1], s[|s| - 1];
      assert s == init + [e] && keyOf(e) in keys;
      forall i | 0 <= i < |init| ensures keyOf(init[i]) in keys {
        assert init[i] == s[i];
      }
      BucketsSumToWhole(keys, init, keyOf, w);
      SumGroupsAppend(keys, init, e, keyOf, w);
    }
  }

  lemma {:induction false} EmptyBuckets<E, K>(keys: seq<K>, s: seq<E>, keyOf: E -> K, w: E -> int)
    requires s == []
    ensures SumGroups(keys, s, keyOf, w) == 0
  {
    if keys != [] { EmptyBuckets(keys[1..], s, keyOf, w); }
  }
}
