/**
 * LINQ's GroupBy followed by a per-group Sum: the distinct keys in the order
 * of their first occurrence, and the sum of a value over the elements of each
 * key. The central fact: the bucket sums add up to the sum over all elements.
 */
module Grouping {
  import opened Sorting

  ghost predicate Distinct<K>(keys: seq<K>) {
    forall i, j :: 0 <= i < j < |keys| ==> keys[i] != keys[j]
  }

  /** The keys of `s`, each once, in the order in which they first occur. */
  function DistinctKeys<T, K(==,!new)>(s: seq<T>, key: T -> K): (r: seq<K>)
    ensures Distinct(r)
    ensures forall k :: k in r <==> exists i :: 0 <= i < |s| && key(s[i]) == k
  {
    if s == [] then []
    else
      var keys := DistinctKeys(s[..|s| - 1], key);
      var k := key(s[|s| - 1]);
      assert forall i :: 0 <= i < |s| - 1 ==> s[..|s| - 1][i] == s[i];
      if k in keys then keys else keys + [k]
  }

  /** The sum of `f` over the elements whose key is `k`. */
  function BucketSum<T, K(==)>(s: seq<T>, key: T -> K, k: K, f: T -> real): real {
    if s == [] then 0.0
    else BucketSum(s[..|s| - 1], key, k, f) + (if key(s[|s| - 1]) == k then f(s[|s| - 1]) else 0.0)
  }

  /** The bucket sums of `s` for the given keys, added up. */
  function SumBuckets<T, K(==)>(s: seq<T>, key: T -> K, keys: seq<K>, f: T -> real): real {
    if keys == [] then 0.0
    else SumBuckets(s, key, keys[..|keys| - 1], f) + BucketSum(s, key, keys[|keys| - 1], f)
  }

  /** The bucket of a key that no element has is empty. */
  lemma {:induction false} BucketSumAbsent<T, K>(s: seq<T>, key: T -> K, k: K, f: T -> real)
    requires forall i :: 0 <= i < |s| ==> key(s[i]) != k
    ensures BucketSum(s, key, k, f) == 0.0
  {
    if s != [] {
      BucketSumAbsent(s[..|s| - 1], key, k, f);
    }
  }

  /** Adding one element adds its value to the bucket sums exactly when its key is among the keys. */
  lemma {:induction false} SumBucketsSnoc<T, K>(s: seq<T>, x: T, key: T -> K, keys: seq<K>, f: T -> real)
    requires Distinct(keys)
    ensures SumBuckets(s + [x], key, keys, f) ==
            SumBuckets(s, key, keys, f) + (if key(x) in keys then f(x) else 0.0)
  {
    assert (s + [x])[..|s + [x]| - 1] == s;
    if keys != [] {
      var init := keys[..|keys| - 1];
      assert Distinct(init);
      SumBucketsSnoc(s, x, key, init, f);
      assert key(x) in keys <==> key(x) in init || key(x) == keys[|keys| - 1];
      assert !(key(x) in init && key(x) == keys[|keys| - 1]);
    }
  }

  /** Extending the key list by a key whose bucket is empty adds nothing. */
  lemma SumBucketsExtend<T, K>(s: seq<T>, key: T -> K, keys: seq<K>, k: K, f: T -> real)
    ensures SumBuckets(s, key, keys + [k], f) == SumBuckets(s, key, keys, f) + BucketSum(s, key, k, f)
  {
    assert (keys + [k])[..|keys + [k]| - 1] == keys;
  }

  /** The bucket sums over the distinct keys add up to the sum over all elements. */
  lemma {:induction false} BucketSumsTotal<T, K(!new)>(s: seq<T>, key: T -> K, f: T -> real)
    ensures SumBuckets(s, key, DistinctKeys(s, key), f) == SumBy(s, f)
  {
    if s != [] {
      var init, x := s[..|s| - 1], s[|s| - 1];
      assert s == init + [x];
      var keys := DistinctKeys(init, key);
      BucketSumsTotal(init, key, f);
      SumByAppend(init, [x], f);
      SumBucketsSnoc(init, x, key, keys, f);
      if key(x) !in keys {
        SumBucketsExtend(s, key, keys, key(x), f);
        SumBucketsSnoc(init, x, key, [key(x)], f);
        BucketSumAbsent(init, key, key(x), f);
        assert SumBuckets(init, key, [key(x)], f) == BucketSum(init, key, key(x), f);
      }
    }
  }

  /** The key of each bucket, in bucket order. */
  function KeysOf<B, K>(buckets: seq<B>, keyOf: B -> K): (r: seq<K>)
    ensures |r| == |buckets| && forall i :: 0 <= i < |buckets| ==> r[i] == keyOf(buckets[i])
  {
    seq(|buckets|, i requires 0 <= i < |buckets| => keyOf(buckets[i]))
  }

  /**
   * Buckets made one per distinct key, in any order, cover exactly the keys
   * of the elements: every bucket's key is some element's, and every
   * element's key has a bucket.
   */
  lemma BucketsCoverKeys<T, K(!new), B>(s: seq<T>, key: T -> K, keys: seq<K>, buckets: seq<B>, r: seq<B>, keyOf: B -> K)
    requires forall k :: k in keys <==> exists i :: 0 <= i < |s| && key(s[i]) == k
    requires keys == KeysOf(buckets, keyOf)
    requires multiset(r) == multiset(buckets)
    ensures forall i :: 0 <= i < |r| ==> exists j :: 0 <= j < |s| && key(s[j]) == keyOf(r[i])
    ensures forall j :: 0 <= j < |s| ==> exists i :: 0 <= i < |r| && keyOf(r[i]) == key(s[j])
  {
    forall i | 0 <= i < |r| ensures keyOf(r[i]) in keys {
      assert r[i] in multiset(buckets);
      var k :| 0 <= k < |buckets| && buckets[k] == r[i];
    }
    forall j | 0 <= j < |s| ensures exists i :: 0 <= i < |r| && keyOf(r[i]) == key(s[j]) {
      assert key(s[j]) in keys;
      var k :| 0 <= k < |keys| && keys[k] == key(s[j]);
      assert buckets[k] in multiset(r);
      var i :| 0 <= i < |r| && r[i] == buckets[k];
    }
  }
}
