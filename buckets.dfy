/** A dictionary of lists filled by "append to the key's list, or create it":
    the shape of both the grouping index (structural key -> trace ids) and
    the per-edge latency series (edge -> latencies). */
module Buckets {

  /** The bucket of `k`, or the empty list when `k` has none. */
  function Get<K(==), V>(m: map<K, seq<V>>, k: K): seq<V> {
    if k in m then m[k] else []
  }

  /** Appends `v` to the bucket of `k`, creating the bucket if it is absent;
      every other bucket is left as it was. */
  function Add<K(==), V>(m: map<K, seq<V>>, k: K, v: V): (r: map<K, seq<V>>)
    ensures r.Keys == m.Keys + {k}
    ensures r[k] == Get(m, k) + [v]
    ensures forall j :: j in m && j != k ==> r[j] == m[j]
  {
    if k in m then m[k := m[k] + [v]] else m[k := [v]]
  }

  /** Adds every pair in order, starting from `m`. */
  function AddAll<K(==), V>(m: map<K, seq<V>>, pairs: seq<(K, V)>): map<K, seq<V>> {
    if pairs == [] then m
    else
      var p := pairs[|pairs| - 1];
      Add(AddAll(m, pairs[..|pairs| - 1]), p.0, p.1)
  }

  /** Adding two runs of pairs one after the other is adding their concatenation. */
  lemma {:induction false} AddAllConcat<K, V>(m: map<K, seq<V>>, a: seq<(K, V)>, b: seq<(K, V)>)
    ensures AddAll(m, a + b) == AddAll(AddAll(m, a), b)
  {
    if b == [] {
      assert a + b == a;
    } else {
      var init, p := b[..|b| - 1], b[|b| - 1];
      var ab := a + b;
      assert ab[..|ab| - 1] == a + init && ab[|ab| - 1] == p;
      calc {
        AddAll(m, ab);
        Add(AddAll(m, a + init), p.0, p.1);
        { AddAllConcat(m, a, init); }
        Add(AddAll(AddAll(m, a), init), p.0, p.1);
        AddAll(AddAll(m, a), b);
      }
    }
  }

  /** The keys occurring in `pairs`. */
  function KeysOf<K(==), V>(pairs: seq<(K, V)>): set<K> {
    set i | 0 <= i < |pairs| :: pairs[i].0
  }

  /** The values paired with `k`, in the order of `pairs`. */
  function Filter<K(==), V>(pairs: seq<(K, V)>, k: K): seq<V> {
    if pairs == [] then []
    else
      var p := pairs[|pairs| - 1];
      Filter(pairs[..|pairs| - 1], k) + (if p.0 == k then [p.1] else [])
  }

  /** Filter keeps exactly the values of the pairs whose key is `k`. */
  lemma {:induction false} FilterMembers<K, V>(pairs: seq<(K, V)>, k: K)
    ensures |Filter(pairs, k)| <= |pairs|
    ensures forall j :: 0 <= j < |Filter(pairs, k)| ==> (k, Filter(pairs, k)[j]) in pairs
    ensures forall i :: 0 <= i < |pairs| && pairs[i].0 == k ==> pairs[i].1 in Filter(pairs, k)
  {
    if pairs != [] {
      var init, p := pairs[..|pairs| - 1], pairs[|pairs| - 1];
      FilterMembers(init, k);
      assert pairs == init + [p];
    }
  }

  /** A key that occurs in no pair has no values. */
  lemma {:induction false} FilterAbsent<K, V>(pairs: seq<(K, V)>, k: K)
    requires k !in KeysOf(pairs)
    ensures Filter(pairs, k) == []
  {
    if pairs != [] {
      var init := pairs[..|pairs| - 1];
      KeysOfSnoc(pairs);
      FilterAbsent(init, k);
    }
  }

  lemma KeysOfSnoc<K, V>(pairs: seq<(K, V)>)
    requires pairs != []
    ensures KeysOf(pairs) == KeysOf(pairs[..|pairs| - 1]) + {pairs[|pairs| - 1].0}
  {
    var init := pairs[..|pairs| - 1];
    assert forall i :: 0 <= i < |init| ==> init[i] == pairs[i];
  }

  /** Add appends `v` to the bucket of `k` and to no other. */
  lemma GetAdd<K, V>(m: map<K, seq<V>>, k: K, v: V, j: K)
    ensures Get(Add(m, k, v), j) == Get(m, j) + (if j == k then [v] else [])
  {
  }

  /** Filling the buckets in order leaves in the bucket of `k` its old
      contents followed by the values of `k` in arrival order. */
  lemma {:induction false} AddAllBucket<K, V>(m: map<K, seq<V>>, pairs: seq<(K, V)>, k: K)
    ensures Get(AddAll(m, pairs), k) == Get(m, k) + Filter(pairs, k)
  {
    if pairs != [] {
      var init, p := pairs[..|pairs| - 1], pairs[|pairs| - 1];
      AddAllBucket(m, init, k);
      GetAdd(AddAll(m, init), p.0, p.1, k);
    }
  }

  /** The keys after filling are the old keys and those of the pairs. */
  lemma {:induction false} AddAllKeys<K, V>(m: map<K, seq<V>>, pairs: seq<(K, V)>)
    ensures AddAll(m, pairs).Keys == m.Keys + KeysOf(pairs)
  {
    if pairs != [] {
      AddAllKeys(m, pairs[..|pairs| - 1]);
      KeysOfSnoc(pairs);
    }
  }

  /** Filling the buckets in order leaves in each bucket its old contents
      followed by the values of its key in arrival order, and the keys are
      the old keys and those of the pairs. */
  lemma AddAllIsFilter<K, V>(m: map<K, seq<V>>, pairs: seq<(K, V)>)
    ensures AddAll(m, pairs).Keys == m.Keys + KeysOf(pairs)
    ensures forall k :: k in AddAll(m, pairs) ==> AddAll(m, pairs)[k] == Get(m, k) + Filter(pairs, k)
  {
    AddAllKeys(m, pairs);
    forall k | k in AddAll(m, pairs) ensures AddAll(m, pairs)[k] == Get(m, k) + Filter(pairs, k) {
      AddAllBucket(m, pairs, k);
    }
  }

  /** Every bucket is non-empty after filling when every old one was. */
  lemma {:induction false} AddAllNonEmpty<K, V>(m: map<K, seq<V>>, pairs: seq<(K, V)>)
    requires forall k :: k in m ==> |m[k]| > 0
    ensures forall k :: k in AddAll(m, pairs) ==> |AddAll(m, pairs)[k]| > 0
  {
    if pairs != [] {
      AddAllNonEmpty(m, pairs[..|pairs| - 1]);
    }
  }

  /** The sum of the lengths of all buckets. */
  ghost function TotalSize<K, V>(m: map<K, seq<V>>): nat
    decreases |m.Keys|
  {
    if m.Keys == {} then 0
    else
      var k :| k in m.Keys;
      assert (m - {k}).Keys == m.Keys - {k};
      |m[k]| + TotalSize(m - {k})
  }

  /** TotalSize does not depend on which bucket is taken first. */
  lemma {:induction false} TotalSizeRemove<K, V>(m: map<K, seq<V>>, k: K)
    requires k in m
    ensures TotalSize(m) == |m[k]| + TotalSize(m - {k})
    decreases |m.Keys|
  {
    var j :| j in m.Keys && TotalSize(m) == |m[j]| + TotalSize(m - {j});
    if j != k {
      assert (m - {j}).Keys == m.Keys - {j};
      assert (m - {k}).Keys == m.Keys - {k};
      TotalSizeRemove(m - {j}, k);
      TotalSizeRemove(m - {k}, j);
      assert m - {j} - {k} == m - {k} - {j};
    }
  }

  /** Each Add grows the total by exactly one. */
  lemma TotalSizeAdd<K, V>(m: map<K, seq<V>>, k: K, v: V)
    ensures TotalSize(Add(m, k, v)) == TotalSize(m) + 1
  {
    var r := Add(m, k, v);
    TotalSizeRemove(r, k);
    if k in m {
      TotalSizeRemove(m, k);
      assert r - {k} == m - {k};
    } else {
      assert r - {k} == m;
    }
  }

  /** Adding `n` pairs grows the total by exactly `n`. */
  lemma {:induction false} TotalSizeAddAll<K, V>(m: map<K, seq<V>>, pairs: seq<(K, V)>)
    ensures TotalSize(AddAll(m, pairs)) == TotalSize(m) + |pairs|
  {
    if pairs != [] {
      var init, p := pairs[..|pairs| - 1], pairs[|pairs| - 1];
      TotalSizeAddAll(m, init);
      TotalSizeAdd(AddAll(m, init), p.0, p.1);
    }
  }
  /** The values of `k` in a concatenation are those of each part, in order. */
  lemma {:induction false} FilterConcat<K, V>(a: seq<(K, V)>, b: seq<(K, V)>, k: K)
    ensures Filter(a + b, k) == Filter(a, k) + Filter(b, k)
  {
    if b != [] {
      var init := b[..|b| - 1];
      FilterConcat(a, init, k);
      assert (a + b)[..|a + b| - 1] == a + init;
    } else {
      assert a + b == a;
    }
  }

  lemma KeysOfConcat<K, V>(a: seq<(K, V)>, b: seq<(K, V)>)
    ensures KeysOf(a + b) == KeysOf(a) + KeysOf(b)
  {
    forall k | k in KeysOf(a + b) ensures k in KeysOf(a) + KeysOf(b) {
      var i :| 0 <= i < |a + b| && (a + b)[i].0 == k;
      if i >= |a| {
        assert b[i - |a|].0 == k;
      }
    }
    forall k | k in KeysOf(a) ensures k in KeysOf(a + b) {
      var i :| 0 <= i < |a| && a[i].0 == k;
      assert (a + b)[i].0 == k;
    }
    forall k | k in KeysOf(b) ensures k in KeysOf(a + b) {
      var i :| 0 <= i < |b| && b[i].0 == k;
      assert (a + b)[|a| + i].0 == k;
    }
  }

  /** A key carried by exactly one pair has exactly one value. */
  lemma {:induction false} FilterOnce<K, V>(pairs: seq<(K, V)>, k: K)
    requires forall i, j :: 0 <= i < j < |pairs| ==> pairs[i].0 != pairs[j].0
    requires k in KeysOf(pairs)
    ensures |Filter(pairs, k)| == 1
  {
    var init, p := pairs[..|pairs| - 1], pairs[|pairs| - 1];
    KeysOfSnoc(pairs);
    if p.0 == k {
      assert k !in KeysOf(init);
      FilterAbsent(init, k);
    } else {
      FilterOnce(init, k);
    }
  }
}
