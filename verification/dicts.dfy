/** Python dicts whose iteration order matters, as their (key, value) pairs
    in insertion order. Assigning to a present key keeps its place. */
module Dicts {
  import opened Wrappers
  import opened Sequences

  type Dict<K, V> = seq<(K, V)>

  /** `list(d.keys())`. */
  function KeysOf<K, V>(d: Dict<K, V>): (ks: seq<K>)
    ensures |ks| == |d| && forall i :: 0 <= i < |d| ==> ks[i] == d[i].0
  {
    seq(|d|, i requires 0 <= i < |d| => d[i].0)
  }

  /** `list(d.values())`. */
  function ValuesOf<K, V>(d: Dict<K, V>): (vs: seq<V>)
    ensures |vs| == |d| && forall i :: 0 <= i < |d| ==> vs[i] == d[i].1
  {
    seq(|d|, i requires 0 <= i < |d| => d[i].1)
  }

  /** No key is listed twice, as in every Python dict. */
  predicate DistinctKeys<K(==), V>(d: Dict<K, V>) {
    forall i, j :: 0 <= i < j < |d| ==> d[i].0 != d[j].0
  }

  /** The keys of a non-empty dict: its first key, then the others. */
  lemma KeysOfCons<K, V>(d: Dict<K, V>)
    requires d != []
    ensures KeysOf(d) == [d[0].0] + KeysOf(d[1..])
  {
    var ks, rest := KeysOf(d), [d[0].0] + KeysOf(d[1..]);
    forall i | 0 <= i < |d| ensures ks[i] == rest[i] {
      if i > 0 {
        assert rest[i] == KeysOf(d[1..])[i - 1] == d[1..][i - 1].0;
      }
    }
  }

  /** `d.get(k)`. */
  function Find<K(==), V>(d: Dict<K, V>, k: K): (r: Option<V>)
    ensures r.Some? <==> k in KeysOf(d)
  {
    if d == [] then None
    else if d[0].0 == k then Some(d[0].1)
    else
      KeysOfCons(d);
      Find(d[1..], k)
  }

  /** A value found for `k` is the value of one of the pairs for `k`. */
  lemma {:induction false} FindFound<K, V>(d: Dict<K, V>, k: K)
    requires Find(d, k).Some?
    ensures exists i :: 0 <= i < |d| && d[i] == (k, Find(d, k).value)
  {
    if d[0].0 != k {
      FindFound(d[1..], k);
      var i :| 0 <= i < |d[1..]| && d[1..][i] == (k, Find(d, k).value);
      assert d[i + 1] == d[1..][i];
    }
  }

  /** `d[k] = v`: the value of a present key is replaced in place, a new key
      goes at the end. */
  function Put<K(==), V>(d: Dict<K, V>, k: K, v: V): (r: Dict<K, V>)
    ensures KeysOf(r) == if k in KeysOf(d) then KeysOf(d) else KeysOf(d) + [k]
  {
    if d == [] then [(k, v)]
    else if d[0].0 == k then [(k, v)] + d[1..]
    else
      var rest := Put(d[1..], k, v);
      KeysOfCons(d);
      KeysOfConcat([d[0]], rest);
      [d[0]] + rest
  }

  /** After `d[k] = v`, `d.get(k)` is `v` and every other key keeps its value. */
  lemma {:induction false} PutFind<K, V>(d: Dict<K, V>, k: K, v: V, k': K)
    ensures Find(Put(d, k, v), k') == if k' == k then Some(v) else Find(d, k')
    decreases |d|
  {
    if d != [] && d[0].0 != k {
      PutFind(d[1..], k, v, k');
    }
  }

  /** A second assignment to the same key overrides the first. */
  lemma {:induction false} PutPut<K, V>(d: Dict<K, V>, k: K, v: V, w: V)
    ensures Put(Put(d, k, v), k, w) == Put(d, k, w)
    decreases |d|
  {
    if d != [] && d[0].0 != k {
      PutPut(d[1..], k, v, w);
    }
  }

  /** Without its first pair a dict still holds each key once, and not the first key. */
  lemma DistinctKeysTail<K, V>(d: Dict<K, V>)
    requires d != [] && DistinctKeys(d)
    ensures DistinctKeys(d[1..]) && d[0].0 !in KeysOf(d[1..])
    ensures KeysOf(d) == [d[0].0] + KeysOf(d[1..])
  {
    var rest := d[1..];
    forall i, j | 0 <= i < j < |rest| ensures rest[i].0 != rest[j].0 {
      assert rest[i] == d[i + 1] && rest[j] == d[j + 1];
    }
    forall k | 0 <= k < |rest| ensures KeysOf(rest)[k] != d[0].0 {
      assert rest[k] == d[k + 1];
    }
  }

  /** Assignment keeps the keys distinct. */
  lemma PutDistinct<K, V>(d: Dict<K, V>, k: K, v: V)
    requires DistinctKeys(d)
    ensures DistinctKeys(Put(d, k, v))
  {
    var r := Put(d, k, v);
    assert forall i :: 0 <= i < |r| ==> r[i].0 == KeysOf(r)[i];
    assert forall i :: 0 <= i < |d| ==> d[i].0 == KeysOf(d)[i];
  }

  /** The dict that assigning `d[k] = v` for each pair `(k, v)` of `ps`, in
      order, builds from an empty one. */
  function FromPairs<K(==), V>(ps: seq<(K, V)>): Dict<K, V>
    decreases |ps|
  {
    if ps == [] then []
    else Put(FromPairs(ps[..|ps| - 1]), ps[|ps| - 1].0, ps[|ps| - 1].1)
  }

  /** A key is present exactly when some pair assigns it. */
  lemma {:induction false} FromPairsKnown<K, V>(ps: seq<(K, V)>, k: K)
    ensures Find(FromPairs(ps), k).Some? <==> exists i :: 0 <= i < |ps| && ps[i].0 == k
    decreases |ps|
  {
    if ps != [] {
      var n := |ps|;
      var front := ps[..n - 1];
      FromPairsKnown(front, k);
      PutFind(FromPairs(front), ps[n - 1].0, ps[n - 1].1, k);
      LastOrEarlier(ps, front, k);
    }
  }

  /** A pair assigning `k` is the last pair or an earlier one. */
  lemma LastOrEarlier<K, V>(ps: seq<(K, V)>, front: seq<(K, V)>, k: K)
    requires ps != [] && front == ps[..|ps| - 1]
    ensures (exists i :: 0 <= i < |ps| && ps[i].0 == k) <==>
      ps[|ps| - 1].0 == k || exists i :: 0 <= i < |front| && front[i].0 == k
  {
    var n := |ps|;
    if exists i :: 0 <= i < n && ps[i].0 == k {
      var i :| 0 <= i < n && ps[i].0 == k;
      if i < n - 1 {
        assert front[i].0 == k;
      }
    }
    if exists i :: 0 <= i < |front| && front[i].0 == k {
      var i :| 0 <= i < |front| && front[i].0 == k;
      assert ps[i] == front[i];
    }
  }

  /** `(k, v)` is the last pair of `ps` that assigns `k`. */
  ghost predicate LastPair<K, V>(ps: seq<(K, V)>, k: K, v: V) {
    exists i :: 0 <= i < |ps| && ps[i] == (k, v) && forall j :: i < j < |ps| ==> ps[j].0 != k
  }

  /** A present key holds the value of the last pair assigning it. */
  lemma {:induction false} FromPairsLast<K, V>(ps: seq<(K, V)>, k: K)
    requires Find(FromPairs(ps), k).Some?
    ensures LastPair(ps, k, Find(FromPairs(ps), k).value)
    decreases |ps|
  {
    var n := |ps|;
    var front := ps[..n - 1];
    Snoc(ps);
    PutFind(FromPairs(front), ps[n - 1].0, ps[n - 1].1, k);
    if ps[n - 1].0 != k {
      FromPairsLast(front, k);
      LastPairExtends(front, ps[n - 1], k, Find(FromPairs(front), k).value);
    } else {
      assert ps[n - 1] == (k, Find(FromPairs(ps), k).value);
    }
  }

  /** A pair assigning another key keeps the last pair of `k`. */
  lemma LastPairExtends<K, V>(ps: seq<(K, V)>, p: (K, V), k: K, v: V)
    requires LastPair(ps, k, v) && p.0 != k
    ensures LastPair(ps + [p], k, v)
  {
    var i :| 0 <= i < |ps| && ps[i] == (k, v) && forall j :: i < j < |ps| ==> ps[j].0 != k;
    var all := ps + [p];
    assert all[i] == ps[i];
    forall j | i < j < |all| ensures all[j].0 != k {
      if j < |ps| {
        assert all[j] == ps[j];
      }
    }
  }

  /** The dict after the first `i + 1` pairs. */
  lemma FromPairsSnoc<K, V>(ps: seq<(K, V)>, i: nat)
    requires i < |ps|
    ensures FromPairs(ps[..i + 1]) == Put(FromPairs(ps[..i]), ps[i].0, ps[i].1)
  {
    assert ps[..i + 1][..i] == ps[..i];
  }

  /** Every pair of `d[k] = v` is a pair of `d` or `(k, v)`. */
  lemma {:induction false} PutMembers<K, V>(d: Dict<K, V>, k: K, v: V)
    ensures forall p :: p in Put(d, k, v) ==> p in d || p == (k, v)
    decreases |d|
  {
    if d != [] && d[0].0 != k {
      PutMembers(d[1..], k, v);
      assert forall p :: p in d[1..] ==> p in d;
    }
  }

  /** Assigning a new key appends its pair. */
  lemma PutAbsent<K, V>(d: Dict<K, V>, k: K, v: V)
    requires k !in KeysOf(d)
    ensures Put(d, k, v) == d + [(k, v)]
  {
    forall i | 0 <= i < |d| ensures d[i].0 != k {
      assert KeysOf(d)[i] == d[i].0;
    }
    PutNewKey(d, k, v);
  }

  /** The same, with the new key ruled out pair by pair. */
  lemma {:induction false} PutNewKey<K, V>(d: Dict<K, V>, k: K, v: V)
    requires forall i :: 0 <= i < |d| ==> d[i].0 != k
    ensures Put(d, k, v) == d + [(k, v)]
    decreases |d|
  {
    if d != [] {
      var head, tail := d[0], d[1..];
      forall i | 0 <= i < |tail| ensures tail[i].0 != k {
        assert tail[i] == d[i + 1];
      }
      PutNewKey(tail, k, v);
      assert d == [head] + tail;
      AppendAssoc([head], tail, [(k, v)]);
      assert Put(d, k, v) == [head] + (tail + [(k, v)]);
    }
  }

  /** Pairs with distinct keys build the dict that lists them in order. */
  lemma {:induction false} FromPairsDistinct<K, V>(ps: seq<(K, V)>)
    requires DistinctKeys(ps)
    ensures FromPairs(ps) == ps
    decreases |ps|
  {
    if ps != [] {
      var n := |ps|;
      var front := ps[..n - 1];
      assert DistinctKeys(front) by {
        forall i, j | 0 <= i < j < |front| ensures front[i].0 != front[j].0 {
          assert front[i] == ps[i] && front[j] == ps[j];
        }
      }
      FromPairsDistinct(front);
      forall i | 0 <= i < |front| ensures KeysOf(front)[i] != ps[n - 1].0 {
        assert front[i] == ps[i];
      }
      PutAbsent(front, ps[n - 1].0, ps[n - 1].1);
      Snoc(ps);
    }
  }

  /** In a dict, the value listed with a key is what `d.get` returns. */
  lemma FindMember<K, V>(d: Dict<K, V>, k: K, v: V)
    requires DistinctKeys(d) && (k, v) in d
    ensures Find(d, k) == Some(v)
  {
    var i :| 0 <= i < |d| && d[i] == (k, v);
    assert KeysOf(d)[i] == k;
    FindFound(d, k);
    var j :| 0 <= j < |d| && d[j] == (k, Find(d, k).value);
    assert i == j;
  }

  /** A key no pair carries is absent. */
  lemma FindAbsent<K, V>(d: Dict<K, V>, k: K)
    requires forall p :: p in d ==> p.0 != k
    ensures Find(d, k) == None
  {
    forall i | 0 <= i < |d| ensures KeysOf(d)[i] != k {
      assert d[i] in d;
    }
  }

  /** Two lists of pairs with distinct keys, no key shared, join into one. */
  lemma DistinctKeysConcat<K, V>(a: Dict<K, V>, b: Dict<K, V>)
    requires DistinctKeys(a) && DistinctKeys(b)
    requires forall p, q :: p in a && q in b ==> p.0 != q.0
    ensures DistinctKeys(a + b)
  {
    var c := a + b;
    forall i, j | 0 <= i < j < |c| ensures c[i].0 != c[j].0 {
      if j < |a| {
        assert c[i] == a[i] && c[j] == a[j];
      } else if i >= |a| {
        assert c[i] == b[i - |a|] && c[j] == b[j - |a|];
      } else {
        assert c[i] == a[i] && c[j] == b[j - |a|];
        assert a[i] in a && b[j - |a|] in b;
      }
    }
  }

  /** The keys of a concatenation. */
  lemma KeysOfConcat<K, V>(a: Dict<K, V>, b: Dict<K, V>)
    ensures KeysOf(a + b) == KeysOf(a) + KeysOf(b)
  {
  }
}
