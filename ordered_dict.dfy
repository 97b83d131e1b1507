/**
 * A Python `dict` as the sequence of its items in insertion order. Assigning to a key
 * already present replaces its value in place; a new key goes to the end. Iteration
 * order matters to the classifier (the override scan breaks early, and the label map is
 * built last-writer-wins in iteration order), so a plain `map` would lose behaviour.
 */
module OrderedDict {
  import opened Wrappers

  predicate DistinctKeys<K(==), V>(d: seq<(K, V)>)
  {
    forall i, j :: 0 <= i < j < |d| ==> d[i].0 != d[j].0
  }

  function Keys<K, V>(d: seq<(K, V)>): set<K>
  {
    set i | 0 <= i < |d| :: d[i].0
  }

  /** `d.get(k)`: the value stored under `k`, if any. */
  function Get<K(==), V>(d: seq<(K, V)>, k: K): (r: Option<V>)
    ensures r.Some? <==> k in Keys(d)
    ensures r.Some? ==> exists i :: 0 <= i < |d| && d[i] == (k, r.value)
  {
    if d == [] then None
    else if d[0].0 == k then Some(d[0].1)
    else
      assert Keys(d) == {d[0].0} + Keys(d[1..]) by {
        assert forall i :: 0 < i < |d| ==> d[i] == d[1..][i - 1];
      }
      var r := Get(d[1..], k);
      assert r.Some? ==> exists i :: 0 <= i < |d| && d[i] == (k, r.value) by {
        if r.Some? {
          var i :| 0 <= i < |d[1..]| && d[1..][i] == (k, r.value);
          assert d[i + 1] == (k, r.value);
        }
      }
      r
  }

  /** With distinct keys, `Get` finds the value at the key's one position. */
  lemma GetAt<K, V>(d: seq<(K, V)>, i: nat)
    requires DistinctKeys(d) && i < |d|
    ensures Get(d, d[i].0) == Some(d[i].1)
  {
    var r := Get(d, d[i].0);
    var j :| 0 <= j < |d| && d[j] == (d[i].0, r.value);
  }

  /** `d[k] = v`: an existing key keeps its position and takes the new value; a new key is appended. */
  function Put<K(==), V>(d: seq<(K, V)>, k: K, v: V): (r: seq<(K, V)>)
    requires DistinctKeys(d)
    ensures k in Keys(d) ==> |r| == |d| && forall i :: 0 <= i < |d| ==> r[i] == (if d[i].0 == k then (k, v) else d[i])
    ensures k !in Keys(d) ==> r == d + [(k, v)]
  {
    if d == [] then [(k, v)]
    else
      assert Keys(d) == {d[0].0} + Keys(d[1..]) by {
        assert forall i :: 0 < i < |d| ==> d[i] == d[1..][i - 1];
      }
      if d[0].0 == k then
        assert k !in Keys(d[1..]);
        [(k, v)] + d[1..]
      else
        [d[0]] + Put(d[1..], k, v)
  }

  /** `d[k] = v` keeps the keys distinct and adds `k` to the key set. */
  lemma PutKeys<K, V>(d: seq<(K, V)>, k: K, v: V)
    requires DistinctKeys(d)
    ensures DistinctKeys(Put(d, k, v))
    ensures Keys(Put(d, k, v)) == Keys(d) + {k}
  {
    var r := Put(d, k, v);
    if k in Keys(d) {
      assert forall i :: 0 <= i < |d| ==> r[i].0 == d[i].0;
    } else {
      assert r[|d|].0 == k;
      assert forall i :: 0 <= i < |d| ==> r[i] == d[i];
    }
  }

  /** After `d[k] = v`, looking up `k` gives `v` and every other lookup is unchanged. */
  lemma PutGet<K, V>(d: seq<(K, V)>, k: K, v: V, k': K)
    requires DistinctKeys(d)
    ensures Get(Put(d, k, v), k) == Some(v)
    ensures k' != k ==> Get(Put(d, k, v), k') == Get(d, k')
  {
    PutGetSame(d, k, v);
    if k' != k {
      PutGetOther(d, k, v, k');
    }
  }

  lemma PutGetSame<K, V>(d: seq<(K, V)>, k: K, v: V)
    requires DistinctKeys(d)
    ensures Get(Put(d, k, v), k) == Some(v)
  {
    PutKeys(d, k, v);
    var r := Put(d, k, v);
    if k in Keys(d) {
      var j :| 0 <= j < |d| && d[j].0 == k;
      assert r[j] == (k, v);
      GetAt(r, j);
    } else {
      assert r[|d|] == (k, v);
      GetAt(r, |d|);
    }
  }

  lemma PutGetOther<K, V>(d: seq<(K, V)>, k: K, v: V, k': K)
    requires DistinctKeys(d) && k' != k
    ensures Get(Put(d, k, v), k') == Get(d, k')
  {
    PutKeys(d, k, v);
    var r := Put(d, k, v);
    if k' in Keys(d) {
      var j :| 0 <= j < |d| && d[j].0 == k';
      assert r[j] == d[j];
      GetAt(d, j);
      GetAt(r, j);
    }
  }

  /** The value written last under `k` in a sequence of assignments, if any. */
  function LastValue<K(==), V>(ps: seq<(K, V)>, k: K): Option<V>
  {
    if ps == [] then None
    else if ps[|ps| - 1].0 == k then Some(ps[|ps| - 1].1)
    else LastValue(ps[..|ps| - 1], k)
  }

  /** The dict built by assigning the pairs of `ps` one after the other, starting from `{}`. */
  function FromPairs<K(==), V>(ps: seq<(K, V)>): (d: seq<(K, V)>)
    ensures DistinctKeys(d)
  {
    if ps == [] then []
    else
      var d := FromPairs(ps[..|ps| - 1]);
      PutKeys(d, ps[|ps| - 1].0, ps[|ps| - 1].1);
      Put(d, ps[|ps| - 1].0, ps[|ps| - 1].1)
  }

  /** Assigning one more pair is one more `Put`. */
  lemma FromPairsSnoc<K, V>(ps: seq<(K, V)>, k: K, v: V)
    ensures FromPairs(ps + [(k, v)]) == Put(FromPairs(ps), k, v)
  {
    assert (ps + [(k, v)])[..|ps|] == ps;
  }

  /** Looking a key up in the built dict finds the value assigned to it last. */
  lemma {:induction false} FromPairsGet<K, V>(ps: seq<(K, V)>, k: K)
    ensures Get(FromPairs(ps), k) == LastValue(ps, k)
    decreases |ps|
  {
    if ps != [] {
      var last := ps[|ps| - 1];
      FromPairsGet(ps[..|ps| - 1], k);
      PutGet(FromPairs(ps[..|ps| - 1]), last.0, last.1, k);
    }
  }

  /** `LastValue` finds `v` exactly when `(k, v)` is assigned and `k` is not assigned again afterwards. */
  lemma {:induction false} LastValueIff<K, V>(ps: seq<(K, V)>, k: K, v: V)
    ensures LastValue(ps, k) == Some(v) <==> exists i :: LastAssignment(ps, k, v, i)
    decreases |ps|
  {
    if ps != [] {
      var n := |ps| - 1;
      var init := ps[..n];
      LastValueIff(init, k, v);
      if ps[n].0 == k {
        if ps[n].1 == v {
          assert LastAssignment(ps, k, v, n);
        } else {
          forall i ensures !LastAssignment(ps, k, v, i) {
            if 0 <= i < n {
              assert ps[n].0 == k;
            }
          }
        }
      } else {
        if LastValue(init, k) == Some(v) {
          var i :| LastAssignment(init, k, v, i);
          assert LastAssignment(ps, k, v, i);
        } else {
          forall i ensures !LastAssignment(ps, k, v, i) {
            if 0 <= i < n && ps[i] == (k, v) {
              assert init[i] == ps[i];
              assert !LastAssignment(init, k, v, i);
              assert forall j :: i < j < n ==> init[j] == ps[j];
            }
          }
        }
      }
    }
  }

  /** `(k, v)` is assigned at position `i` and `k` is not assigned after it. */
  predicate LastAssignment<K(==), V(==)>(ps: seq<(K, V)>, k: K, v: V, i: int)
  {
    0 <= i < |ps| && ps[i] == (k, v) && forall j :: i < j < |ps| ==> ps[j].0 != k
  }

  /** The keys of the built dict are the keys assigned. */
  lemma {:induction false} FromPairsKeys<K, V>(ps: seq<(K, V)>)
    ensures Keys(FromPairs(ps)) == Keys(ps)
    decreases |ps|
  {
    if ps != [] {
      var n := |ps| - 1;
      FromPairsKeys(ps[..n]);
      PutKeys(FromPairs(ps[..n]), ps[n].0, ps[n].1);
      assert ps[..n] + [ps[n]] == ps;
      KeysSnoc(ps[..n], ps[n]);
    }
  }

  /** One more pair adds its key. */
  lemma KeysSnoc<K, V>(ps: seq<(K, V)>, p: (K, V))
    ensures Keys(ps + [p]) == Keys(ps) + {p.0}
  {
    var qs := ps + [p];
    forall x | x in Keys(qs) ensures x in Keys(ps) + {p.0} {
      var i :| 0 <= i < |qs| && qs[i].0 == x;
      if i < |ps| {
        assert qs[i] == ps[i];
      }
    }
    forall x | x in Keys(ps) + {p.0} ensures x in Keys(qs) {
      if x in Keys(ps) {
        var i :| 0 <= i < |ps| && ps[i].0 == x;
        assert qs[i] == ps[i];
      } else {
        assert qs[|ps|] == p;
      }
    }
  }

  /** One more assignment decides the last value of its own key and leaves the others alone. */
  lemma LastValueSnoc<K, V>(ps: seq<(K, V)>, p: (K, V), k: K)
    ensures LastValue(ps + [p], k) == if p.0 == k then Some(p.1) else LastValue(ps, k)
  {
    assert (ps + [p])[..|ps|] == ps;
  }

  /** A key never assigned has no last value. */
  lemma {:induction false} LastValueAbsent<K, V>(ps: seq<(K, V)>, k: K)
    requires forall i :: 0 <= i < |ps| ==> ps[i].0 != k
    ensures LastValue(ps, k) == None
    decreases |ps|
  {
    if ps != [] {
      var n := |ps| - 1;
      assert forall i :: 0 <= i < n ==> ps[..n][i] == ps[i];
      LastValueAbsent(ps[..n], k);
    }
  }

  /** With distinct keys, the last value under a key is the one `Get` finds. */
  lemma LastValueIsGet<K, V>(d: seq<(K, V)>, k: K)
    requires DistinctKeys(d)
    ensures LastValue(d, k) == Get(d, k)
  {
    var r := Get(d, k);
    if r.Some? {
      var i :| 0 <= i < |d| && d[i] == (k, r.value);
      assert LastAssignment(d, k, r.value, i);
      LastValueIff(d, k, r.value);
    } else {
      assert forall i :: 0 <= i < |d| ==> d[i].0 in Keys(d);
      LastValueAbsent(d, k);
    }
  }
}
