/** The insertion-ordered dictionary of JavaScript's `Map`, as an association
    list: `set` on a present key replaces its value where it stands, `set` on a
    new key appends, `delete` removes the entry, and `values()` yields the values
    in insertion order. */
module OrderedMap {
  import opened Types

  type Entries<K, V> = seq<(K, V)>

  function Keys<K, V>(m: Entries<K, V>): (ks: seq<K>)
    ensures |ks| == |m| && forall i :: 0 <= i < |m| ==> ks[i] == m[i].0
  {
    seq(|m|, i requires 0 <= i < |m| => m[i].0)
  }

  /** `Array.from(m.values())` */
  function Values<K, V>(m: Entries<K, V>): (vs: seq<V>)
    ensures |vs| == |m| && forall i :: 0 <= i < |m| ==> vs[i] == m[i].1
  {
    seq(|m|, i requires 0 <= i < |m| => m[i].1)
  }

  ghost predicate DistinctKeys<K, V>(m: Entries<K, V>) {
    forall i, j :: 0 <= i < j < |m| ==> m[i].0 != m[j].0
  }

  predicate HasKey<K(==), V>(m: Entries<K, V>, k: K) {
    exists i :: 0 <= i < |m| && m[i].0 == k
  }

  /** `m.get(k)` */
  function Get<K(==), V>(m: Entries<K, V>, k: K): (r: Option<V>)
    ensures r.None? <==> !HasKey(m, k)
    ensures r.Some? ==> exists i :: 0 <= i < |m| && m[i] == (k, r.value)
  {
    if m == [] then None
    else if m[0].0 == k then Some(m[0].1)
    else Get(m[1..], k)
  }

  /** `m.set(k, v)` */
  function Put<K(==), V>(m: Entries<K, V>, k: K, v: V): (r: Entries<K, V>)
    ensures HasKey(m, k) ==> |r| == |m|
    ensures !HasKey(m, k) ==> r == m + [(k, v)]
  {
    if m == [] then [(k, v)]
    else if m[0].0 == k then [(k, v)] + m[1..]
    else [m[0]] + Put(m[1..], k, v)
  }

  /** `m.delete(k)` */
  function Remove<K(==), V>(m: Entries<K, V>, k: K): (r: Entries<K, V>)
    ensures !HasKey(r, k)
    ensures |r| <= |m|
  {
    if m == [] then []
    else if m[0].0 == k then Remove(m[1..], k)
    else [m[0]] + Remove(m[1..], k)
  }

  lemma {:induction false} PutGet<K, V>(m: Entries<K, V>, k: K, v: V, k': K)
    requires DistinctKeys(m)
    ensures DistinctKeys(Put(m, k, v))
    ensures Get(Put(m, k, v), k') == if k' == k then Some(v) else Get(m, k')
  {
    if m != [] && m[0].0 != k {
      PutGet(m[1..], k, v, k');
      forall i | 0 <= i < |Put(m[1..], k, v)| ensures Put(m[1..], k, v)[i].0 != m[0].0 {
        PutKeysAt(m[1..], k, v, i);
        if i < |m[1..]| { assert m[1..][i] == m[i + 1]; }
      }
    } else if m != [] {
      assert Put(m, k, v)[1..] == m[1..];
      forall k2 | k2 != k ensures Get(m[1..], k2) == Get(m, k2) {}
    }
  }

  /** `set` keeps every key in its place, and appends a new one at the end. */
  lemma {:induction false} PutKeysAt<K, V>(m: Entries<K, V>, k: K, v: V, i: int)
    requires 0 <= i < |Put(m, k, v)|
    ensures i < |m| ==> Put(m, k, v)[i].0 == m[i].0
    ensures i == |m| ==> Put(m, k, v)[i].0 == k
  {
    if m != [] && m[0].0 != k && i > 0 {
      PutKeysAt(m[1..], k, v, i - 1);
    }
  }

  /** `set` on a present key leaves the order of the values unchanged, and
      every other value where it was. */
  lemma {:induction false} PutInPlace<K, V>(m: Entries<K, V>, k: K, v: V, i: int)
    requires DistinctKeys(m) && 0 <= i < |m| && m[i].0 == k
    ensures |Put(m, k, v)| == |m|
    ensures forall j :: 0 <= j < |m| ==> Put(m, k, v)[j] == if j == i then (k, v) else m[j]
  {
    if i > 0 {
      assert m[0].0 != m[i].0;
      PutInPlace(m[1..], k, v, i - 1);
    } else {
      forall j | 0 < j < |m| ensures m[j].0 != k {}
    }
  }

  /** On a map with distinct keys, `delete` of a present key removes exactly
      that entry and keeps the others in order. */
  lemma {:induction false} RemoveAt<K, V>(m: Entries<K, V>, k: K, i: int)
    requires DistinctKeys(m) && 0 <= i < |m| && m[i].0 == k
    ensures Remove(m, k) == m[..i] + m[i + 1..]
  {
    if i == 0 {
      assert !HasKey(m[1..], k) by {
        forall j | 0 <= j < |m[1..]| ensures m[1..][j].0 != k {
          assert m[1..][j] == m[j + 1];
        }
      }
      RemoveAbsent(m[1..], k);
    } else {
      assert m[0].0 != m[i].0;
      RemoveAt(m[1..], k, i - 1);
      assert m[1..][..i - 1] == m[1..i];
      assert m[1..][i..] == m[i + 1..];
    }
  }

  lemma RemoveGet<K, V>(m: Entries<K, V>, k: K, k': K)
    requires DistinctKeys(m)
    ensures DistinctKeys(Remove(m, k))
    ensures Get(Remove(m, k), k') == if k' == k then None else Get(m, k')
  {
    RemoveKeepsDistinct(m, k);
    if k' != k {
      RemoveOtherGet(m, k, k');
    }
  }

  lemma RemoveKeepsDistinct<K, V>(m: Entries<K, V>, k: K)
    requires DistinctKeys(m)
    ensures DistinctKeys(Remove(m, k))
  {
    if HasKey(m, k) {
      var i :| 0 <= i < |m| && m[i].0 == k;
      RemoveAt(m, k, i);
      var r := m[..i] + m[i + 1..];
      forall a, b | 0 <= a < b < |r| ensures r[a].0 != r[b].0 {
        var a' := if a < i then a else a + 1;
        var b' := if b < i then b else b + 1;
        assert r[a] == m[a'] && r[b] == m[b'];
      }
    } else {
      RemoveAbsent(m, k);
    }
  }

  /** `delete` leaves the value of every other key alone. */
  lemma {:induction false} RemoveOtherGet<K, V>(m: Entries<K, V>, k: K, k': K)
    requires k' != k
    ensures Get(Remove(m, k), k') == Get(m, k')
  {
    if m != [] {
      RemoveOtherGet(m[1..], k, k');
    }
  }

  /** Deleting an absent key changes nothing, so deleting twice is deleting once. */
  lemma {:induction false} RemoveAbsent<K, V>(m: Entries<K, V>, k: K)
    requires !HasKey(m, k)
    ensures Remove(m, k) == m
  {
    if m != [] {
      assert !HasKey(m[1..], k) by {
        forall i | 0 <= i < |m[1..]| ensures m[1..][i].0 != k {
          assert m[1..][i] == m[i + 1];
        }
      }
      RemoveAbsent(m[1..], k);
    }
  }

  lemma RemoveIdempotent<K, V>(m: Entries<K, V>, k: K)
    ensures Remove(Remove(m, k), k) == Remove(m, k)
  {
  }

  /** `set` on a new key adds its value at the end of `values()`. */
  lemma ValuesPutNew<K, V>(m: Entries<K, V>, k: K, v: V)
    requires !HasKey(m, k)
    ensures Values(Put(m, k, v)) == Values(m) + [v]
  {
  }

  /** `set` on a present key replaces its value where it stands in `values()`. */
  lemma ValuesPutPresent<K, V>(m: Entries<K, V>, k: K, v: V, i: int)
    requires DistinctKeys(m) && 0 <= i < |m| && m[i].0 == k
    ensures Values(Put(m, k, v)) == Values(m)[i := v]
  {
    PutInPlace(m, k, v, i);
  }

  /** `delete` of a present key drops exactly its value from `values()` and
      keeps the others in order. */
  lemma ValuesRemove<K, V>(m: Entries<K, V>, k: K, i: int)
    requires DistinctKeys(m) && 0 <= i < |m| && m[i].0 == k
    ensures Values(Remove(m, k)) == Values(m)[..i] + Values(m)[i + 1..]
  {
    RemoveAt(m, k, i);
    var r := m[..i] + m[i + 1..];
    forall j | 0 <= j < |r| ensures r[j].1 == (Values(m)[..i] + Values(m)[i + 1..])[j] {
      if j < i { assert r[j] == m[j]; } else { assert r[j] == m[j + 1]; }
    }
  }
}
