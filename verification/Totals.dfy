/** Sums over the values of a finite map, in whatever order it is traversed. */
module Totals {
  import opened Counting

  ghost function Total<K>(m: map<K, nat>): nat
    decreases |m|
  {
    if m == map[] then 0
    else
      var k :| k in m;
      m[k] + Total(m - {k})
  }

  /** Any key may be taken first. */
  lemma {:induction false} TotalRemove<K>(m: map<K, nat>, k: K)
    requires k in m
    ensures Total(m) == m[k] + Total(m - {k})
    decreases |m|
  {
    var x :| x in m && Total(m) == m[x] + Total(m - {x});
    if x != k {
      TotalRemove(m - {x}, k);
      TotalRemove(m - {k}, x);
      assert m - {x} - {k} == m - {k} - {x};
    }
  }

  lemma TotalUpdate<K>(m: map<K, nat>, k: K, v: nat)
    ensures Total(m[k := v]) + (if k in m then m[k] else 0) == Total(m) + v
  {
    TotalRemove(m[k := v], k);
    assert m[k := v] - {k} == m - {k};
    if k in m {
      TotalRemove(m, k);
    } else {
      assert m - {k} == m;
    }
  }

  /** A map that is larger everywhere sums to no less. */
  lemma {:induction false} TotalMonotone<K>(a: map<K, nat>, b: map<K, nat>)
    requires forall k :: k in a ==> k in b && a[k] <= b[k]
    ensures Total(a) <= Total(b)
    decreases |a|
  {
    if a != map[] {
      var k :| k in a;
      TotalRemove(a, k);
      TotalRemove(b, k);
      TotalMonotone(a - {k}, b - {k});
    }
  }

  lemma {:induction false} TotalAtLeastSize<K>(m: map<K, nat>)
    requires forall k :: k in m ==> m[k] >= 1
    ensures |m| <= Total(m)
    decreases |m|
  {
    if m != map[] {
      var k :| k in m;
      TotalRemove(m, k);
      assert |m - {k}| == |m| - 1 by {
        assert m == (m - {k})[k := m[k]];
      }
      TotalAtLeastSize(m - {k});
    }
  }

  lemma {:induction false} TotalZero<K>(m: map<K, nat>)
    requires forall k :: k in m ==> m[k] == 0
    ensures Total(m) == 0
    decreases |m|
  {
    if m != map[] {
      var k :| k in m;
      TotalRemove(m, k);
      TotalZero(m - {k});
    }
  }

  // ---------- Counting by key ----------

  function HasKey<T>(keyOf: T -> string, k: string): T -> bool { (x: T) => keyOf(x) == k }

  ghost function KeyCounts<T>(s: seq<T>, keyOf: T -> string, keys: set<string>): map<string, nat> {
    map k | k in keys :: CountIf(s, HasKey(keyOf, k))
  }

  lemma OneMoreKey<T>(s: seq<T>, keyOf: T -> string, keys: set<string>, k: string)
    requires k !in keys
    ensures Total(KeyCounts(s, keyOf, keys + {k})) == Total(KeyCounts(s, keyOf, keys)) + CountIf(s, HasKey(keyOf, k))
  {
    hide Total, CountIf;
    var before, n := KeyCounts(s, keyOf, keys), CountIf(s, HasKey(keyOf, k));
    assert KeyCounts(s, keyOf, keys + {k}) == before[k := n];
    TotalUpdate(before, k, n);
  }

  /** Counting every element under its key counts every element once. */
  lemma {:induction false} KeyCountsSum<T>(s: seq<T>, keyOf: T -> string, keys: set<string>)
    requires forall i :: 0 <= i < |s| ==> keyOf(s[i]) in keys
    ensures Total(KeyCounts(s, keyOf, keys)) == |s|
  {
    if s == [] {
      TotalZero(KeyCounts(s, keyOf, keys));
    } else {
      var front, x := s[..|s| - 1], s[|s| - 1];
      KeyCountsSum(front, keyOf, keys);
      assert s == front + [x];
      forall k ensures CountIf(s, HasKey(keyOf, k))
          == CountIf(front, HasKey(keyOf, k)) + if keyOf(x) == k then 1 else 0 {
        CountAppend(front, x, HasKey(keyOf, k));
      }
      var before, after, k := KeyCounts(front, keyOf, keys), KeyCounts(s, keyOf, keys), keyOf(x);
      assert after == before[k := before[k] + 1];
      TotalUpdate(before, k, before[k] + 1);
    }
  }
}
