/** Sums over maps, and what renaming the keys leaves unchanged. */
module Sums {
  ghost function SumOf<K>(m: map<K, nat>): nat
    decreases |m|
  {
    if m == map[] then 0 else
      var k :| k in m;
      SmallerMap(m, k);
      m[k] + SumOf(m - {k})
  }

  lemma SmallerMap<K, V>(m: map<K, V>, k: K)
    requires k in m
    ensures |m - {k}| + 1 == |m|
  {
    assert m.Keys == (m - {k}).Keys + {k};
  }

  lemma {:induction false} SumRemove<K>(m: map<K, nat>, k: K)
    requires k in m
    ensures SumOf(m) == m[k] + SumOf(m - {k})
    decreases |m|
  {
    var j :| j in m && SumOf(m) == m[j] + SumOf(m - {j});
    if j != k {
      SmallerMap(m, j);
      SmallerMap(m, k);
      SumRemove(m - {j}, k);
      SumRemove(m - {k}, j);
      assert m - {j} - {k} == m - {k} - {j};
    }
  }

  /** `f` is injective. */
  ghost predicate Injective<J, K>(f: map<J, K>) {
    forall i, j | i in f && j in f && f[i] == f[j] :: i == j
  }

  /** Renaming keys one-to-one keeps the number of entries and their sum. */
  lemma {:induction false} Renamed<J, K>(f: map<J, K>, a: map<J, nat>, b: map<K, nat>)
    requires Injective(f) && a.Keys == f.Keys && b.Keys == f.Values
    requires forall j | j in f :: f[j] in b && a[j] == b[f[j]]
    ensures |a| == |b| && SumOf(a) == SumOf(b)
    decreases |f|
  {
    if f == map[] {
      assert a == map[] && b == map[];
    } else {
      var j :| j in f;
      var g := f - {j};
      SmallerMap(f, j);
      SmallerMap(a, j);
      assert f[j] in b;
      SmallerMap(b, f[j]);
      forall k ensures k in g.Values <==> k in f.Values && k != f[j] {
        if k in f.Values && k != f[j] {
          var i :| i in f && f[i] == k;
          assert i in g && g[i] == k;
        }
      }
      Renamed(g, a - {j}, b - {f[j]});
      SumRemove(a, j);
      SumRemove(b, f[j]);
    }
  }

  /** Renaming keys one-to-one keeps the number of keys in a set. */
  lemma {:induction false} RenamedCount<J, K>(f: map<J, K>, s: set<J>, t: set<K>)
    requires Injective(f) && s <= f.Keys
    requires t == set j | j in s :: f[j]
    ensures |s| == |t|
    decreases |s|
  {
    if s != {} {
      var j :| j in s;
      var t' := set i | i in s - {j} :: f[i];
      assert t == t' + {f[j]} && f[j] !in t';
      RenamedCount(f, s - {j}, t');
    }
  }
}
