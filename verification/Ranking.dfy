/**
 The unique strictly sorted listing of a finite set, and the library sort that
 the engines call to obtain it.
 */
module Ranking {

  /** `less` is a strict total order on the elements of `s`. */
  ghost predicate StrictOrderOn<T>(less: (T, T) -> bool, s: set<T>) {
    && (forall x | x in s :: !less(x, x))
    && (forall x, y | x in s && y in s && x != y :: less(x, y) || less(y, x))
    && (forall x, y, z | x in s && y in s && z in s && less(x, y) && less(y, z) :: less(x, z))
  }

  ghost predicate Ascending<T>(less: (T, T) -> bool, xs: seq<T>) {
    forall i, j | 0 <= i < j < |xs| :: less(xs[i], xs[j])
  }

  predicate NoDuplicates<T(==)>(xs: seq<T>) {
    forall i, j | 0 <= i < j < |xs| :: xs[i] != xs[j]
  }

  function Elements<T>(xs: seq<T>): set<T> {
    set x | x in xs
  }

  lemma EmptyElements<T>(xs: seq<T>)
    ensures xs == [] <==> Elements(xs) == {}
  {
    assert xs != [] ==> xs[0] in Elements(xs);
  }

  /** `xs` lists `s` in ascending order, each element once. */
  ghost predicate IsRanking<T>(less: (T, T) -> bool, xs: seq<T>, s: set<T>) {
    Ascending(less, xs) && Elements(xs) == s
  }

  ghost predicate IsLeast<T>(less: (T, T) -> bool, m: T, s: set<T>) {
    m in s && forall x | x in s && x != m :: less(m, x)
  }

  lemma {:induction false} LeastExists<T>(less: (T, T) -> bool, s: set<T>)
    requires s != {} && StrictOrderOn(less, s)
    ensures exists m :: IsLeast(less, m, s)
    decreases |s|
  {
    var x :| x in s;
    var rest := s - {x};
    if rest == {} {
      assert s == {x};
      assert IsLeast(less, x, s);
    } else {
      LeastExists(less, rest);
      var m :| IsLeast(less, m, rest);
      if less(m, x) {
        assert IsLeast(less, m, s);
      } else {
        assert forall y | y in rest && y != m :: less(x, m) && less(m, y);
        assert IsLeast(less, x, s);
      }
    }
  }

  /** The ascending listing of a set. */
  ghost function Ranked<T>(less: (T, T) -> bool, s: set<T>): (xs: seq<T>)
    requires StrictOrderOn(less, s)
    ensures IsRanking(less, xs, s)
    ensures |xs| == |s|
    decreases |s|
  {
    if s == {} then [] else
      LeastExists(less, s);
      var m :| IsLeast(less, m, s);
      var rest := Ranked(less, s - {m});
      LeastFirst(less, m, rest, s);
      [m] + rest
  }

  lemma LeastFirst<T>(less: (T, T) -> bool, m: T, rest: seq<T>, s: set<T>)
    requires IsLeast(less, m, s) && IsRanking(less, rest, s - {m})
    ensures IsRanking(less, [m] + rest, s)
  {
    var xs := [m] + rest;
    assert Elements(xs) == {m} + Elements(rest);
    assert forall i | 0 <= i < |rest| :: rest[i] in Elements(rest);
  }

  lemma Appended<T>(less: (T, T) -> bool, lo: seq<T>, hi: seq<T>, a: set<T>, b: set<T>)
    requires IsRanking(less, lo, a) && IsRanking(less, hi, b)
    requires forall x, y | x in a && y in b :: less(x, y)
    ensures IsRanking(less, lo + hi, a + b)
  {
    assert Elements(lo + hi) == Elements(lo) + Elements(hi);
    assert forall i | 0 <= i < |lo| :: lo[i] in Elements(lo);
    assert forall i | 0 <= i < |hi| :: hi[i] in Elements(hi);
  }

  lemma {:induction false} RankingUnique<T>(less: (T, T) -> bool, s: set<T>, xs: seq<T>, ys: seq<T>)
    requires StrictOrderOn(less, s)
    requires IsRanking(less, xs, s) && IsRanking(less, ys, s)
    ensures xs == ys
    decreases |xs|
  {
    EmptyElements(xs);
    EmptyElements(ys);
    if xs != [] {
      SameFirst(less, s, xs, ys);
      RankingTail(less, xs, s);
      RankingTail(less, ys, s);
      RankingUnique(less, s - {xs[0]}, xs[1..], ys[1..]);
    }
  }

  lemma SameFirst<T>(less: (T, T) -> bool, s: set<T>, xs: seq<T>, ys: seq<T>)
    requires StrictOrderOn(less, s)
    requires IsRanking(less, xs, s) && IsRanking(less, ys, s) && xs != [] && ys != []
    ensures xs[0] == ys[0]
  {
    assert xs[0] in Elements(xs) && ys[0] in Elements(ys);
    assert xs[0] in ys && ys[0] in xs;
  }

  lemma RankingTail<T>(less: (T, T) -> bool, xs: seq<T>, s: set<T>)
    requires StrictOrderOn(less, s) && IsRanking(less, xs, s) && xs != []
    ensures StrictOrderOn(less, s - {xs[0]})
    ensures IsRanking(less, xs[1..], s - {xs[0]})
  {
    assert forall i | 0 < i < |xs| :: xs[i] in s && less(xs[0], xs[i]);
    assert xs == [xs[0]] + xs[1..];
    forall x | x in s - {xs[0]} ensures x in xs[1..] {
      assert x in xs;
    }
  }

  /** A set below everything else is listed first. */
  lemma {:induction false} LowerSetIsPrefix<T>(less: (T, T) -> bool, a: set<T>, s: set<T>)
    requires a <= s && StrictOrderOn(less, s)
    requires forall x, y | x in a && y in s - a :: less(x, y)
    ensures StrictOrderOn(less, a)
    ensures |a| <= |s|
    ensures Ranked(less, a) == Ranked(less, s)[..|a|]
  {
    var lo, hi := Ranked(less, a), Ranked(less, s - a);
    var all := lo + hi;
    Appended(less, lo, hi, a, s - a);
    assert a + (s - a) == s;
    RankingUnique(less, s, all, Ranked(less, s));
    assert |s| == |a| + |s - a|;
  }

  /** A ranking of distinct elements is as long as its set. */
  lemma {:induction false} RankingLength<T>(less: (T, T) -> bool, xs: seq<T>, s: set<T>)
    requires StrictOrderOn(less, s) && IsRanking(less, xs, s)
    ensures |xs| == |s|
  {
    RankingUnique(less, s, xs, Ranked(less, s));
  }

  lemma SplitsRanking<T>(less: (T, T) -> bool, r: seq<T>, all: set<T>, m: nat, x: T, y: T)
    requires IsRanking(less, r, all) && m <= |r| && x in r[..m] && y in all && y !in r[..m]
    ensures less(x, y)
  {
    assert y in Elements(r);
    var i :| 0 <= i < m && r[..m][i] == x;
    var j :| 0 <= j < |r| && r[j] == y;
    assert forall k | 0 <= k < m :: r[k] in r[..m];
  }

  /** The first `m` of a ranking form a set of that size below everything else. */
  lemma FirstRanked<T>(less: (T, T) -> bool, r: seq<T>, all: set<T>, m: nat, first: set<T>)
    requires StrictOrderOn(less, all) && IsRanking(less, r, all) && m <= |r| && first == Elements(r[..m])
    ensures first <= all && |first| == m && forall x, y | x in first && y in all - first :: less(x, y)
  {
    assert forall x | x in first :: x in Elements(r);
    assert IsRanking(less, r[..m], first);
    RankingLength(less, r[..m], first);
    forall x, y | x in first && y in all - first ensures less(x, y) {
      SplitsRanking(less, r, all, m, x, y);
    }
  }

  /** Every element of the part comes before every other element of the whole. */
  ghost predicate IsLower<T(!new)>(less: (T, T) -> bool, part: set<T>, all: set<T>) {
    forall x, y | x in part && y in all - part :: less(x, y)
  }

  /** A part is ranked as the start of the whole exactly when it lies below the rest. */
  lemma LowerExactly<T(!new)>(less: (T, T) -> bool, part: set<T>, all: set<T>)
    requires part <= all && StrictOrderOn(less, all)
    ensures StrictOrderOn(less, part) && |part| <= |all|
    ensures Ranked(less, part) == Ranked(less, all)[..|part|] <==> IsLower(less, part, all)
  {
    assert StrictOrderOn(less, part);
    assert all == part + (all - part);
    if IsLower(less, part, all) {
      LowerSetIsPrefix(less, part, all);
    } else {
      var r := Ranked(less, all);
      FirstRanked(less, r, all, |part|, Elements(r[..|part|]));
    }
  }

  // The sort the engines call, as insertion sort.

  function InsertBy<T>(less: (T, T) -> bool, x: T, xs: seq<T>): (r: seq<T>)
    ensures |r| == |xs| + 1
  {
    if xs == [] || less(x, xs[0]) then [x] + xs else [xs[0]] + InsertBy(less, x, xs[1..])
  }

  function SortBy<T>(less: (T, T) -> bool, xs: seq<T>): (r: seq<T>)
    ensures |r| == |xs|
  {
    if xs == [] then [] else InsertBy(less, xs[0], SortBy(less, xs[1..]))
  }

  lemma {:induction false} InsertByRanking<T>(less: (T, T) -> bool, x: T, xs: seq<T>, s: set<T>)
    requires x !in s && StrictOrderOn(less, s + {x})
    requires IsRanking(less, xs, s)
    ensures IsRanking(less, InsertBy(less, x, xs), s + {x})
    decreases |xs|
  {
    if xs == [] {
      assert s == {};
    } else if less(x, xs[0]) {
      var r := [x] + xs;
      assert Elements(r) == {x} + Elements(xs);
      assert forall i | 0 <= i < |xs| :: xs[i] in s + {x};
      assert forall i | 0 < i < |xs| :: less(xs[0], xs[i]);
    } else {
      assert xs[0] in s;
      RankingTail(less, xs, s);
      var t := InsertBy(less, x, xs[1..]);
      assert s - {xs[0]} + {x} <= s + {x};
      InsertByRanking(less, x, xs[1..], s - {xs[0]});
      assert Elements([xs[0]] + t) == {xs[0]} + Elements(t);
      assert forall i | 0 <= i < |t| :: t[i] in Elements(t);
      forall y | y in s - {xs[0]} + {x} ensures less(xs[0], y) {
        if y != x {
          assert y in xs[1..];
        }
      }
    }
  }

  /** Sorting distinct elements lists their set in order, whatever order they came in. */
  lemma {:induction false} SortByRanks<T>(less: (T, T) -> bool, xs: seq<T>)
    requires NoDuplicates(xs) && StrictOrderOn(less, Elements(xs))
    ensures SortBy(less, xs) == Ranked(less, Elements(xs))
    ensures |Elements(xs)| == |xs|
    decreases |xs|
  {
    if xs != [] {
      var rest := xs[1..];
      assert xs == [xs[0]] + rest;
      assert Elements(xs) == Elements(rest) + {xs[0]};
      SortByRanks(less, rest);
      InsertByRanking(less, xs[0], SortBy(less, rest), Elements(rest));
      RankingUnique(less, Elements(xs), SortBy(less, xs), Ranked(less, Elements(xs)));
    }
  }
}
