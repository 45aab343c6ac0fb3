/**
 * Stable insertion sort by a comparator. JavaScript's `Array.prototype.sort`
 * is stable, and a stable sort by a total preorder has exactly one possible
 * result, so this sort is the browser's `sort` with the same comparator.
 * A SQL `ORDER BY` returns rows with equal keys in an unspecified order; for
 * it this sort is one admissible result, and only what holds of every
 * ordering by those keys (the rows kept and the order of unequal keys) is
 * claimed of the query.
 */
module Sorting {

  /** `le` is total and transitive: a comparator that agrees with itself. */
  ghost predicate TotalPreorder<T(!new)>(le: (T, T) -> bool) {
    && (forall a, b :: le(a, b) || le(b, a))
    && (forall a, b, c :: le(a, b) && le(b, c) ==> le(a, c))
  }

  /** Every earlier element is `le` every later one. */
  ghost predicate SortedBy<T>(s: seq<T>, le: (T, T) -> bool) {
    forall i, j :: 0 <= i < j < |s| ==> le(s[i], s[j])
  }

  /** Places `x` before the first element it is `le`. */
  function Insert<T>(x: T, s: seq<T>, le: (T, T) -> bool): (r: seq<T>)
    ensures multiset(r) == multiset(s) + multiset{x}
  {
    if s == [] then [x]
    else
      assert s == [s[0]] + s[1..];
      if le(x, s[0]) then [x] + s else [s[0]] + Insert(x, s[1..], le)
  }

  function Sort<T>(s: seq<T>, le: (T, T) -> bool): (r: seq<T>)
    ensures multiset(r) == multiset(s)
  {
    if s == [] then []
    else
      assert s == [s[0]] + s[1..];
      Insert(s[0], Sort(s[1..], le), le)
  }

  lemma {:induction false} InsertSorted<T(!new)>(x: T, s: seq<T>, le: (T, T) -> bool)
    requires TotalPreorder(le)
    requires SortedBy(s, le)
    ensures SortedBy(Insert(x, s, le), le)
    decreases |s|
  {
    if s == [] {
    } else if le(x, s[0]) {
      var r := [x] + s;
      forall i, j | 0 <= i < j < |r| ensures le(r[i], r[j]) {
        if i > 0 {
          assert r[i] == s[i - 1] && r[j] == s[j - 1];
        } else if j > 1 {
          assert le(s[0], s[j - 1]);
        }
      }
    } else {
      InsertSorted(x, s[1..], le);
      var tail := Insert(x, s[1..], le);
      var r := [s[0]] + tail;
      forall k | 0 <= k < |tail| ensures le(s[0], tail[k]) {
        assert tail[k] in multiset(tail);
        assert tail[k] == x || tail[k] in multiset(s[1..]);
        if tail[k] != x {
          var m :| 0 <= m < |s[1..]| && s[1..][m] == tail[k];
          assert s[m + 1] == tail[k];
        }
      }
      forall i, j | 0 <= i < j < |r| ensures le(r[i], r[j]) {
        if i > 0 {
          assert r[i] == tail[i - 1] && r[j] == tail[j - 1];
        } else {
          assert r[j] == tail[j - 1];
        }
      }
    }
  }

  /** The sort is ordered by `le` and, by its contract, a permutation of its input. */
  lemma {:induction false} SortSorted<T(!new)>(s: seq<T>, le: (T, T) -> bool)
    requires TotalPreorder(le)
    ensures SortedBy(Sort(s, le), le)
    decreases |s|
  {
    if s != [] {
      SortSorted(s[1..], le);
      InsertSorted(s[0], Sort(s[1..], le), le);
    }
  }

  /** Sorting keeps the length and the elements. */
  lemma SortLength<T>(s: seq<T>, le: (T, T) -> bool)
    ensures |Sort(s, le)| == |s|
    ensures forall x :: x in Sort(s, le) <==> x in s
  {
    var r := Sort(s, le);
    assert |multiset(r)| == |multiset(s)|;
    forall x ensures x in r <==> x in s {
      assert x in r <==> x in multiset(r);
      assert x in s <==> x in multiset(s);
    }
  }

  /** `x` and `k` are tied: each is `le` the other. */
  predicate Tied<T>(x: T, k: T, le: (T, T) -> bool) {
    le(x, k) && le(k, x)
  }

  /** The elements of `s` tied with `k`, in the order of `s`. */
  function Ties<T>(s: seq<T>, k: T, le: (T, T) -> bool): seq<T> {
    if s == [] then []
    else if Tied(s[0], k, le) then [s[0]] + Ties(s[1..], k, le)
    else Ties(s[1..], k, le)
  }

  /** Inserting `x` puts it before every element it is tied with. */
  lemma {:induction false} InsertTies<T(!new)>(x: T, s: seq<T>, k: T, le: (T, T) -> bool)
    requires TotalPreorder(le)
    ensures Ties(Insert(x, s, le), k, le) == if Tied(x, k, le) then [x] + Ties(s, k, le) else Ties(s, k, le)
    decreases |s|
  {
    if s != [] && !le(x, s[0]) {
      InsertTies(x, s[1..], k, le);
      assert Insert(x, s, le)[1..] == Insert(x, s[1..], le);
      if Tied(x, k, le) {
        assert !Tied(s[0], k, le);
      }
    } else if s != [] {
      assert ([x] + s)[1..] == s;
    }
  }

  /**
   * The sort is stable: the elements tied with any `k` come out in the order
   * they went in, each as often. So two tied elements keep their relative order.
   */
  lemma {:induction false} SortStable<T(!new)>(s: seq<T>, k: T, le: (T, T) -> bool)
    requires TotalPreorder(le)
    ensures Ties(Sort(s, le), k, le) == Ties(s, k, le)
    decreases |s|
  {
    if s != [] {
      SortStable(s[1..], k, le);
      InsertTies(s[0], Sort(s[1..], le), k, le);
    }
  }
}
