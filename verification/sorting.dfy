/** `Array.prototype.sort` on a copy, as the engine uses it: a stable sort
    by a three-way comparator, modelled as insertion sort (every stable
    sort orders a list the same way under a consistent comparator). */
module Sorting {
  import opened Collation

  /** `cmp(a, b)` and `cmp(b, a)` have opposite signs. */
  ghost predicate Antisymmetric<T(!new)>(cmp: (T, T) -> int)
  {
    forall a, b :: Sign(cmp(a, b)) == -Sign(cmp(b, a))
  }

  /** "Not after" is transitive. */
  ghost predicate Transitive<T(!new)>(cmp: (T, T) -> int)
  {
    forall a, b, c :: cmp(a, b) <= 0 && cmp(b, c) <= 0 ==> cmp(a, c) <= 0
  }

  /** Inserts `x` into `s` after every element that is not after it,
      scanning from the end: an element moves in front of `x` only if the
      comparator puts it strictly after `x`. */
  function Insert<T>(x: T, s: seq<T>, cmp: (T, T) -> int): (r: seq<T>)
    ensures |r| == |s| + 1
    ensures multiset(r) == multiset(s) + multiset{x}
  {
    if |s| == 0 then [x]
    else
      var last := s[|s| - 1];
      if cmp(last, x) > 0 then
        assert s == s[..|s| - 1] + [last];
        Insert(x, s[..|s| - 1], cmp) + [last]
      else s + [x]
  }

  /** `items.slice().sort(cmp)`. */
  function InsertionSort<T>(s: seq<T>, cmp: (T, T) -> int): (r: seq<T>)
    ensures |r| == |s|
    ensures multiset(r) == multiset(s)
  {
    if |s| == 0 then []
    else
      assert s == s[..|s| - 1] + [s[|s| - 1]];
      Insert(s[|s| - 1], InsertionSort(s[..|s| - 1], cmp), cmp)
  }

  /** No element is after a later one. */
  predicate Sorted<T>(s: seq<T>, cmp: (T, T) -> int)
  {
    forall i, j :: 0 <= i < j < |s| ==> cmp(s[i], s[j]) <= 0
  }

  lemma InsertedElement<T>(x: T, s: seq<T>, cmp: (T, T) -> int, i: nat)
    requires i < |s| + 1
    ensures Insert(x, s, cmp)[i] == x || Insert(x, s, cmp)[i] in s
  {
    var r := Insert(x, s, cmp);
    assert r[i] in multiset(r);
  }

  lemma SortedAppend<T>(f: seq<T>, y: T, cmp: (T, T) -> int)
    requires Sorted(f, cmp)
    requires forall i :: 0 <= i < |f| ==> cmp(f[i], y) <= 0
    ensures Sorted(f + [y], cmp)
  {
    var r := f + [y];
    forall i, j | 0 <= i < j < |r|
      ensures cmp(r[i], r[j]) <= 0
    {
      if j < |f| {
        assert r[i] == f[i] && r[j] == f[j];
      }
    }
  }

  /** `x` goes before the last element: the last stays last. */
  lemma InsertSortedPast<T(!new)>(x: T, s: seq<T>, cmp: (T, T) -> int)
    requires Antisymmetric(cmp) && Transitive(cmp)
    requires |s| > 0 && Sorted(s, cmp) && cmp(s[|s| - 1], x) > 0
    requires Sorted(Insert(x, s[..|s| - 1], cmp), cmp)
    ensures Sorted(Insert(x, s, cmp), cmp)
  {
    var n := |s| - 1;
    var last := s[n];
    var front := s[..n];
    var f := Insert(x, front, cmp);
    assert Sign(cmp(x, last)) == -Sign(cmp(last, x));
    forall i | 0 <= i < |f|
      ensures cmp(f[i], last) <= 0
    {
      InsertedElement(x, front, cmp, i);
      if f[i] != x {
        var k :| 0 <= k < n && front[k] == f[i];
        assert cmp(s[k], s[n]) <= 0;
      }
    }
    SortedAppend(f, last, cmp);
  }

  /** `x` is not before the last element: it is appended. */
  lemma InsertSortedAtEnd<T(!new)>(x: T, s: seq<T>, cmp: (T, T) -> int)
    requires Transitive(cmp)
    requires |s| > 0 && Sorted(s, cmp) && cmp(s[|s| - 1], x) <= 0
    ensures Sorted(Insert(x, s, cmp), cmp)
  {
    var n := |s| - 1;
    forall i | 0 <= i < |s|
      ensures cmp(s[i], x) <= 0
    {
      if i < n {
        assert cmp(s[i], s[n]) <= 0;
      }
    }
    SortedAppend(s, x, cmp);
  }

  lemma {:induction false} InsertSorted<T(!new)>(x: T, s: seq<T>, cmp: (T, T) -> int)
    requires Antisymmetric(cmp) && Transitive(cmp)
    requires Sorted(s, cmp)
    ensures Sorted(Insert(x, s, cmp), cmp)
    decreases |s|
  {
    if |s| > 0 {
      var n := |s| - 1;
      if cmp(s[n], x) > 0 {
        assert Sorted(s[..n], cmp);
        InsertSorted(x, s[..n], cmp);
        InsertSortedPast(x, s, cmp);
      } else {
        InsertSortedAtEnd(x, s, cmp);
      }
    }
  }

  /** With a consistent comparator the result is sorted. */
  lemma {:induction false} InsertionSortSorted<T(!new)>(s: seq<T>, cmp: (T, T) -> int)
    requires Antisymmetric(cmp) && Transitive(cmp)
    ensures Sorted(InsertionSort(s, cmp), cmp)
    decreases |s|
  {
    if |s| > 0 {
      InsertionSortSorted(s[..|s| - 1], cmp);
      InsertSorted(s[|s| - 1], InsertionSort(s[..|s| - 1], cmp), cmp);
    }
  }

  // ---------------------------------------------------------------------
  // Ranked comparators
  // ---------------------------------------------------------------------

  /** Ranks never decrease along the list. */
  predicate RankSorted<T>(s: seq<T>, rank: T -> int)
  {
    forall i, j :: 0 <= i < j < |s| ==> rank(s[i]) <= rank(s[j])
  }

  /** Between elements of `s` of different rank, the comparator always
      puts the lower rank first, whatever it does within a rank. */
  ghost predicate RespectsRank<T>(s: seq<T>, cmp: (T, T) -> int, rank: T -> int)
  {
    forall a, b :: a in s && b in s && rank(a) < rank(b) ==> cmp(a, b) <= 0 && cmp(b, a) > 0
  }

  lemma RankSortedAppend<T>(f: seq<T>, y: T, rank: T -> int)
    requires RankSorted(f, rank)
    requires forall i :: 0 <= i < |f| ==> rank(f[i]) <= rank(y)
    ensures RankSorted(f + [y], rank)
  {
    var r := f + [y];
    forall i, j | 0 <= i < j < |r|
      ensures rank(r[i]) <= rank(r[j])
    {
      if j < |f| {
        assert r[i] == f[i] && r[j] == f[j];
      }
    }
  }

  lemma {:induction false} InsertRankSorted<T>(x: T, s: seq<T>, cmp: (T, T) -> int, rank: T -> int)
    requires RankSorted(s, rank)
    requires forall y :: y in s && rank(x) < rank(y) ==> cmp(y, x) > 0
    requires forall y :: y in s && rank(y) < rank(x) ==> cmp(y, x) <= 0
    ensures RankSorted(Insert(x, s, cmp), rank)
    decreases |s|
  {
    if |s| > 0 {
      var n := |s| - 1;
      var last := s[n];
      var front := s[..n];
      assert last in s;
      assert RankSorted(front, rank);
      if cmp(last, x) > 0 {
        assert forall y :: y in front ==> y in s;
        InsertRankSorted(x, front, cmp, rank);
        var f := Insert(x, front, cmp);
        forall i | 0 <= i < |f|
          ensures rank(f[i]) <= rank(last)
        {
          InsertedElement(x, front, cmp, i);
          if f[i] != x {
            var k :| 0 <= k < n && front[k] == f[i];
            assert rank(s[k]) <= rank(s[n]);
          }
        }
        RankSortedAppend(f, last, rank);
      } else {
        forall i | 0 <= i < |s|
          ensures rank(s[i]) <= rank(x)
        {
          if i < n {
            assert rank(s[i]) <= rank(last);
          }
        }
        RankSortedAppend(s, x, rank);
      }
    }
  }

  lemma RespectsRankSub<T>(s: seq<T>, t: seq<T>, cmp: (T, T) -> int, rank: T -> int)
    requires RespectsRank(s, cmp, rank)
    requires forall y :: y in t ==> y in s
    ensures RespectsRank(t, cmp, rank)
  {
  }

  lemma SortedHasOnly<T>(s: seq<T>, cmp: (T, T) -> int, y: T)
    requires y in InsertionSort(s, cmp)
    ensures y in s
  {
    assert y in multiset(InsertionSort(s, cmp));
  }

  /** Inserting an element of `s` into a list drawn from `s` meets the
      premises of `InsertRankSorted`. */
  lemma InsertRespectsRank<T>(x: T, t: seq<T>, s: seq<T>, cmp: (T, T) -> int, rank: T -> int)
    requires RespectsRank(s, cmp, rank) && x in s
    requires forall y :: y in t ==> y in s
    ensures forall y :: y in t && rank(x) < rank(y) ==> cmp(y, x) > 0
    ensures forall y :: y in t && rank(y) < rank(x) ==> cmp(y, x) <= 0
  {
  }

  /** The premises of one step of `InsertionSortRankSorted`. */
  lemma RankStepPremises<T>(s: seq<T>, cmp: (T, T) -> int, rank: T -> int)
    requires |s| > 0 && RespectsRank(s, cmp, rank)
    ensures RespectsRank(s[..|s| - 1], cmp, rank)
    ensures var sorted := InsertionSort(s[..|s| - 1], cmp);
      && (forall y :: y in sorted && rank(s[|s| - 1]) < rank(y) ==> cmp(y, s[|s| - 1]) > 0)
      && (forall y :: y in sorted && rank(y) < rank(s[|s| - 1]) ==> cmp(y, s[|s| - 1]) <= 0)
  {
    var n := |s| - 1;
    var front := s[..n];
    assert forall y :: y in front ==> y in s;
    RespectsRankSub(s, front, cmp, rank);
    var sorted := InsertionSort(front, cmp);
    forall y | y in sorted
      ensures y in s
    {
      SortedHasOnly(front, cmp, y);
    }
    InsertRespectsRank(s[n], sorted, s, cmp, rank);
  }

  /** Whatever the comparator does within a rank, a comparator that
      respects ranks yields a list sorted by rank. */
  lemma {:induction false} InsertionSortRankSorted<T>(s: seq<T>, cmp: (T, T) -> int, rank: T -> int)
    requires RespectsRank(s, cmp, rank)
    ensures RankSorted(InsertionSort(s, cmp), rank)
    decreases |s|
  {
    if |s| > 0 {
      var n := |s| - 1;
      RankStepPremises(s, cmp, rank);
      InsertionSortRankSorted(s[..n], cmp, rank);
      InsertRankSorted(s[n], InsertionSort(s[..n], cmp), cmp, rank);
    }
  }
}
