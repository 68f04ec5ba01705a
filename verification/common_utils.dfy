/** Generic array helpers of src/utils/commonUtils.ts, plus the two built-in
    array operations (`findIndex`, concatenation of nested arrays) that the
    engine relies on. */
module CommonUtils {

  /** `findLastIndex(array, fn)`: scans from the end, returns the first index
      (from the right) whose element satisfies `fn`, or -1. */
  function FindLastIndex<T>(s: seq<T>, p: T -> bool): (r: int)
    ensures -1 <= r < |s|
    ensures r == -1 <==> forall i :: 0 <= i < |s| ==> !p(s[i])
    ensures r >= 0 ==> p(s[r]) && forall i :: r < i < |s| ==> !p(s[i])
  {
    if |s| == 0 then -1
    else if p(s[|s| - 1]) then |s| - 1
    else FindLastIndex(s[..|s| - 1], p)
  }

  /** JavaScript's `Array.prototype.findIndex`: the first index whose element
      satisfies `p`, or -1. */
  function FindIndex<T>(s: seq<T>, p: T -> bool): (r: int)
    ensures -1 <= r < |s|
    ensures r == -1 <==> forall i :: 0 <= i < |s| ==> !p(s[i])
    ensures r >= 0 ==> p(s[r]) && forall i :: 0 <= i < r ==> !p(s[i])
  {
    if |s| == 0 then -1
    else if p(s[0]) then 0
    else
      var k := FindIndex(s[1..], p);
      if k == -1 then -1 else k + 1
  }

  /** The concatenation of a sequence of sequences. */
  function Flatten<T>(ss: seq<seq<T>>): seq<T>
  {
    if |ss| == 0 then [] else Flatten(ss[..|ss| - 1]) + ss[|ss| - 1]
  }

  /** `flatMap(array, fn)`: `fn` applied to every element, results
      concatenated in order. */
  function FlatMap<T, U>(s: seq<T>, fn: T -> seq<U>): (r: seq<U>)
    ensures |s| == 0 ==> r == []
  {
    if |s| == 0 then [] else FlatMap(s[..|s| - 1], fn) + fn(s[|s| - 1])
  }

  lemma {:induction false} FlattenAppend<T>(a: seq<seq<T>>, b: seq<seq<T>>)
    ensures Flatten(a + b) == Flatten(a) + Flatten(b)
    decreases |b|
  {
    if |b| == 0 {
      assert a + b == a;
    } else {
      var front := b[..|b| - 1];
      assert (a + b)[..|a + b| - 1] == a + front;
      assert Flatten(a + b) == Flatten(a + front) + b[|b| - 1];
      FlattenAppend(a, front);
    }
  }

  /** `flatMap` distributes over concatenation of its input: the result for
      `a + b` is the result for `a` followed by the result for `b`. */
  lemma {:induction false} FlatMapAppend<T, U>(a: seq<T>, b: seq<T>, fn: T -> seq<U>)
    ensures FlatMap(a + b, fn) == FlatMap(a, fn) + FlatMap(b, fn)
    decreases |b|
  {
    if |b| == 0 {
      assert a + b == a;
    } else {
      assert (a + b)[..|a + b| - 1] == a + b[..|b| - 1];
      FlatMapAppend(a, b[..|b| - 1], fn);
    }
  }

  /** `flatMap` is the concatenation of the mapped pieces, in order. */
  lemma {:induction false} FlatMapIsFlatten<T, U>(s: seq<T>, fn: T -> seq<U>)
    ensures FlatMap(s, fn) == Flatten(seq(|s|, i requires 0 <= i < |s| => fn(s[i])))
    decreases |s|
  {
    if |s| > 0 {
      var n := |s| - 1;
      FlatMapIsFlatten(s[..n], fn);
      var m := seq(|s|, i requires 0 <= i < |s| => fn(s[i]));
      assert m[..n] == seq(n, i requires 0 <= i < n => fn(s[..n][i]));
    }
  }

  lemma MultisetSnoc<T>(s: seq<T>)
    requires |s| > 0
    ensures multiset(s) == multiset(s[..|s| - 1]) + multiset{s[|s| - 1]}
  {
    assert s == s[..|s| - 1] + [s[|s| - 1]];
  }

  lemma SplitAt<T>(s: seq<T>, o: nat)
    requires o < |s|
    ensures s == s[..o] + [s[o]] + s[o + 1..]
  {
  }

  lemma FlattenAround<T>(a: seq<seq<T>>, y: seq<T>, b: seq<seq<T>>)
    ensures Flatten(a + [y] + b) == Flatten(a) + y + Flatten(b)
  {
    FlattenAppend(a + [y], b);
    FlattenAppend(a, [y]);
    assert [y][..0] == [];
  }

  /** Appending `x` to one inner sequence adds one `x` to the flattening. */
  lemma FlattenMultisetUpdate<T>(ss: seq<seq<T>>, k: nat, x: T)
    requires k < |ss|
    ensures multiset(Flatten(ss[k := ss[k] + [x]])) == multiset(Flatten(ss)) + multiset{x}
  {
    var a, b := ss[..k], ss[k + 1..];
    var ts := ss[k := ss[k] + [x]];
    SplitAt(ss, k);
    assert ts == a + [ss[k] + [x]] + b;
    FlattenAround(a, ss[k], b);
    FlattenAround(a, ss[k] + [x], b);
    assert multiset(Flatten(a) + (ss[k] + [x]) + Flatten(b)) == multiset(Flatten(a) + ss[k] + Flatten(b)) + multiset{x};
  }

  /** The elements of `s` satisfying `p`, in order. */
  function Filter<T>(s: seq<T>, p: T -> bool): (r: seq<T>)
    ensures |r| <= |s|
    ensures forall i :: 0 <= i < |r| ==> p(r[i])
    ensures multiset(r) <= multiset(s)
  {
    if |s| == 0 then []
    else
      var front := Filter(s[..|s| - 1], p);
      assert s == s[..|s| - 1] + [s[|s| - 1]];
      if p(s[|s| - 1]) then front + [s[|s| - 1]] else front
  }

  lemma {:induction false} FilterAppend<T>(a: seq<T>, b: seq<T>, p: T -> bool)
    ensures Filter(a + b, p) == Filter(a, p) + Filter(b, p)
    decreases |b|
  {
    if |b| == 0 {
      assert a + b == a;
    } else {
      assert (a + b)[..|a + b| - 1] == a + b[..|b| - 1];
      FilterAppend(a, b[..|b| - 1], p);
    }
  }

  /** An element satisfying the predicate survives filtering. */
  lemma {:induction false} FilterKeeps<T>(s: seq<T>, p: T -> bool, k: nat)
    requires k < |s| && p(s[k])
    ensures s[k] in Filter(s, p)
    decreases |s|
  {
    if k < |s| - 1 {
      FilterKeeps(s[..|s| - 1], p, k);
    }
  }

  /** A filter keeps exactly the elements it accepts. */
  lemma {:induction false} FilterIffAccepted<T>(s: seq<T>, p: T -> bool, x: T)
    ensures x in Filter(s, p) <==> x in s && p(x)
    decreases |s|
  {
    if |s| > 0 {
      var n := |s| - 1;
      FilterIffAccepted(s[..n], p, x);
      assert s == s[..n] + [s[n]];
    }
  }

  lemma FilterIffAcceptedAll<T>(s: seq<T>, p: T -> bool)
    ensures forall x :: x in Filter(s, p) <==> x in s && p(x)
  {
    forall x
      ensures x in Filter(s, p) <==> x in s && p(x)
    {
      FilterIffAccepted(s, p, x);
    }
  }

  /** Every element of the concatenation comes from one of the pieces. */
  lemma {:induction false} FlattenHas<T>(ss: seq<seq<T>>, x: T)
    requires x in Flatten(ss)
    ensures exists c, k :: 0 <= c < |ss| && 0 <= k < |ss[c]| && ss[c][k] == x
    decreases |ss|
  {
    var n := |ss| - 1;
    if x in Flatten(ss[..n]) {
      FlattenHas(ss[..n], x);
      var c, k :| 0 <= c < n && 0 <= k < |ss[..n][c]| && ss[..n][c][k] == x;
      assert ss[c] == ss[..n][c];
    } else {
      var k :| 0 <= k < |ss[n]| && ss[n][k] == x;
    }
  }

  /** Filtering keeps every occurrence of an accepted value and none of a
      rejected one. */
  lemma {:induction false} FilterCount<T>(s: seq<T>, p: T -> bool, x: T)
    ensures multiset(Filter(s, p))[x] == if p(x) then multiset(s)[x] else 0
    decreases |s|
  {
    if |s| > 0 {
      var n := |s| - 1;
      FilterCount(s[..n], p, x);
      assert s == s[..n] + [s[n]];
    }
  }
}
