/** The string comparison `compare` of src/utils/utils-clone.ts: a
    locale collator, with plain code-unit order breaking its ties. */
module Collation {
  /** -1, 0 or 1 by the sign of `x`. */
  function Sign(x: int): int
  {
    if x < 0 then -1 else if x > 0 then 1 else 0
  }

  /** JavaScript's `a < b` on strings: lexicographic order of code units
      (here: of characters), a proper prefix sorting first. */
  predicate LexLess(a: string, b: string)
  {
    if |a| == 0 then |b| > 0
    else if |b| == 0 then false
    else if a[0] != b[0] then a[0] < b[0]
    else LexLess(a[1..], b[1..])
  }

  lemma {:induction false} LexLessIrreflexive(a: string)
    ensures !LexLess(a, a)
    decreases |a|
  {
    if |a| > 0 {
      LexLessIrreflexive(a[1..]);
    }
  }

  /** Two strings neither of which is below the other are equal. */
  lemma {:induction false} LexLessTrichotomy(a: string, b: string)
    ensures a == b || LexLess(a, b) || LexLess(b, a)
    decreases |a|
  {
    if |a| > 0 && |b| > 0 && a[0] == b[0] {
      LexLessTrichotomy(a[1..], b[1..]);
      if a[1..] == b[1..] {
        assert a == [a[0]] + a[1..] && b == [b[0]] + b[1..];
      }
    }
  }

  lemma {:induction false} LexLessAsymmetric(a: string, b: string)
    requires LexLess(a, b)
    ensures !LexLess(b, a)
    decreases |a|
  {
    if |a| > 0 && |b| > 0 && a[0] == b[0] {
      LexLessAsymmetric(a[1..], b[1..]);
    }
  }

  lemma {:induction false} LexLessTransitive(a: string, b: string, c: string)
    requires LexLess(a, b) && LexLess(b, c)
    ensures LexLess(a, c)
    decreases |a|
  {
    if |a| > 0 && |b| > 0 && |c| > 0 && a[0] == b[0] && b[0] == c[0] {
      LexLessTransitive(a[1..], b[1..], c[1..]);
    }
  }

  /** `a < b ? -1 : a > b ? 1 : 0`. */
  function CodeUnitOrder(a: string, b: string): int
  {
    if LexLess(a, b) then -1 else if LexLess(b, a) then 1 else 0
  }

  /** A collator that behaves like a comparator: `compare(a, b)` and
      `compare(b, a)` have opposite signs, and "not after" is transitive.
      `Intl.Collator.prototype.compare` is required to be such a function. */
  ghost predicate Consistent(collator: (string, string) -> int)
  {
    && (forall a, b :: Sign(collator(a, b)) == -Sign(collator(b, a)))
    && (forall a, b, c :: collator(a, b) <= 0 && collator(b, c) <= 0 ==> collator(a, c) <= 0)
  }

  /** `compare(a, b)`: the collator's verdict, or code-unit order when the
      collator sees no difference (`||` picks the first non-zero number).
      The result is 0 only for identical strings. */
  function Compare(collator: (string, string) -> int, a: string, b: string): (r: int)
    ensures r == 0 ==> a == b
    ensures collator(a, b) != 0 ==> r == collator(a, b)
    ensures collator(a, b) == 0 ==> Sign(r) == (if LexLess(a, b) then -1 else if LexLess(b, a) then 1 else 0)
  {
    var c := collator(a, b);
    if c != 0 then c
    else
      LexLessTrichotomy(a, b);
      CodeUnitOrder(a, b)
  }

  /** Given a consistent collator, `compare` is a total order on strings:
      signs are opposite, "not after" is transitive, and only a string
      compares equal to itself. */
  lemma CompareAntisymmetric(collator: (string, string) -> int, a: string, b: string)
    requires Consistent(collator)
    ensures Sign(Compare(collator, a, b)) == -Sign(Compare(collator, b, a))
  {
    assert Sign(collator(a, b)) == -Sign(collator(b, a));
    if collator(a, b) == 0 && LexLess(a, b) {
      LexLessAsymmetric(a, b);
    }
  }

  lemma CompareReflexive(collator: (string, string) -> int, a: string)
    requires Consistent(collator)
    ensures Compare(collator, a, a) == 0
  {
    assert Sign(collator(a, a)) == -Sign(collator(a, a));
    LexLessIrreflexive(a);
  }

  lemma CompareTransitive(collator: (string, string) -> int, a: string, b: string, c: string)
    requires Consistent(collator)
    requires Compare(collator, a, b) <= 0 && Compare(collator, b, c) <= 0
    ensures Compare(collator, a, c) <= 0
  {
    var ab, bc, ac := collator(a, b), collator(b, c), collator(a, c);
    assert ab <= 0 && bc <= 0;
    assert ac <= 0;
    if ac == 0 {
      // c is not after a either, so all three are collator-equal.
      assert Sign(collator(c, a)) == -Sign(ac);
      assert collator(c, b) <= 0 by {
        assert collator(c, a) <= 0 && ab <= 0;
      }
      assert Sign(collator(c, b)) == -Sign(bc);
      assert collator(b, a) <= 0 by {
        assert bc <= 0 && collator(c, a) <= 0;
      }
      assert Sign(collator(b, a)) == -Sign(ab);
      assert ab == 0 && bc == 0;
      if a != c {
        LexLessTrichotomy(a, b);
        LexLessTrichotomy(b, c);
        if a == b || b == c {
        } else {
          LexLessTransitive(a, b, c);
          LexLessAsymmetric(a, c);
        }
      }
    }
  }
}
