/** Longest-match grouping of `makeSortedItems` (src/plugin/imports.js and
    src/plugin/exports.js): every item goes to the configured pattern with
    the longest match on its group key, ties to the earlier pattern,
    unmatched items to a catch-all group after all configured ones. */
module Grouping {
  import opened Wrappers
  import opened CommonUtils
  import opened Collation
  import opened SourceFormat
  import opened Items

  /** The source text of a regular expression. */
  type Pattern = string

  /** `regex.exec(key)`: the length of the matched text `match[0]`, or
      `None` for `null`. Left abstract: the patterns are configuration. */
  type Matcher = (Pattern, string) -> Option<nat>

  /** The string the patterns are matched against: `"\0"` before the path
      of a side-effect import, `"\0"` after the path of a non-value
      (`type`/`typeof`) item, the plain path otherwise. */
  function GroupKey(it: Item): (key: string)
    ensures it.isSideEffectImport ==> key == "\0" + it.source.originalSource
    ensures !it.isSideEffectImport && it.source.kind != "value" ==> key == it.source.originalSource + "\0"
    ensures !it.isSideEffectImport && it.source.kind == "value" ==> key == it.source.originalSource
  {
    if it.isSideEffectImport then "\0" + it.source.originalSource
    else if it.source.kind != "value" then it.source.originalSource + "\0"
    else it.source.originalSource
  }

  /** A pattern's place: outer group, then position inside it. */
  datatype Slot = Slot(outer: nat, inner: nat)

  predicate ValidSlot(groups: seq<seq<Pattern>>, s: Slot)
  {
    s.outer < |groups| && s.inner < |groups[s.outer]|
  }

  /** Strictly earlier in group order. */
  predicate SlotBefore(a: Slot, b: Slot)
  {
    a.outer < b.outer || (a.outer == b.outer && a.inner < b.inner)
  }

  function Row(outer: nat, width: nat): (r: seq<Slot>)
    ensures |r| == width
    ensures forall i :: 0 <= i < width ==> r[i] == Slot(outer, i)
  {
    seq(width, i requires 0 <= i => Slot(outer, i))
  }

  /** The pairs produced by the nested `flatMap`/`map` over the groups, in
      that order. */
  function Slots(groups: seq<seq<Pattern>>): (r: seq<Slot>)
    ensures forall k :: 0 <= k < |r| ==> ValidSlot(groups, r[k])
  {
    if |groups| == 0 then []
    else
      var n := |groups| - 1;
      var front := Slots(groups[..n]);
      assert forall k :: 0 <= k < |front| ==> ValidSlot(groups, front[k]) by {
        forall k | 0 <= k < |front| ensures ValidSlot(groups, front[k]) {
          assert ValidSlot(groups[..n], front[k]);
        }
      }
      front + Row(n, |groups[n]|)
  }

  /** The candidates are visited in group order, and each pattern exactly
      once. */
  predicate InGroupOrder(r: seq<Slot>)
  {
    forall k, k' :: 0 <= k < k' < |r| ==> SlotBefore(r[k], r[k'])
  }

  lemma {:induction false} SlotsInGroupOrder(groups: seq<seq<Pattern>>)
    ensures InGroupOrder(Slots(groups))
    decreases |groups|
  {
    if |groups| > 0 {
      var n := |groups| - 1;
      SlotsInGroupOrder(groups[..n]);
      var front := Slots(groups[..n]);
      var row := Row(n, |groups[n]|);
      var r := Slots(groups);
      assert r == front + row;
      forall k, k' | 0 <= k < k' < |r|
        ensures SlotBefore(r[k], r[k'])
      {
        if k' < |front| {
          assert r[k] == front[k] && r[k'] == front[k'];
          assert SlotBefore(front[k], front[k']);
        } else if k < |front| {
          assert ValidSlot(groups[..n], front[k]);
          assert front[k].outer < n;
          assert r[k] == front[k] && r[k'] == row[k' - |front|];
        } else {
          assert r[k] == row[k - |front|] && r[k'] == row[k' - |front|];
        }
      }
    }
  }

  lemma {:induction false} SlotsComplete(groups: seq<seq<Pattern>>, s: Slot)
    requires ValidSlot(groups, s)
    ensures exists k :: 0 <= k < |Slots(groups)| && Slots(groups)[k] == s
    decreases |groups|
  {
    var n := |groups| - 1;
    var front := Slots(groups[..n]);
    if s.outer < n {
      SlotsComplete(groups[..n], s);
      var k :| 0 <= k < |front| && front[k] == s;
      assert Slots(groups)[k] == s;
    } else {
      assert Slots(groups)[|front| + s.inner] == s;
    }
  }

  /** The `reduce` over the candidates: a later match replaces the current
      one only when it is strictly longer. Yields the winner's position. */
  function Longest(ms: seq<Option<nat>>): (r: Option<nat>)
    ensures r.None? <==> forall k :: 0 <= k < |ms| ==> ms[k].None?
    ensures r.Some? ==> r.value < |ms| && ms[r.value].Some?
    ensures r.Some? ==> forall k :: 0 <= k < r.value ==> ms[k].None? || ms[k].value < ms[r.value].value
    ensures r.Some? ==> forall k :: r.value < k < |ms| ==> ms[k].None? || ms[k].value <= ms[r.value].value
  {
    if |ms| == 0 then None
    else
      var n := |ms| - 1;
      var prev := Longest(ms[..n]);
      assert forall k :: 0 <= k < n ==> ms[..n][k] == ms[k];
      if ms[n].Some? && (prev.None? || ms[n].value > ms[prev.value].value) then Some(n) else prev
  }

  /** The match lengths of every configured pattern, in candidate order. */
  function MatchLengths(groups: seq<seq<Pattern>>, matcher: Matcher, key: string): (ms: seq<Option<nat>>)
    ensures var slots := Slots(groups);
      |ms| == |slots| && forall k :: 0 <= k < |slots| ==> ms[k] == matcher(groups[slots[k].outer][slots[k].inner], key)
  {
    var slots := Slots(groups);
    seq(|slots|, k requires 0 <= k < |slots| => matcher(groups[slots[k].outer][slots[k].inner], key))
  }

  /** Which pattern an item goes to, or `None` for the catch-all. */
  function BestSlot(groups: seq<seq<Pattern>>, matcher: Matcher, key: string): (r: Option<Slot>)
    ensures r.Some? ==> ValidSlot(groups, r.value)
  {
    var slots := Slots(groups);
    var w := Longest(MatchLengths(groups, matcher, key));
    if w.None? then None else Some(slots[w.value])
  }

  function PatternAt(groups: seq<seq<Pattern>>, s: Slot): Pattern
    requires ValidSlot(groups, s)
  {
    groups[s.outer][s.inner]
  }

  /** No pattern matches exactly when the item goes to the catch-all. */
  lemma BestSlotNone(groups: seq<seq<Pattern>>, matcher: Matcher, key: string)
    ensures BestSlot(groups, matcher, key).None? <==>
      forall s :: ValidSlot(groups, s) ==> matcher(PatternAt(groups, s), key).None?
  {
    var slots := Slots(groups);
    var ms := MatchLengths(groups, matcher, key);
    if Longest(ms).None? {
      forall s | ValidSlot(groups, s)
        ensures matcher(PatternAt(groups, s), key).None?
      {
        SlotsComplete(groups, s);
        var k :| 0 <= k < |slots| && slots[k] == s;
        assert ms[k].None?;
      }
    }
  }

  /** The chosen pattern matches; its match is strictly longer than that
      of every pattern before it in group order and at least as long as
      that of every pattern after it. */
  lemma BestSlotIsLongestEarliest(groups: seq<seq<Pattern>>, matcher: Matcher, key: string, s: Slot)
    requires BestSlot(groups, matcher, key).Some?
    requires ValidSlot(groups, s) && matcher(PatternAt(groups, s), key).Some?
    ensures var win := BestSlot(groups, matcher, key).value;
      var len := matcher(PatternAt(groups, win), key).value;
      var other := matcher(PatternAt(groups, s), key).value;
      && matcher(PatternAt(groups, win), key).Some?
      && (SlotBefore(s, win) ==> other < len)
      && (SlotBefore(win, s) ==> other <= len)
  {
    var slots := Slots(groups);
    var ms := MatchLengths(groups, matcher, key);
    var w := Longest(ms).value;
    SlotsInGroupOrder(groups);
    SlotsComplete(groups, s);
    var k :| 0 <= k < |slots| && slots[k] == s;
    assert ms[k] == matcher(PatternAt(groups, s), key);
    assert ms[w] == matcher(PatternAt(groups, slots[w]), key);
    if k < w {
      assert SlotBefore(slots[k], slots[w]);
    } else if k > w {
      assert SlotBefore(slots[w], slots[k]);
    }
  }

  // ---------------------------------------------------------------------
  // Distributing the items
  // ---------------------------------------------------------------------

  /** The `items` arrays of all `{ regex, items }` records, shaped like the
      configured groups, and the catch-all `rest`. */
  datatype Buckets = Buckets(groups: seq<seq<seq<Item>>>, rest: seq<Item>)

  predicate ShapedLike(b: Buckets, groups: seq<seq<Pattern>>)
  {
    |b.groups| == |groups| && forall o :: 0 <= o < |groups| ==> |b.groups[o]| == |groups[o]|
  }

  function EmptyBuckets(groups: seq<seq<Pattern>>): (b: Buckets)
    ensures ShapedLike(b, groups)
    ensures forall o, i :: 0 <= o < |groups| && 0 <= i < |groups[o]| ==> b.groups[o][i] == []
    ensures b.rest == []
  {
    Buckets(seq(|groups|, o requires 0 <= o < |groups| => seq(|groups[o]|, i => [])), [])
  }

  /** `rest.push(item)` or `matchedGroup.items.push(item)`. */
  function Place(b: Buckets, groups: seq<seq<Pattern>>, target: Option<Slot>, it: Item): (r: Buckets)
    requires ShapedLike(b, groups)
    requires target.Some? ==> ValidSlot(groups, target.value)
    ensures ShapedLike(r, groups)
  {
    match target
    case None => b.(rest := b.rest + [it])
    case Some(s) =>
      b.(groups := b.groups[s.outer := b.groups[s.outer][s.inner := b.groups[s.outer][s.inner] + [it]]])
  }

  /** The `for (const item of items)` loop. */
  function Distribute(items: seq<Item>, groups: seq<seq<Pattern>>, matcher: Matcher): (b: Buckets)
    ensures ShapedLike(b, groups)
  {
    if |items| == 0 then EmptyBuckets(groups)
    else
      var n := |items| - 1;
      Place(Distribute(items[..n], groups, matcher), groups, BestSlot(groups, matcher, GroupKey(items[n])), items[n])
  }

  /** Whether an item's key sends it to `target` (`None`: the catch-all). */
  function GoesTo(groups: seq<seq<Pattern>>, matcher: Matcher, target: Option<Slot>): Item -> bool
  {
    it => BestSlot(groups, matcher, GroupKey(it)) == target
  }

  /** Each pattern's bucket holds exactly the items whose best match is
      that pattern, in input order. */
  lemma {:induction false} DistributeSelects(items: seq<Item>, groups: seq<seq<Pattern>>, matcher: Matcher, s: Slot)
    requires ValidSlot(groups, s)
    ensures Distribute(items, groups, matcher).groups[s.outer][s.inner] == Filter(items, GoesTo(groups, matcher, Some(s)))
    decreases |items|
  {
    if |items| > 0 {
      var n := |items| - 1;
      var b := Distribute(items[..n], groups, matcher);
      var t := BestSlot(groups, matcher, GroupKey(items[n]));
      assert Distribute(items, groups, matcher) == Place(b, groups, t, items[n]);
      PlaceSelects(b, groups, t, items[n], s);
      DistributeSelects(items[..n], groups, matcher, s);
    }
  }

  /** Placing an item grows the bucket of its target by that item and
      leaves every other bucket alone. */
  lemma PlaceSelects(b: Buckets, groups: seq<seq<Pattern>>, t: Option<Slot>, it: Item, s: Slot)
    requires ShapedLike(b, groups) && ValidSlot(groups, s)
    requires t.Some? ==> ValidSlot(groups, t.value)
    ensures Place(b, groups, t, it).groups[s.outer][s.inner] ==
      b.groups[s.outer][s.inner] + if t == Some(s) then [it] else []
  {
  }

  /** The catch-all holds exactly the items no pattern matches, in input
      order. */
  lemma {:induction false} DistributeRest(items: seq<Item>, groups: seq<seq<Pattern>>, matcher: Matcher)
    ensures Distribute(items, groups, matcher).rest == Filter(items, GoesTo(groups, matcher, None))
    decreases |items|
  {
    if |items| > 0 {
      DistributeRest(items[..|items| - 1], groups, matcher);
    }
  }

  /** Every item of a bucket list, with multiplicity. */
  function AllItems(gs: seq<seq<seq<Item>>>): multiset<Item>
  {
    if |gs| == 0 then multiset{} else AllItems(gs[..|gs| - 1]) + multiset(Flatten(gs[|gs| - 1]))
  }

  lemma {:induction false} AllItemsAppend(a: seq<seq<seq<Item>>>, b: seq<seq<seq<Item>>>)
    ensures AllItems(a + b) == AllItems(a) + AllItems(b)
    decreases |b|
  {
    if |b| == 0 {
      assert a + b == a;
    } else {
      assert (a + b)[..|a + b| - 1] == a + b[..|b| - 1];
      AllItemsAppend(a, b[..|b| - 1]);
    }
  }

  lemma AllItemsSplit(gs: seq<seq<seq<Item>>>, o: nat)
    requires o < |gs|
    ensures AllItems(gs) == AllItems(gs[..o]) + multiset(Flatten(gs[o])) + AllItems(gs[o + 1..])
  {
    SplitAt(gs, o);
    AllItemsAppend(gs[..o] + [gs[o]], gs[o + 1..]);
    AllItemsAppend(gs[..o], [gs[o]]);
    assert [gs[o]][..0] == [];
  }

  /** Every item held by the buckets, with multiplicity. */
  function Held(b: Buckets): multiset<Item>
  {
    AllItems(b.groups) + multiset(b.rest)
  }

  lemma PlaceKeepsItems(b: Buckets, groups: seq<seq<Pattern>>, target: Option<Slot>, it: Item)
    requires ShapedLike(b, groups)
    requires target.Some? ==> ValidSlot(groups, target.value)
    ensures Held(Place(b, groups, target, it)) == Held(b) + multiset{it}
  {
    if target.Some? {
      var s := target.value;
      var o := s.outer;
      var g := b.groups[o];
      var g' := g[s.inner := g[s.inner] + [it]];
      var gs' := b.groups[o := g'];
      FlattenMultisetUpdate(g, s.inner, it);
      AllItemsSplit(b.groups, o);
      AllItemsSplit(gs', o);
      assert gs'[..o] == b.groups[..o] && gs'[o + 1..] == b.groups[o + 1..];
    }
  }

  lemma {:induction false} AllItemsEmpty(groups: seq<seq<Pattern>>)
    ensures AllItems(EmptyBuckets(groups).groups) == multiset{}
    decreases |groups|
  {
    if |groups| > 0 {
      var n := |groups| - 1;
      AllItemsEmpty(groups[..n]);
      assert EmptyBuckets(groups).groups[..n] == EmptyBuckets(groups[..n]).groups;
      EmptyFlatten(EmptyBuckets(groups).groups[n]);
    }
  }

  lemma {:induction false} EmptyFlatten(g: seq<seq<Item>>)
    requires forall i :: 0 <= i < |g| ==> g[i] == []
    ensures Flatten(g) == []
    decreases |g|
  {
    if |g| > 0 {
      EmptyFlatten(g[..|g| - 1]);
    }
  }

  lemma DistributeForm(items: seq<Item>, groups: seq<seq<Pattern>>, matcher: Matcher)
    requires |items| > 0
    ensures var n := |items| - 1;
      Distribute(items, groups, matcher) ==
        Place(Distribute(items[..n], groups, matcher), groups, BestSlot(groups, matcher, GroupKey(items[n])), items[n])
  {
  }

  lemma DistributeKeepsStep(items: seq<Item>, groups: seq<seq<Pattern>>, matcher: Matcher)
    requires |items| > 0
    requires Held(Distribute(items[..|items| - 1], groups, matcher)) == multiset(items[..|items| - 1])
    ensures Held(Distribute(items, groups, matcher)) == multiset(items)
  {
    var n := |items| - 1;
    DistributeForm(items, groups, matcher);
    PlaceKeepsItems(Distribute(items[..n], groups, matcher), groups, BestSlot(groups, matcher, GroupKey(items[n])), items[n]);
    MultisetSnoc(items);
  }

  /** No item is lost or duplicated by the distribution. */
  lemma {:induction false} DistributeKeepsItems(items: seq<Item>, groups: seq<seq<Pattern>>, matcher: Matcher)
    ensures var b := Distribute(items, groups, matcher);
      AllItems(b.groups) + multiset(b.rest) == multiset(items)
    decreases |items|
  {
    if |items| == 0 {
      AllItemsEmpty(groups);
    } else {
      DistributeKeepsItems(items[..|items| - 1], groups, matcher);
      DistributeKeepsStep(items, groups, matcher);
    }
  }

  // ---------------------------------------------------------------------
  // The returned groups
  // ---------------------------------------------------------------------

  predicate NonEmptyBucket(b: seq<Item>) { |b| > 0 }

  predicate NonEmptyGroup(g: seq<seq<Item>>) { |g| > 0 }

  /** `itemGroups.concat([[{ regex: /^/, items: rest }]])`. */
  function WithCatchAll(b: Buckets): seq<seq<seq<Item>>>
  {
    b.groups + [[b.rest]]
  }

  /** `.map(groups => groups.filter(group => group.items.length > 0))`. */
  function DropEmptyBuckets(gs: seq<seq<seq<Item>>>): (r: seq<seq<seq<Item>>>)
    ensures |r| == |gs|
    ensures forall o :: 0 <= o < |gs| ==> r[o] == Filter(gs[o], NonEmptyBucket)
  {
    if |gs| == 0 then []
    else DropEmptyBuckets(gs[..|gs| - 1]) + [Filter(gs[|gs| - 1], NonEmptyBucket)]
  }

  /** No outer group and no inner group is empty. */
  predicate Tidy(gs: seq<seq<seq<Item>>>)
  {
    forall o :: 0 <= o < |gs| ==> NonEmptyGroup(gs[o]) && forall i :: 0 <= i < |gs[o]| ==> NonEmptyBucket(gs[o][i])
  }

  /** Both filters of `makeSortedItems`: empty inner groups are dropped,
      then outer groups left empty are dropped. */
  function DropEmpty(gs: seq<seq<seq<Item>>>): (r: seq<seq<seq<Item>>>)
    ensures Tidy(r)
  {
    var inner := DropEmptyBuckets(gs);
    var r := Filter(inner, NonEmptyGroup);
    assert forall o :: 0 <= o < |r| ==> r[o] in multiset(inner);
    r
  }

  /** `group => sortImportExportItems(group.items, sortBy)` over one outer group. */
  function SortBuckets(g: seq<seq<Item>>, sortBy: Option<string>, collator: (string, string) -> int): (r: seq<seq<Item>>)
    ensures |r| == |g|
  {
    if |g| == 0 then []
    else SortBuckets(g[..|g| - 1], sortBy, collator) + [SortImportExportItems(g[|g| - 1], sortBy, collator)]
  }

  /** The final `.map` of `makeSortedItems` over all outer groups. */
  function SortGroups(gs: seq<seq<seq<Item>>>, sortBy: Option<string>, collator: (string, string) -> int): (r: seq<seq<seq<Item>>>)
    ensures |r| == |gs|
  {
    if |gs| == 0 then []
    else SortGroups(gs[..|gs| - 1], sortBy, collator) + [SortBuckets(gs[|gs| - 1], sortBy, collator)]
  }

  lemma {:induction false} SortBucketsAt(g: seq<seq<Item>>, sortBy: Option<string>, collator: (string, string) -> int, i: nat)
    requires i < |g|
    ensures SortBuckets(g, sortBy, collator)[i] == SortImportExportItems(g[i], sortBy, collator)
    decreases |g|
  {
    if i < |g| - 1 {
      SortBucketsAt(g[..|g| - 1], sortBy, collator, i);
    }
  }

  lemma {:induction false} SortGroupsAt(gs: seq<seq<seq<Item>>>, sortBy: Option<string>, collator: (string, string) -> int, o: nat)
    requires o < |gs|
    ensures SortGroups(gs, sortBy, collator)[o] == SortBuckets(gs[o], sortBy, collator)
    decreases |gs|
  {
    if o < |gs| - 1 {
      SortGroupsAt(gs[..|gs| - 1], sortBy, collator, o);
    }
  }

  lemma SortGroupsTidy(gs: seq<seq<seq<Item>>>, sortBy: Option<string>, collator: (string, string) -> int)
    requires Tidy(gs)
    ensures Tidy(SortGroups(gs, sortBy, collator))
  {
    var r := SortGroups(gs, sortBy, collator);
    forall o, i | 0 <= o < |r| && 0 <= i < |r[o]|
      ensures NonEmptyBucket(r[o][i])
    {
      SortGroupsAt(gs, sortBy, collator, o);
      SortBucketsAt(gs[o], sortBy, collator, i);
    }
  }

  /** `makeSortedItems(items, outerGroups)`, with the sort mode each rule
      passes to `sortImportExportItems`. No returned outer or inner group
      is empty. */
  function MakeSortedItems(items: seq<Item>, groups: seq<seq<Pattern>>, matcher: Matcher,
                           sortBy: Option<string>, collator: (string, string) -> int): (r: seq<seq<seq<Item>>>)
    ensures Tidy(r)
  {
    var kept := DropEmpty(WithCatchAll(Distribute(items, groups, matcher)));
    SortGroupsTidy(kept, sortBy, collator);
    SortGroups(kept, sortBy, collator)
  }

  lemma {:induction false} SortBucketsKeepsItems(g: seq<seq<Item>>, sortBy: Option<string>, collator: (string, string) -> int)
    ensures multiset(Flatten(SortBuckets(g, sortBy, collator))) == multiset(Flatten(g))
    decreases |g|
  {
    if |g| > 0 {
      SortBucketsKeepsItems(g[..|g| - 1], sortBy, collator);
    }
  }

  lemma {:induction false} SortGroupsKeepsItems(gs: seq<seq<seq<Item>>>, sortBy: Option<string>, collator: (string, string) -> int)
    ensures AllItems(SortGroups(gs, sortBy, collator)) == AllItems(gs)
    decreases |gs|
  {
    if |gs| > 0 {
      SortGroupsKeepsItems(gs[..|gs| - 1], sortBy, collator);
      SortBucketsKeepsItems(gs[|gs| - 1], sortBy, collator);
    }
  }

  lemma {:induction false} DropEmptyBucketKeepsItems(g: seq<seq<Item>>)
    ensures multiset(Flatten(Filter(g, NonEmptyBucket))) == multiset(Flatten(g))
    decreases |g|
  {
    if |g| > 0 {
      DropEmptyBucketKeepsItems(g[..|g| - 1]);
    }
  }

  lemma {:induction false} DropEmptyBucketsKeepsItems(gs: seq<seq<seq<Item>>>)
    ensures AllItems(DropEmptyBuckets(gs)) == AllItems(gs)
    decreases |gs|
  {
    if |gs| > 0 {
      DropEmptyBucketsKeepsItems(gs[..|gs| - 1]);
      DropEmptyBucketKeepsItems(gs[|gs| - 1]);
    }
  }

  lemma {:induction false} DropEmptyGroupsKeepsItems(gs: seq<seq<seq<Item>>>)
    ensures AllItems(Filter(gs, NonEmptyGroup)) == AllItems(gs)
    decreases |gs|
  {
    if |gs| > 0 {
      var n := |gs| - 1;
      DropEmptyGroupsKeepsItems(gs[..n]);
      var kept := Filter(gs[..n], NonEmptyGroup);
      if NonEmptyGroup(gs[n]) {
        assert (kept + [gs[n]])[..|kept|] == kept;
      }
    }
  }

  lemma DropEmptyKeepsItems(gs: seq<seq<seq<Item>>>)
    ensures AllItems(DropEmpty(gs)) == AllItems(gs)
  {
    DropEmptyBucketsKeepsItems(gs);
    DropEmptyGroupsKeepsItems(DropEmptyBuckets(gs));
  }

  /** Every input item appears in exactly one returned group: the
      returned groups hold the input items with their multiplicities. */
  lemma MakeSortedItemsPermutes(items: seq<Item>, groups: seq<seq<Pattern>>, matcher: Matcher,
                                sortBy: Option<string>, collator: (string, string) -> int)
    ensures AllItems(MakeSortedItems(items, groups, matcher, sortBy, collator)) == multiset(items)
  {
    var b := Distribute(items, groups, matcher);
    DistributeKeepsItems(items, groups, matcher);
    AllItemsAppend(b.groups, [[b.rest]]);
    assert [[b.rest]][..0] == [];
    assert Flatten([b.rest]) == b.rest by {
      assert [b.rest][..0] == [];
    }
    DropEmptyKeepsItems(WithCatchAll(b));
    SortGroupsKeepsItems(DropEmpty(WithCatchAll(b)), sortBy, collator);
  }

  // ---------------------------------------------------------------------
  // What each returned group holds
  // ---------------------------------------------------------------------

  /** All items of a bucket have the same best-matching pattern (or all
      match none). */
  predicate SameTarget(groups: seq<seq<Pattern>>, matcher: Matcher, b: seq<Item>)
  {
    forall x, y :: x in b && y in b ==>
      BestSlot(groups, matcher, GroupKey(x)) == BestSlot(groups, matcher, GroupKey(y))
  }

  predicate AllSameTarget(groups: seq<seq<Pattern>>, matcher: Matcher, gs: seq<seq<seq<Item>>>)
  {
    forall o, i :: 0 <= o < |gs| && 0 <= i < |gs[o]| ==> SameTarget(groups, matcher, gs[o][i])
  }

  lemma FilterSameTarget(items: seq<Item>, groups: seq<seq<Pattern>>, matcher: Matcher, t: Option<Slot>)
    ensures SameTarget(groups, matcher, Filter(items, GoesTo(groups, matcher, t)))
  {
    var f := Filter(items, GoesTo(groups, matcher, t));
    forall x | x in f
      ensures BestSlot(groups, matcher, GroupKey(x)) == t
    {
      var k :| 0 <= k < |f| && f[k] == x;
      assert GoesTo(groups, matcher, t)(f[k]);
    }
  }

  lemma CatchAllSameTarget(items: seq<Item>, groups: seq<seq<Pattern>>, matcher: Matcher)
    ensures AllSameTarget(groups, matcher, WithCatchAll(Distribute(items, groups, matcher)))
  {
    var b := Distribute(items, groups, matcher);
    var gs := WithCatchAll(b);
    forall o, i | 0 <= o < |gs| && 0 <= i < |gs[o]|
      ensures SameTarget(groups, matcher, gs[o][i])
    {
      if o < |b.groups| {
        assert gs[o][i] == b.groups[o][i];
        DistributeSelects(items, groups, matcher, Slot(o, i));
        FilterSameTarget(items, groups, matcher, Some(Slot(o, i)));
      } else {
        assert gs[o][i] == b.rest;
        DistributeRest(items, groups, matcher);
        FilterSameTarget(items, groups, matcher, None);
      }
    }
  }

  predicate BucketsSameTarget(groups: seq<seq<Pattern>>, matcher: Matcher, g: seq<seq<Item>>)
  {
    forall i :: 0 <= i < |g| ==> SameTarget(groups, matcher, g[i])
  }

  lemma FilterBucketsSameTarget(groups: seq<seq<Pattern>>, matcher: Matcher, g: seq<seq<Item>>)
    requires BucketsSameTarget(groups, matcher, g)
    ensures BucketsSameTarget(groups, matcher, Filter(g, NonEmptyBucket))
  {
    var f := Filter(g, NonEmptyBucket);
    forall i | 0 <= i < |f|
      ensures SameTarget(groups, matcher, f[i])
    {
      assert f[i] in multiset(g);
      var k :| 0 <= k < |g| && g[k] == f[i];
    }
  }

  lemma DropEmptyBucketsSameTarget(groups: seq<seq<Pattern>>, matcher: Matcher, gs: seq<seq<seq<Item>>>)
    requires forall o :: 0 <= o < |gs| ==> BucketsSameTarget(groups, matcher, gs[o])
    ensures forall o :: 0 <= o < |gs| ==> BucketsSameTarget(groups, matcher, DropEmptyBuckets(gs)[o])
  {
    forall o | 0 <= o < |gs|
      ensures BucketsSameTarget(groups, matcher, DropEmptyBuckets(gs)[o])
    {
      FilterBucketsSameTarget(groups, matcher, gs[o]);
    }
  }

  lemma DropEmptySameTarget(groups: seq<seq<Pattern>>, matcher: Matcher, gs: seq<seq<seq<Item>>>)
    requires AllSameTarget(groups, matcher, gs)
    ensures AllSameTarget(groups, matcher, DropEmpty(gs))
  {
    var inner := DropEmptyBuckets(gs);
    assert forall o :: 0 <= o < |gs| ==> BucketsSameTarget(groups, matcher, gs[o]);
    DropEmptyBucketsSameTarget(groups, matcher, gs);
    var r := DropEmpty(gs);
    forall o | 0 <= o < |r|
      ensures BucketsSameTarget(groups, matcher, r[o])
    {
      assert r[o] in multiset(inner);
      var k :| 0 <= k < |inner| && inner[k] == r[o];
    }
  }

  lemma SortGroupsSameTarget(groups: seq<seq<Pattern>>, matcher: Matcher, gs: seq<seq<seq<Item>>>,
                             sortBy: Option<string>, collator: (string, string) -> int)
    requires AllSameTarget(groups, matcher, gs)
    ensures AllSameTarget(groups, matcher, SortGroups(gs, sortBy, collator))
  {
    var r := SortGroups(gs, sortBy, collator);
    forall o, i | 0 <= o < |r| && 0 <= i < |r[o]|
      ensures SameTarget(groups, matcher, r[o][i])
    {
      SortGroupsAt(gs, sortBy, collator, o);
      SortBucketsAt(gs[o], sortBy, collator, i);
      assert multiset(r[o][i]) == multiset(gs[o][i]);
      forall x | x in r[o][i] ensures x in gs[o][i] {
        assert x in multiset(r[o][i]);
      }
    }
  }

  /** The items of one returned group all have the same best-matching
      pattern, or all match none. */
  lemma MakeSortedItemsGroupsShareTarget(items: seq<Item>, groups: seq<seq<Pattern>>, matcher: Matcher,
                                         sortBy: Option<string>, collator: (string, string) -> int)
    ensures AllSameTarget(groups, matcher, MakeSortedItems(items, groups, matcher, sortBy, collator))
  {
    var b := Distribute(items, groups, matcher);
    CatchAllSameTarget(items, groups, matcher);
    DropEmptySameTarget(groups, matcher, WithCatchAll(b));
    SortGroupsSameTarget(groups, matcher, DropEmpty(WithCatchAll(b)), sortBy, collator);
  }

  /** A non-empty catch-all survives both filters, last. */
  lemma DropEmptyKeepsLast(gs: seq<seq<seq<Item>>>, x: seq<Item>)
    requires |x| > 0
    ensures DropEmpty(gs + [[x]]) == DropEmpty(gs) + [[x]]
  {
    var all := gs + [[x]];
    assert all[..|gs|] == gs;
    assert Filter([x], NonEmptyBucket) == [x] by {
      assert [x][..0] == [];
    }
    var inner := DropEmptyBuckets(gs);
    assert DropEmptyBuckets(all) == inner + [[x]];
    assert (inner + [[x]])[..|inner|] == inner;
  }

  lemma SortGroupsLast(gs: seq<seq<seq<Item>>>, x: seq<Item>, sortBy: Option<string>, collator: (string, string) -> int)
    ensures var r := SortGroups(gs + [[x]], sortBy, collator);
      r[|r| - 1] == [SortImportExportItems(x, sortBy, collator)]
  {
    assert (gs + [[x]])[..|gs|] == gs;
    assert [x][..0] == [];
  }

  lemma CatchAllLast(gs: seq<seq<seq<Item>>>, rest: seq<Item>, sortBy: Option<string>, collator: (string, string) -> int)
    requires |rest| > 0
    ensures var r := SortGroups(DropEmpty(gs + [[rest]]), sortBy, collator);
      |r| > 0 && r[|r| - 1] == [SortImportExportItems(rest, sortBy, collator)]
  {
    DropEmptyKeepsLast(gs, rest);
    SortGroupsLast(DropEmpty(gs), rest, sortBy, collator);
  }

  lemma MakeSortedItemsForm(items: seq<Item>, groups: seq<seq<Pattern>>, matcher: Matcher,
                            sortBy: Option<string>, collator: (string, string) -> int)
    ensures var b := Distribute(items, groups, matcher);
      MakeSortedItems(items, groups, matcher, sortBy, collator) == SortGroups(DropEmpty(b.groups + [[b.rest]]), sortBy, collator)
  {
  }

  lemma RestNonEmpty(items: seq<Item>, groups: seq<seq<Pattern>>, matcher: Matcher, k: nat)
    requires k < |items| && BestSlot(groups, matcher, GroupKey(items[k])).None?
    ensures |Distribute(items, groups, matcher).rest| > 0
  {
    DistributeRest(items, groups, matcher);
    FilterKeeps(items, GoesTo(groups, matcher, None), k);
  }

  /** When some item matches no pattern, the last returned group is the
      catch-all: a single inner group holding exactly those items, sorted. */
  lemma MakeSortedItemsCatchAllLast(items: seq<Item>, groups: seq<seq<Pattern>>, matcher: Matcher,
                                    sortBy: Option<string>, collator: (string, string) -> int)
    requires exists k :: 0 <= k < |items| && BestSlot(groups, matcher, GroupKey(items[k])).None?
    ensures var r := MakeSortedItems(items, groups, matcher, sortBy, collator);
      var rest := Filter(items, GoesTo(groups, matcher, None));
      |r| > 0 && r[|r| - 1] == [SortImportExportItems(rest, sortBy, collator)]
  {
    var b := Distribute(items, groups, matcher);
    var k :| 0 <= k < |items| && BestSlot(groups, matcher, GroupKey(items[k])).None?;
    RestNonEmpty(items, groups, matcher, k);
    DistributeRest(items, groups, matcher);
    MakeSortedItemsForm(items, groups, matcher, sortBy, collator);
    CatchAllLast(b.groups, b.rest, sortBy, collator);
  }

  /** The order `sortImportExportItems` promises for one inner group:
      side-effect imports first, the rest by key (see
      `SortImportExportItemsOrdered`). */
  predicate InItemOrder(r: seq<Item>, sortBy: Option<string>, collator: (string, string) -> int)
  {
    forall i, j :: 0 <= i < j < |r| ==>
      && (r[j].isSideEffectImport ==> r[i].isSideEffectImport)
      && (!r[i].isSideEffectImport && !r[j].isSideEffectImport ==>
            if ByName(sortBy) then Compare(collator, r[i].code, r[j].code) <= 0
            else PathKeyNotAfter(collator, r[i], r[j]))
  }

  lemma SortedInItemOrder(items: seq<Item>, sortBy: Option<string>, collator: (string, string) -> int)
    requires Consistent(collator)
    ensures InItemOrder(SortImportExportItems(items, sortBy, collator), sortBy, collator)
  {
    SideEffectItemsFirst(items, sortBy, collator);
    SortImportExportItemsOrdered(items, sortBy, collator);
  }

  /** With a consistent collator every returned inner group is in sorted
      order. */
  lemma MakeSortedItemsOrdered(items: seq<Item>, groups: seq<seq<Pattern>>, matcher: Matcher,
                               sortBy: Option<string>, collator: (string, string) -> int)
    requires Consistent(collator)
    ensures var r := MakeSortedItems(items, groups, matcher, sortBy, collator);
      forall o, i :: 0 <= o < |r| && 0 <= i < |r[o]| ==> InItemOrder(r[o][i], sortBy, collator)
  {
    var b := Distribute(items, groups, matcher);
    var kept := DropEmpty(b.groups + [[b.rest]]);
    MakeSortedItemsForm(items, groups, matcher, sortBy, collator);
    var r := SortGroups(kept, sortBy, collator);
    forall o, i | 0 <= o < |r| && 0 <= i < |r[o]|
      ensures InItemOrder(r[o][i], sortBy, collator)
    {
      SortGroupsAt(kept, sortBy, collator, o);
      SortBucketsAt(kept[o], sortBy, collator, i);
      SortedInItemOrder(kept[o][i], sortBy, collator);
    }
  }
}
