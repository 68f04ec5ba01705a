/** Import/export items and their ordering (`Item` and
    `sortImportExportItems` of src/utils/utils-clone.ts). */
module Items {
  import opened Wrappers
  import opened Collation
  import opened Sorting
  import opened SourceFormat

  /** One import/export statement to be placed: its printed `code`, its
      position `index` in the chunk, whether it is a side-effect import,
      and its sort keys. */
  datatype Item = Item(code: string, index: nat, isSideEffectImport: bool, source: ItemSource)

  /** JavaScript `x || y` on numbers: the first one that is not 0. */
  function Or(x: int, y: int): int
  {
    if x != 0 then x else y
  }

  /** Only the option value `'name'` selects sorting by printed code; the
      callers pass nothing (imports) or `'import'` (exports), which both
      sort by path. */
  predicate ByName(sortBy: Option<string>) { sortBy == Some("name") }

  /** The path comparison: formatted source, then original source, then
      kind, then original position. */
  function PathCompare(collator: (string, string) -> int, a: Item, b: Item): int
  {
    Or(Compare(collator, a.source.source, b.source.source),
      Or(Compare(collator, a.source.originalSource, b.source.originalSource),
        Or(Compare(collator, a.source.kind, b.source.kind),
          a.index - b.index)))
  }

  /** The comparator handed to `sort`: side-effect imports first and among
      themselves by position; the rest by code or by path. */
  function ItemCompare(collator: (string, string) -> int, sortBy: Option<string>, a: Item, b: Item): int
  {
    if a.isSideEffectImport && b.isSideEffectImport then a.index - b.index
    else if a.isSideEffectImport then -1
    else if b.isSideEffectImport then 1
    else if ByName(sortBy) then Compare(collator, a.code, b.code)
    else PathCompare(collator, a, b)
  }

  function ItemOrder(collator: (string, string) -> int, sortBy: Option<string>): (Item, Item) -> int
  {
    (a, b) => ItemCompare(collator, sortBy, a, b)
  }

  /** `sortImportExportItems(items, sortBy)`: a sorted copy; no item is
      lost, duplicated or invented. */
  function SortImportExportItems(items: seq<Item>, sortBy: Option<string>, collator: (string, string) -> int): (r: seq<Item>)
    ensures |r| == |items|
    ensures multiset(r) == multiset(items)
  {
    InsertionSort(items, ItemOrder(collator, sortBy))
  }

  // ---------------------------------------------------------------------
  // Side-effect imports
  // ---------------------------------------------------------------------

  function SideEffectRank(it: Item): int
  {
    if it.isSideEffectImport then 0 else 1
  }

  /** Side-effect imports come before every other item, whatever the
      collator does. */
  lemma SideEffectItemsFirst(items: seq<Item>, sortBy: Option<string>, collator: (string, string) -> int)
    ensures var r := SortImportExportItems(items, sortBy, collator);
      forall i, j :: 0 <= i < j < |r| && r[j].isSideEffectImport ==> r[i].isSideEffectImport
  {
    var r := SortImportExportItems(items, sortBy, collator);
    InsertionSortRankSorted(items, ItemOrder(collator, sortBy), SideEffectRank);
    assert forall i, j :: 0 <= i < j < |r| ==> SideEffectRank(r[i]) <= SideEffectRank(r[j]);
  }

  function MaxIndex(items: seq<Item>): (m: nat)
    ensures forall i :: 0 <= i < |items| ==> items[i].index <= m
  {
    if |items| == 0 then 0
    else
      var m := MaxIndex(items[..|items| - 1]);
      var last := items[|items| - 1].index;
      assert forall i :: 0 <= i < |items| - 1 ==> items[i] == items[..|items| - 1][i];
      if last > m then last else m
  }

  lemma IndexRankRespected(items: seq<Item>, sortBy: Option<string>, collator: (string, string) -> int)
    ensures var top := MaxIndex(items) + 1;
      RespectsRank(items, ItemOrder(collator, sortBy), (it: Item) => if it.isSideEffectImport then it.index else top)
  {
  }

  /** Side-effect imports keep their original relative order. */
  lemma SideEffectItemsByIndex(items: seq<Item>, sortBy: Option<string>, collator: (string, string) -> int)
    ensures var r := SortImportExportItems(items, sortBy, collator);
      forall i, j :: 0 <= i < j < |r| && r[i].isSideEffectImport && r[j].isSideEffectImport ==>
        r[i].index <= r[j].index
  {
    var r := SortImportExportItems(items, sortBy, collator);
    var top := MaxIndex(items) + 1;
    var rank := (it: Item) => if it.isSideEffectImport then it.index else top;
    IndexRankRespected(items, sortBy, collator);
    InsertionSortRankSorted(items, ItemOrder(collator, sortBy), rank);
    assert forall i, j :: 0 <= i < j < |r| ==> rank(r[i]) <= rank(r[j]);
  }

  // ---------------------------------------------------------------------
  // The comparator is consistent when the collator is
  // ---------------------------------------------------------------------

  lemma OrAntisymmetric(x1: int, y1: int, x2: int, y2: int)
    requires Sign(x1) == -Sign(x2) && Sign(y1) == -Sign(y2)
    ensures Sign(Or(x1, y1)) == -Sign(Or(x2, y2))
  {
  }

  /** One link of a `||` chain on string keys: if `x` is not after `y`
      and `y` not after `z` in the chain, `x` is not after `z`, given that
      the rest of the chain is transitive where all three keys agree. */
  lemma OrChainTransitive(collator: (string, string) -> int, x: string, y: string, z: string,
                          restXY: int, restYZ: int, restXZ: int)
    requires Consistent(collator)
    requires Or(Compare(collator, x, y), restXY) <= 0 && Or(Compare(collator, y, z), restYZ) <= 0
    requires x == y && y == z && restXY <= 0 && restYZ <= 0 ==> restXZ <= 0
    ensures Or(Compare(collator, x, z), restXZ) <= 0
  {
    CompareReflexive(collator, x);
    CompareReflexive(collator, y);
    if Compare(collator, x, y) < 0 && Compare(collator, y, z) < 0 {
      CompareTransitive(collator, x, y, z);
      if x == z {
        CompareAntisymmetric(collator, x, y);
      }
    }
  }

  lemma PathCompareTransitive(collator: (string, string) -> int, a: Item, b: Item, c: Item)
    requires Consistent(collator)
    requires PathCompare(collator, a, b) <= 0 && PathCompare(collator, b, c) <= 0
    ensures PathCompare(collator, a, c) <= 0
  {
    var kAB := Or(Compare(collator, a.source.kind, b.source.kind), a.index - b.index);
    var kBC := Or(Compare(collator, b.source.kind, c.source.kind), b.index - c.index);
    var kAC := Or(Compare(collator, a.source.kind, c.source.kind), a.index - c.index);
    var oAB := Or(Compare(collator, a.source.originalSource, b.source.originalSource), kAB);
    var oBC := Or(Compare(collator, b.source.originalSource, c.source.originalSource), kBC);
    var oAC := Or(Compare(collator, a.source.originalSource, c.source.originalSource), kAC);
    if a.source.source == b.source.source && b.source.source == c.source.source && oAB <= 0 && oBC <= 0 {
      if a.source.originalSource == b.source.originalSource && b.source.originalSource == c.source.originalSource
        && kAB <= 0 && kBC <= 0 {
        OrChainTransitive(collator, a.source.kind, b.source.kind, c.source.kind,
          a.index - b.index, b.index - c.index, a.index - c.index);
      }
      OrChainTransitive(collator, a.source.originalSource, b.source.originalSource, c.source.originalSource,
        kAB, kBC, kAC);
    }
    OrChainTransitive(collator, a.source.source, b.source.source, c.source.source, oAB, oBC, oAC);
  }

  lemma ItemCompareAntisymmetric(collator: (string, string) -> int, sortBy: Option<string>, a: Item, b: Item)
    requires Consistent(collator)
    ensures Sign(ItemCompare(collator, sortBy, a, b)) == -Sign(ItemCompare(collator, sortBy, b, a))
  {
    if !a.isSideEffectImport && !b.isSideEffectImport {
      if ByName(sortBy) {
        CompareAntisymmetric(collator, a.code, b.code);
      } else {
        CompareAntisymmetric(collator, a.source.kind, b.source.kind);
        OrAntisymmetric(Compare(collator, a.source.kind, b.source.kind), a.index - b.index,
          Compare(collator, b.source.kind, a.source.kind), b.index - a.index);
        CompareAntisymmetric(collator, a.source.originalSource, b.source.originalSource);
        OrAntisymmetric(Compare(collator, a.source.originalSource, b.source.originalSource),
          Or(Compare(collator, a.source.kind, b.source.kind), a.index - b.index),
          Compare(collator, b.source.originalSource, a.source.originalSource),
          Or(Compare(collator, b.source.kind, a.source.kind), b.index - a.index));
        CompareAntisymmetric(collator, a.source.source, b.source.source);
      }
    }
  }

  lemma ItemCompareTransitive(collator: (string, string) -> int, sortBy: Option<string>, a: Item, b: Item, c: Item)
    requires Consistent(collator)
    requires ItemCompare(collator, sortBy, a, b) <= 0 && ItemCompare(collator, sortBy, b, c) <= 0
    ensures ItemCompare(collator, sortBy, a, c) <= 0
  {
    if !a.isSideEffectImport && !b.isSideEffectImport && !c.isSideEffectImport {
      if ByName(sortBy) {
        CompareTransitive(collator, a.code, b.code, c.code);
      } else {
        PathCompareTransitive(collator, a, b, c);
      }
    }
  }

  lemma ItemOrderConsistent(collator: (string, string) -> int, sortBy: Option<string>)
    requires Consistent(collator)
    ensures Antisymmetric(ItemOrder(collator, sortBy))
    ensures Transitive(ItemOrder(collator, sortBy))
  {
    var cmp := ItemOrder(collator, sortBy);
    forall a, b
      ensures Sign(cmp(a, b)) == -Sign(cmp(b, a))
    {
      ItemCompareAntisymmetric(collator, sortBy, a, b);
    }
    forall a, b, c | cmp(a, b) <= 0 && cmp(b, c) <= 0
      ensures cmp(a, c) <= 0
    {
      ItemCompareTransitive(collator, sortBy, a, b, c);
    }
  }

  // ---------------------------------------------------------------------
  // The resulting order
  // ---------------------------------------------------------------------

  /** The intended path order, key by key: a differing formatted source
      decides, else a differing original source, else a differing kind,
      else the original position. */
  predicate PathKeyNotAfter(collator: (string, string) -> int, a: Item, b: Item)
  {
    if a.source.source != b.source.source then Compare(collator, a.source.source, b.source.source) < 0
    else if a.source.originalSource != b.source.originalSource then
      Compare(collator, a.source.originalSource, b.source.originalSource) < 0
    else if a.source.kind != b.source.kind then Compare(collator, a.source.kind, b.source.kind) < 0
    else a.index <= b.index
  }

  lemma PathCompareMeansKeyOrder(collator: (string, string) -> int, a: Item, b: Item)
    requires Consistent(collator)
    ensures PathCompare(collator, a, b) <= 0 <==> PathKeyNotAfter(collator, a, b)
  {
    CompareReflexive(collator, a.source.source);
    CompareReflexive(collator, a.source.originalSource);
    CompareReflexive(collator, a.source.kind);
  }

  /** With a consistent collator, the sorted items are in order: in path
      mode by formatted source, original source, kind and position; in
      name mode by printed code. Items with equal keys keep their
      original order. */
  lemma SortImportExportItemsOrdered(items: seq<Item>, sortBy: Option<string>, collator: (string, string) -> int)
    requires Consistent(collator)
    ensures var r := SortImportExportItems(items, sortBy, collator);
      forall i, j :: 0 <= i < j < |r| && !r[i].isSideEffectImport && !r[j].isSideEffectImport ==>
        if ByName(sortBy) then Compare(collator, r[i].code, r[j].code) <= 0
        else PathKeyNotAfter(collator, r[i], r[j])
  {
    var r := SortImportExportItems(items, sortBy, collator);
    ItemOrderConsistent(collator, sortBy);
    InsertionSortSorted(items, ItemOrder(collator, sortBy));
    forall i, j | 0 <= i < j < |r| && !r[i].isSideEffectImport && !r[j].isSideEffectImport
      ensures if ByName(sortBy) then Compare(collator, r[i].code, r[j].code) <= 0
        else PathKeyNotAfter(collator, r[i], r[j])
    {
      assert ItemOrder(collator, sortBy)(r[i], r[j]) <= 0;
      if !ByName(sortBy) {
        PathCompareMeansKeyOrder(collator, r[i], r[j]);
      }
    }
  }

  /** In path mode the comparator ties two items only when they share an
      original position: every key before the position is compared with
      `compare`, which is 0 only for identical strings. */
  lemma PathModeTieMeansSameIndex(collator: (string, string) -> int, sortBy: Option<string>, a: Item, b: Item)
    requires !ByName(sortBy)
    ensures ItemCompare(collator, sortBy, a, b) == 0 ==> a.index == b.index
  {
  }
}
