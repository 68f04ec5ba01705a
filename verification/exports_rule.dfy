/** The parts of the `exports` rule (src/plugin/exports.js) the engine
    needs: the export-from test and chunk classifier with its
    grouping-comment rule, the fixed three-group classification, the
    specifier selection and the check of local `export { ... }` lists. */
module ExportsRule {
  import opened Wrappers
  import opened CommonUtils
  import opened AstNodeTypes
  import opened Collation
  import opened SourceFormat
  import opened Items
  import opened Chunks
  import opened Grouping
  import opened Specifiers
  import opened Reporting
  import opened WhiteSpace

  /** `isExportFrom(node)`: `export {a} from "A"`, `export * from "A"` or
      `export * as A from "A"`. */
  predicate IsExportFrom(node: Node)
  {
    (node.kind == "ExportNamedDeclaration" || node.kind == "ExportAllDeclaration") && node.source.Some?
  }

  /** A comment (its location) separating `node` from the previous
      statement: it starts below the previous statement's last line (or
      there is no previous statement) and ends above the statement. */
  predicate IsGroupingComment(c: Location, node: Node, lastNode: Option<Node>)
  {
    (lastNode.None? || c.startPos.line > lastNode.value.loc.endPos.line) && c.endPos.line < node.loc.startPos.line
  }

  predicate HasGroupingComment(node: Node, lastNode: Option<Node>, commentsBefore: seq<Location>)
  {
    exists i :: 0 <= i < |commentsBefore| && IsGroupingComment(commentsBefore[i], node, lastNode)
  }

  /** `isPartOfChunk(node, lastNode, sourceCode)`, with the comments before
      `node` given. */
  function IsPartOfChunk(node: Node, lastNode: Option<Node>, commentsBefore: seq<Location>): (r: ChunkSource)
    ensures r.NotPartOfChunk? <==> !IsExportFrom(node)
    ensures r.PartOfNewChunk? <==> IsExportFrom(node) && HasGroupingComment(node, lastNode, commentsBefore)
    ensures !r.Unrecognized?
  {
    if !IsExportFrom(node) then NotPartOfChunk
    else if HasGroupingComment(node, lastNode, commentsBefore) then PartOfNewChunk
    else PartOfChunk
  }

  /** The classifier the rule hands to `extractChunks`; `commentsBefore`
      stands for `sourceCode.getCommentsBefore`. */
  function ExportSource(commentsBefore: Node -> seq<Location>): (Node, Option<Node>) -> ChunkSource
  {
    (node, lastNode) => IsPartOfChunk(node, lastNode, commentsBefore(node))
  }

  /** Export chunks never fail and hold exactly the export-from
      statements, in order. */
  lemma ExportChunks(body: seq<Node>, commentsBefore: Node -> seq<Location>)
    ensures ExtractChunks(body, ExportSource(commentsBefore)).Success?
    ensures Flatten(ExtractChunks(body, ExportSource(commentsBefore)).value) == Filter(body, IsExportFrom)
  {
    var srcs := Sources(body, ExportSource(commentsBefore));
    RunFails(body, srcs);
    PartitionKeeps(body, srcs);
    KeptIsFilter(body, srcs, IsExportFrom);
  }

  /** An export-from preceded by a grouping comment starts a new chunk. */
  lemma GroupingCommentStartsChunk(body: seq<Node>, commentsBefore: Node -> seq<Location>, i: nat)
    requires i < |body| && IsExportFrom(body[i])
    requires HasGroupingComment(body[i], Previous(body, i), commentsBefore(body[i]))
    ensures Partition(Ids(|body|), Sources(body, ExportSource(commentsBefore))).Success?
    ensures var ids := Partition(Ids(|body|), Sources(body, ExportSource(commentsBefore))).value;
      exists c :: 0 <= c < |ids| && |ids[c]| > 0 && ids[c][0] == i
  {
    PartOfNewChunkIsFirst(body, ExportSource(commentsBefore), i);
  }

  // ---------------------------------------------------------------------
  // The fixed groups
  // ---------------------------------------------------------------------

  /** `[NOT_MATCHED, ...TYPES]`: `^`, then `^\.`, then `^.+\u0000$`. */
  const ExportGroups: seq<seq<Pattern>> := [["^"], ["^\\."], ["^.+\\u0000$"]]

  /** Characters `.` does not match in a regular expression without the
      `s` flag. */
  predicate IsLineTerminator(c: char)
  {
    c == '\n' || c == '\r' || c == '\U{2028}' || c == '\U{2029}'
  }

  /** `^.+\u0000$` matches: at least one character other than a line
      terminator, then a final NUL. */
  predicate IsTypeKey(key: string)
  {
    |key| >= 2 && key[|key| - 1] == '\0' && forall i :: 0 <= i < |key| - 1 ==> !IsLineTerminator(key[i])
  }

  /** `regex.exec(key)` for the three fixed patterns: `^` matches the empty
      prefix, `^\.` a leading dot, `^.+\u0000$` the whole key. Match
      lengths count characters; every match of the third pattern is at
      least 2 long in UTF-16 units too, so the winner is the same. */
  function ExportMatcher(pattern: Pattern, key: string): (r: Option<nat>)
    ensures pattern == "^" ==> r == Some(0)
  {
    if pattern == "^" then Some(0)
    else if pattern == "^\\." then (if |key| > 0 && key[0] == '.' then Some(1) else None)
    else if pattern == "^.+\\u0000$" then (if IsTypeKey(key) then Some(|key|) else None)
    else None
  }

  lemma ExportSlots()
    ensures Slots(ExportGroups) == [Slot(0, 0), Slot(1, 0), Slot(2, 0)]
  {
    var g := ExportGroups;
    assert g[..2][..1] == [["^"]] && g[..2] == [["^"], ["^\\."]] && g[..1] == [["^"]];
    assert [["^"]][..0] == [];
    assert Slots([]) == [];
    assert Row(0, 1) == [Slot(0, 0)];
    assert Row(1, 1) == [Slot(1, 0)];
    assert Row(2, 1) == [Slot(2, 0)];
  }

  /** The group an export item's key goes to: the third when the type
      pattern matches, else the second for a leading dot, else the first.
      None goes to the catch-all. */
  lemma ExportTarget(key: string)
    ensures BestSlot(ExportGroups, ExportMatcher, key) ==
      if IsTypeKey(key) then Some(Slot(2, 0))
      else if |key| > 0 && key[0] == '.' then Some(Slot(1, 0))
      else Some(Slot(0, 0))
  {
    ExportSlots();
    var ms := MatchLengths(ExportGroups, ExportMatcher, key);
    assert |ms| == 3;
    assert ms[0] == Some(0);
    assert ms[1] == ExportMatcher("^\\.", key);
    assert ms[2] == ExportMatcher("^.+\\u0000$", key);
    assert ms[..2][..1] == [ms[0]] && ms[..3] == ms;
    assert [ms[0]][..0] == ms[..0];
  }

  /** `^` matches every key, so nothing reaches the catch-all. */
  lemma ExportsRestEmpty(items: seq<Item>)
    ensures Distribute(items, ExportGroups, ExportMatcher).rest == []
  {
    DistributeRest(items, ExportGroups, ExportMatcher);
    var r := Filter(items, GoesTo(ExportGroups, ExportMatcher, None));
    if |r| > 0 {
      assert r[0] in multiset(items);
      ExportTarget(GroupKey(r[0]));
    }
  }

  /** `isSideEffectImport` of the rule: never. */
  predicate IsSideEffectExport(node: Node) { false }

  /** An export item's key is never `\0`-prefixed: it is the source, with
      a final `\0` for a non-value kind. */
  lemma ExportKey(node: Node, it: Item)
    requires it.isSideEffectImport == IsSideEffectExport(node)
    ensures GroupKey(it) == if it.source.kind != "value" then it.source.originalSource + "\0" else it.source.originalSource
  {
  }

  /** A non-value export (`export type {...} from`) whose source has no
      line break lands in the third group. */
  lemma TypeExportsLast(node: Node, it: Item)
    requires it.isSideEffectImport == IsSideEffectExport(node)
    requires it.source.kind != "value" && |it.source.originalSource| > 0
    requires forall i :: 0 <= i < |it.source.originalSource| ==> !IsLineTerminator(it.source.originalSource[i])
    ensures BestSlot(ExportGroups, ExportMatcher, GroupKey(it)) == Some(Slot(2, 0))
  {
    var key := GroupKey(it);
    assert key == it.source.originalSource + "\0";
    ExportTarget(key);
  }

  /** A value export from a relative (`.`-prefixed) source lands in the
      second group, unless its source itself ends in a NUL. */
  lemma RelativeExportsMiddle(node: Node, it: Item)
    requires it.isSideEffectImport == IsSideEffectExport(node)
    requires it.source.kind == "value" && |it.source.originalSource| > 0 && it.source.originalSource[0] == '.'
    requires it.source.originalSource[|it.source.originalSource| - 1] != '\0'
    ensures BestSlot(ExportGroups, ExportMatcher, GroupKey(it)) == Some(Slot(1, 0))
  {
    ExportTarget(GroupKey(it));
  }

  /** Any other value export lands in the first group. */
  lemma OtherExportsFirst(node: Node, it: Item)
    requires it.isSideEffectImport == IsSideEffectExport(node)
    requires it.source.kind == "value"
    requires |it.source.originalSource| == 0 || it.source.originalSource[0] != '.'
    requires |it.source.originalSource| == 0 || it.source.originalSource[|it.source.originalSource| - 1] != '\0'
    ensures BestSlot(ExportGroups, ExportMatcher, GroupKey(it)) == Some(Slot(0, 0))
  {
    ExportTarget(GroupKey(it));
  }

  /** `makeSortedItems(items)` of the rule: the fixed groups, and
      `sortImportExportItems(group.items, 'import')`, which sorts by path. */
  function MakeSortedExports(items: seq<Item>, collator: (string, string) -> int): (r: seq<seq<seq<Item>>>)
    ensures Tidy(r)
  {
    MakeSortedItems(items, ExportGroups, ExportMatcher, Some("import"), collator)
  }

  /** The sort mode `'import'` is path mode: with a consistent collator
      every returned group is ordered by formatted source, original
      source, kind and position. */
  lemma ExportsSortedByPath(items: seq<Item>, collator: (string, string) -> int)
    requires Consistent(collator)
    ensures var r := MakeSortedExports(items, collator);
      forall o, i :: 0 <= o < |r| && 0 <= i < |r[o]| ==> InItemOrder(r[o][i], Some("import"), collator)
    ensures !ByName(Some("import"))
  {
    MakeSortedItemsOrdered(items, ExportGroups, ExportMatcher, Some("import"), collator);
  }

  // ---------------------------------------------------------------------
  // Specifiers and local export lists
  // ---------------------------------------------------------------------

  /** `getSpecifiers(exportNode)`: `exportNode.specifiers || []`. */
  function GetSpecifiers(node: Node): (r: seq<string>)
    ensures node.specifiers.None? ==> r == []
    ensures node.specifiers.Some? ==> r == node.specifiers.value
  {
    if node.specifiers.Some? then node.specifiers.value else []
  }

  /** What the `ExportNamedDeclaration` handler does with one node. */
  datatype LocalCheck =
    | NotChecked                         // not a local export list
    | UndefinedFix(start: nat, end: nat) // reported over `[start, end)`; the fix text is `undefined`
    | Checked(report: Option<Report>)    // `maybeReportSorting` on the node's range

  /** A local `export { ... }`: no source and no declaration. */
  predicate IsLocalExportList(node: Node)
  {
    node.kind == "ExportNamedDeclaration" && node.source.None? && !node.hasDeclaration
  }

  /** The list has a `{`, a `}` and at least two specifiers: the case the
      renderer leaves without a return value. */
  predicate IsBracedList(node: Node, allTokens: seq<Token>)
  {
    && (exists i :: 0 <= i < |allTokens| && IsOpenBrace(allTokens[i]))
    && (exists i :: 0 <= i < |allTokens| && IsCloseBrace(allTokens[i]))
    && |GetSpecifiers(node)| >= 2
  }

  /** The handler: a local export list is rendered from its tokens and
      checked over exactly its own range. The renderer is the
      `printWithSortedSpecifiers` of src/utils/utils-clone.ts, standing in
      for that of src/plugin/utils.js, which the rule loads and which is
      not part of this model. When that renderer returns nothing,
      `maybeReportSorting` compares the slice with `undefined`, which never
      equals a string, so the node is reported with an `undefined` fix
      whatever its text. */
  function CheckLocalExport(node: Node, text: string, allTokens: seq<Token>): (r: LocalCheck)
    ensures r.NotChecked? <==> !IsLocalExportList(node)
    ensures r.UndefinedFix? <==> IsLocalExportList(node) && IsBracedList(node, allTokens)
    ensures r.UndefinedFix? ==> r.start == node.loc.start && r.end == node.loc.end
    ensures r.Checked? && r.report.Some? ==>
      r.report.value.start == node.loc.start && r.report.value.end == node.loc.end
  {
    if IsLocalExportList(node) then
      match PrintWithSortedSpecifiers(allTokens, |GetSpecifiers(node)|)
      case None => UndefinedFix(node.loc.start, node.loc.end)
      case Some(sorted) => Checked(MaybeReportSorting(text, sorted, node.loc.start, node.loc.end))
    else NotChecked
  }

  /** With the src/utils/utils-clone.ts renderer as written, every braced
      local list with two or more specifiers would be reported, over the
      node's range, for every source text: an already sorted list
      included. */
  lemma BracedListAlwaysReported(node: Node, text: string, text2: string, allTokens: seq<Token>)
    requires IsLocalExportList(node) && IsBracedList(node, allTokens)
    ensures CheckLocalExport(node, text, allTokens) == UndefinedFix(node.loc.start, node.loc.end)
    ensures CheckLocalExport(node, text, allTokens) == CheckLocalExport(node, text2, allTokens)
  {
  }

  /** The handler as evidently intended: a braced list is rendered with
      its specifiers sorted (`sortedList`, which the model takes as given,
      since the source does not compute it yet), every other list as its
      own tokens, and the node is reported exactly when its text differs
      from the rendering. */
  function CheckLocalExportIntended(node: Node, text: string, allTokens: seq<Token>, sortedList: string): (r: LocalCheck)
    ensures r.NotChecked? <==> !IsLocalExportList(node)
    ensures !r.UndefinedFix?
    ensures r.Checked? && IsBracedList(node, allTokens) ==>
      && (r.report.None? <==> Slice(text, node.loc.start, node.loc.end) == sortedList)
      && (r.report.Some? ==> r.report.value == Report(node.loc.start, node.loc.end, sortedList))
    ensures !IsBracedList(node, allTokens) ==> r == CheckLocalExport(node, text, allTokens)
  {
    if IsLocalExportList(node) then
      var rendered := match PrintWithSortedSpecifiers(allTokens, |GetSpecifiers(node)|)
        case None => sortedList
        case Some(printed) => printed;
      Checked(MaybeReportSorting(text, rendered, node.loc.start, node.loc.end))
    else NotChecked
  }

  /** `export { a, b };` on its own: already sorted, yet reported by the
      handler with the src/utils/utils-clone.ts renderer as written; the
      intended handler leaves it alone. */
  lemma SortedListCounterexample()
    ensures var text := "export { a, b };";
      var open_ := Token("Punctuator", "{", Some("{"), None);
      var close_ := Token("Punctuator", "}", Some("}"), None);
      var node := Node("ExportNamedDeclaration", None, false, Some(["ExportSpecifier", "ExportSpecifier"]),
                       None, None, Location(0, 16, Position(1, 0), Position(1, 16)));
      && CheckLocalExport(node, text, [open_, close_]) == UndefinedFix(0, 16)
      && CheckLocalExportIntended(node, text, [open_, close_], text) == Checked(None)
  {
    var text := "export { a, b };";
    var open_ := Token("Punctuator", "{", Some("{"), None);
    var close_ := Token("Punctuator", "}", Some("}"), None);
    var node := Node("ExportNamedDeclaration", None, false, Some(["ExportSpecifier", "ExportSpecifier"]),
                     None, None, Location(0, 16, Position(1, 0), Position(1, 16)));
    assert IsOpenBrace([open_, close_][0]) && IsCloseBrace([open_, close_][1]);
    assert Slice(text, 0, 16) == text;
  }

  /** A local export list without braces, or with at most one specifier,
      is rendered as its own tokens; it is reported exactly when its text
      differs from them, and then the fix puts the tokens' text there. */
  lemma LocalExportKeptAsIs(node: Node, text: string, allTokens: seq<Token>)
    requires IsLocalExportList(node)
    requires |GetSpecifiers(node)| <= 1
    ensures var printed := Concat(seq(|allTokens|, i requires 0 <= i < |allTokens| => allTokens[i].code));
      var r := CheckLocalExport(node, text, allTokens);
      && r.Checked?
      && (r.report.None? <==> Slice(text, node.loc.start, node.loc.end) == printed)
      && (r.report.Some? ==> r.report.value.replacement == printed)
  {
  }
}
