/** Per-statement preparation of a chunk (src/utils/getModules.ts and its
    counterpart `getImportExportItems` in src/utils/utils-clone.ts): the
    trailing-semicolon fix-up, the line after which a statement's own
    comments start, and the comment-ownership filter. */
module GetModules {
  import opened Wrappers
  import opened CommonUtils
  import opened AstNodeTypes
  import opened SourceFormat
  import opened Items

  /** A real token (not a whitespace pseudo-token) carries a location. */
  predicate Located(t: Token) { t.loc.Some? }

  /** `handleLastSemicolon(chunk, sourceCode)`, given the last two tokens
      of the chunk's last statement and the token after the last one (if
      any). A `;` on a line of its own after the statement, with more code
      after it, is cut off the statement: its range and `loc` then end at
      the token before the `;`. */
  function HandleLastSemicolon(chunk: seq<Node>, nextToLast: Token, last: Token, tokenAfter: Option<Token>): (r: seq<Node>)
    requires |chunk| > 0 && Located(nextToLast) && Located(last)
    ensures |r| == |chunk| && r[..|chunk| - 1] == chunk[..|chunk| - 1]
    ensures !IsPunctuator(last, ";") ==> r == chunk
    ensures nextToLast.loc.value.endPos.line == last.loc.value.startPos.line ==> r == chunk
    ensures tokenAfter.None? ==> r == chunk
    ensures (IsPunctuator(last, ";") && nextToLast.loc.value.endPos.line != last.loc.value.startPos.line
             && tokenAfter.Some?) ==>
        r[|chunk| - 1] == chunk[|chunk| - 1].(loc := Location(chunk[|chunk| - 1].loc.start, nextToLast.loc.value.end,
                                                              chunk[|chunk| - 1].loc.startPos, nextToLast.loc.value.endPos))
    ensures r != chunk ==>
      var old_ := chunk[|chunk| - 1];
      var new_ := r[|chunk| - 1];
      && new_.loc.start == old_.loc.start && new_.loc.startPos == old_.loc.startPos
      && new_.loc.end == nextToLast.loc.value.end && new_.loc.endPos == nextToLast.loc.value.endPos
      && new_ == old_.(loc := new_.loc)
  {
    var n := |chunk| - 1;
    var lastNode := chunk[n];
    if !IsPunctuator(last, ";") then chunk
    else
      var belongs := nextToLast.loc.value.endPos.line == last.loc.value.startPos.line || tokenAfter.None?;
      if belongs then chunk
      else
        var loc := Location(lastNode.loc.start, nextToLast.loc.value.end, lastNode.loc.startPos, nextToLast.loc.value.endPos);
        chunk[..n] + [lastNode.(loc := loc)]
  }

  /** When the fix-up applies, it changes exactly the last statement's end,
      and only if that end was not already the next-to-last token's. */
  lemma HandleLastSemicolonChanges(chunk: seq<Node>, nextToLast: Token, last: Token, tokenAfter: Option<Token>)
    requires |chunk| > 0 && Located(nextToLast) && Located(last)
    requires IsPunctuator(last, ";") && tokenAfter.Some?
    requires nextToLast.loc.value.endPos.line != last.loc.value.startPos.line
    ensures var r := HandleLastSemicolon(chunk, nextToLast, last, tokenAfter);
      var l := chunk[|chunk| - 1].loc;
      r == chunk <==> l.end == nextToLast.loc.value.end && l.endPos == nextToLast.loc.value.endPos
  {
    var n := |chunk| - 1;
    var r := HandleLastSemicolon(chunk, nextToLast, last, tokenAfter);
    if r == chunk {
      assert r[n] == chunk[n];
    } else {
      assert chunk == chunk[..n] + [chunk[n]];
    }
  }

  // ---------------------------------------------------------------------
  // The line before a statement's own comments
  // ---------------------------------------------------------------------

  /** `lastLine` of `getImportExportItems`: the line above the first
      statement, else the end line of the previous statement. */
  function LastLine(chunk: seq<Node>, index: nat): int
    requires index < |chunk|
  {
    if index == 0 then chunk[0].loc.startPos.line - 1 else chunk[index - 1].loc.endPos.line
  }

  /** `lastModule` of `getModules` as written: `line || 0 - 1` parses as
      `line || (0 - 1)`, so a first statement on line `n >= 1` gets `n`,
      not `n - 1`. */
  function LastModuleAsWritten(chunk: seq<Node>, index: nat): int
    requires index < |chunk|
  {
    if index == 0 then (var line := chunk[0].loc.startPos.line; if line != 0 then line else 0 - 1)
    else chunk[index - 1].loc.endPos.line
  }

  // ---------------------------------------------------------------------
  // Comment ownership
  // ---------------------------------------------------------------------

  /** A comment `before` a statement is its own: it starts no later than
      the statement, ends after `lastModule`, and for the first statement
      also starts after `lastModule`. */
  predicate OwnsBefore(node: Node, index: nat, lastModule: int, c: Location)
  {
    && c.startPos.line <= node.loc.startPos.line
    && c.endPos.line > lastModule
    && (index > 0 || c.startPos.line > lastModule)
  }

  /** A comment after a statement is its own when it ends on the
      statement's end line. */
  predicate OwnsAfter(node: Node, c: Location)
  {
    c.endPos.line == node.loc.endPos.line
  }

  function BeforeFilter(node: Node, index: nat, lastModule: int): Location -> bool
  {
    c => OwnsBefore(node, index, lastModule, c)
  }

  function AfterFilter(node: Node): Location -> bool
  {
    c => OwnsAfter(node, c)
  }

  /** `useGetRelevantComments(node, sourceCode, index, lastModule)`, with the
      comments before and after the statement (their locations) given. A
      comment before the statement is kept exactly when it starts no later
      than the statement, ends after `lastModule` and, for the first
      statement, also starts after `lastModule`; a comment after it exactly
      when it ends on the statement's end line. Each result is drawn from
      its input list. */
  function UseGetRelevantComments(node: Node, before: seq<Location>, after: seq<Location>, index: nat, lastModule: int): (r: (seq<Location>, seq<Location>))
    ensures forall c :: c in r.0 <==>
      c in before && c.startPos.line <= node.loc.startPos.line && c.endPos.line > lastModule
        && (index > 0 || c.startPos.line > lastModule)
    ensures forall c :: c in r.1 <==> c in after && c.endPos.line == node.loc.endPos.line
    ensures multiset(r.0) <= multiset(before) && multiset(r.1) <= multiset(after)
  {
    FilterIffAcceptedAll(before, BeforeFilter(node, index, lastModule));
    FilterIffAcceptedAll(after, AfterFilter(node));
    (Filter(before, BeforeFilter(node, index, lastModule)), Filter(after, AfterFilter(node)))
  }

  /** For the first statement, with `lastLine` as in `getImportExportItems`,
      exactly the comments that start on the statement's own line are kept
      (a comment never ends before it starts). */
  lemma FirstStatementKeepsSameLineComments(chunk: seq<Node>, before: seq<Location>, c: Location)
    requires |chunk| > 0
    requires c.startPos.line <= c.endPos.line
    ensures c in UseGetRelevantComments(chunk[0], before, [], 0, LastLine(chunk, 0)).0 <==>
      c in before && c.startPos.line == chunk[0].loc.startPos.line
  {
  }

  /** For a later statement, a comment that ends on the previous
      statement's end line belongs to the previous statement and is not
      kept; a comment on the statement's own start line is. */
  lemma LaterStatementComments(chunk: seq<Node>, index: nat, before: seq<Location>, c: Location)
    requires 0 < index < |chunk| && c in before
    ensures c.endPos.line <= chunk[index - 1].loc.endPos.line ==>
      c !in UseGetRelevantComments(chunk[index], before, [], index, LastLine(chunk, index)).0
    ensures c.endPos.line > chunk[index - 1].loc.endPos.line && c.startPos.line <= chunk[index].loc.startPos.line ==>
      c in UseGetRelevantComments(chunk[index], before, [], index, LastLine(chunk, index)).0
  {
  }

  /** As written, `getModules` computes for the first statement a
      `lastModule` equal to its own start line. It does not yet pass that
      value on; were it passed to `useGetRelevantComments`, the filter
      would keep none of the comments before the statement. */
  lemma AsWrittenDropsFirstComments(chunk: seq<Node>, before: seq<Location>)
    requires |chunk| > 0 && chunk[0].loc.startPos.line >= 1
    ensures UseGetRelevantComments(chunk[0], before, [], 0, LastModuleAsWritten(chunk, 0)).0 == []
  {
  }

  /** A concrete case: `/* a */ import "x"` on line 1. The comment is the
      statement's own under `getImportExportItems`, and would be dropped
      under the `lastModule` that `getModules` computes, once that value
      reaches the filter. */
  lemma AsWrittenCounterexample()
    ensures var pos := Position(1, 0);
      var node := Node("ImportDeclaration", Some(Literal("x", Location(15, 18, Position(1, 15), Position(1, 18)))),
                       false, Some([]), None, None, Location(8, 18, Position(1, 8), Position(1, 18)));
      var comment := Location(0, 7, pos, Position(1, 7));
      && UseGetRelevantComments(node, [comment], [], 0, LastLine([node], 0)).0 == [comment]
      && UseGetRelevantComments(node, [comment], [], 0, LastModuleAsWritten([node], 0)).0 == []
  {
    var node := Node("ImportDeclaration", Some(Literal("x", Location(15, 18, Position(1, 15), Position(1, 18)))),
                     false, Some([]), None, None, Location(8, 18, Position(1, 8), Position(1, 18)));
    var comment := Location(0, 7, Position(1, 0), Position(1, 7));
    assert [comment][..0] == [];
    AsWrittenDropsFirstComments([node], [comment]);
  }

  // ---------------------------------------------------------------------
  // Items
  // ---------------------------------------------------------------------

  /** The sort-relevant fields of the items `getImportExportItems` builds:
      each statement's rendered code (given), its position in the chunk,
      the rule's side-effect verdict and its source. */
  function ImportExportItems(chunk: seq<Node>, codes: seq<string>, sideEffect: seq<bool>): (items: seq<Item>)
    requires |codes| == |chunk| && |sideEffect| == |chunk|
    requires forall i :: 0 <= i < |chunk| ==> chunk[i].source.Some?
    ensures |items| == |chunk|
    ensures forall i :: 0 <= i < |chunk| ==> items[i].index == i
  {
    seq(|chunk|, i requires 0 <= i < |chunk| => Item(codes[i], i, sideEffect[i], GetSource(chunk[i])))
  }

  /** Items of one chunk have distinct positions, so in path mode the
      comparator never ties two different items: the sorted order is the
      same for every correct sorting algorithm. */
  lemma ChunkItemsNeverTie(chunk: seq<Node>, codes: seq<string>, sideEffect: seq<bool>,
                           collator: (string, string) -> int, i: nat, j: nat)
    requires |codes| == |chunk| && |sideEffect| == |chunk|
    requires forall i :: 0 <= i < |chunk| ==> chunk[i].source.Some?
    requires i < |chunk| && j < |chunk| && i != j
    ensures var items := ImportExportItems(chunk, codes, sideEffect);
      ItemCompare(collator, None, items[i], items[j]) != 0
  {
    var items := ImportExportItems(chunk, codes, sideEffect);
    PathModeTieMeansSameIndex(collator, None, items[i], items[j]);
  }
}
