# eslint-plugin-monk: import/export sorting engine, in Dafny

This project models the pure core of the `imports` and `exports` lint rules of
eslint-plugin-monk, and proves properties of that model. The rules find runs of
`import` / `export … from` statements, decide the order those statements should
have, and report a fix when the text differs from the sorted rendering.

The model follows the engine's own steps:

- **Chunks** (`extractChunks`). One forward pass cuts the top-level statements
  into maximal runs. A three-valued classifier drives it (`NotPartOfChunk`,
  `PartOfChunk`, `PartOfNewChunk`); any other verdict is an error.
- **Classifiers.** The imports rule accepts every `ImportDeclaration`. The
  exports rule accepts every export-from statement and starts a new chunk after
  a grouping comment.
- **Statement preparation** (`handleLastSemicolon`, `useGetRelevantComments`,
  and the items of `getImportExportItems`).
- **Sort keys** (`getSource` / `formatSource`). Pure `.`/`/` paths are padded.
  Then `.` is swapped with `_` and `/` with `-`.
- **Whitespace** (`hasNewline`, `guessNewline`, `parseWhitespace`,
  `printTokens`, `removeBlankLines`).
- **Specifier decomposition** (`getSpecifierItems`). A before/specifier/after
  state machine over the tokens between `{` and `}`. It gives every space and
  comment token either to a binding or to the braces.
- **Grouping and sorting** (`makeSortedItems`, `sortImportExportItems`,
  `compare`):
  - Each item goes to the pattern with the longest match on its group key.
  - Items that match nothing go to a catch-all group.
  - Empty groups are dropped.
  - Each group is sorted by a tie-break chain that ends in the original
    position.
- **Reporting** (`maybeReportSorting`). A range is reported only when its text
  differs from the sorted rendering. The fix replaces exactly that range.

Three things are explicit parameters of the model:

- `Intl.Collator` is an uninterpreted function `(string, string) -> int`. The
  sorting properties assume it is `Consistent`: antisymmetric and transitive,
  as a comparator must be.
- The regular-expression engine is an abstract `Matcher` that returns the match
  length. The exports rule's three fixed patterns get a concrete matcher.
- ESLint's `SourceCode` services become plain inputs: token sequences, comment
  locations, the neighbouring tokens of a statement, and the source text.

`Array.prototype.sort` is modelled as a stable insertion sort. ECMAScript
requires `sort` to be stable. Under a consistent comparator, every stable sort
gives the same order.

Files and modules: `wrappers.dfy` (`Option`/`Result`), `common_utils.dfy`,
`ast_node_types.dfy`, `white_space.dfy`, `source_format.dfy`, `collation.dfy`,
`sorting.dfy`, `items.dfy`, `grouping.dfy`, `chunks.dfy`, `specifiers.dfy`,
`get_modules.dfy`, `reporting.dfy`, `imports_rule.dfy` and `exports_rule.dfy`.

Where the two copies of a helper differ, the model follows the code. The main
case is getModules.ts and utils-clone.ts, which compute the line before a
statement's comments differently (see Findings). The `endsWithSpaces`,
`findLastIndex`, `isIdentifier`, `isKeyword`, `isNewline` and `isBlockComment`
helpers are used by utils-clone.ts but not defined there. They take their
meaning from src/utils/useSpecifiers.ts:19-22, src/utils/commonUtils.ts:1-7 and
src/utils/astNodeTypeUtils.ts:6-32.

## Model

| member | source | states |
|---|---|---|
| CommonUtils.FindLastIndex | src/utils/commonUtils.ts:1-7 | The result lies in `[-1, length)`. It is -1 exactly when no element satisfies the predicate. Otherwise it is a satisfying index with no satisfying element after it. |
| CommonUtils.FindIndex | src/utils/utils-clone.ts:242-247 | `findIndex` returns -1 exactly when no element satisfies the predicate. Otherwise it returns a satisfying index with no satisfying element before it. |
| CommonUtils.FlatMapIsFlatten | src/utils/commonUtils.ts:9-11 | `flatMap` is the in-order concatenation of `fn` applied to each element. |
| CommonUtils.FlatMapAppend | src/utils/commonUtils.ts:9-11 | `flatMap` distributes over concatenation of its input. |
| AstNodeTypes.KindsExclusive | src/utils/astNodeTypeUtils.ts:6-32 | At most one of isIdentifier, isKeyword, isBlockComment, isLineComment, isSpaces and isNewline holds for a token. A `,` punctuator is none of trivia, identifier or keyword. |
| AstNodeTypes.PseudoTokensAreNotCode | src/utils/astNodeTypeUtils.ts:4-16 | Spaces and Newline pseudo-tokens are trivia. They are never identifiers, keywords or punctuators. |
| WhiteSpace.NewlineMatchFrom | src/utils/whiteSpaceUtils.ts:3 | The leftmost match of `/(\r?\n)/` from a position. It is absent exactly when no `\n` follows. Otherwise it ends at the first `\n` and includes the `\r` just before it, if there is one. |
| WhiteSpace.HasNewline | src/utils/whiteSpaceUtils.ts:5-7 | True exactly when the string contains `\n`. |
| WhiteSpace.GuessNewline | src/utils/whiteSpaceUtils.ts:9-13 | Always `"\n"` or `"\r\n"`. It is `"\n"` when the text has no line feed. It is `"\r\n"` exactly when the first `\n` follows a `\r`. |
| WhiteSpace.SplitNewlineConcat | src/utils/utils-clone.ts:368 | `split(/(\r?\n)/)` loses no character: joining the pieces gives the input back. |
| WhiteSpace.SplitNewlineShape | src/utils/utils-clone.ts:368 | A string with n line feeds splits into 2n+1 pieces. Even pieces hold no line feed. Odd pieces are `"\n"` or `"\r\n"`. |
| WhiteSpace.SplitNewlineFirst | src/utils/utils-clone.ts:368-369 | With a line feed, the first two pieces spell the text up to and including the first `\n`. |
| WhiteSpace.SplitNewlineLast | src/utils/utils-clone.ts:368-369 | With a line feed, the last piece is the text after the last `\n`. |
| WhiteSpace.ParseWhitespaceForm | src/utils/utils-clone.ts:367-372 | A run with line breaks becomes: the spaces before the first break, that break, and the spaces after the last break, with empty pieces dropped. |
| WhiteSpace.ParseWhitespaceShape | src/utils/utils-clone.ts:367-376 | Every token is a non-empty Spaces or Newline token. Kinds alternate. At most one Newline appears. Printing the tokens gives the text without its blank lines. |
| WhiteSpace.PrintTokensAppend | src/utils/utils-clone.ts:374 | `printTokens` of a concatenation is the concatenation of the printed parts. |
| WhiteSpace.RemovedBlankLinesKeepsSingleLines | src/utils/utils-clone.ts:376 | A run with at most one line feed is kept as it is. Removing blank lines never lengthens a run. |
| WhiteSpace.RemoveBlankLines | src/utils/utils-clone.ts:376 | `removeBlankLines` keeps up to the first line break, then what follows the last one. Runs with at most one line feed are unchanged. |
| SourceFormat.NormalizeRelativeDirectoryPath | src/utils/utils.ts:14 | Appends `/` exactly when the string is non-empty, made only of `.` and `/`, and ends in `.`. Otherwise the string is unchanged. |
| SourceFormat.SortPathsByDepth | src/utils/utils.ts:16 | Appends `,` exactly when the string is non-empty, made only of `.` and `/`, and ends in `/`. |
| SourceFormat.DirectoryPathsEndWithComma | src/utils/utils.ts:14-16 | After the first two steps, a non-empty `.`/`/` path ends in `/,` if it ended in `.`, and in `,` otherwise. Every other string is unchanged. |
| SourceFormat.ReplaceAll | src/utils/utils.ts:20-22 | A per-character replacement succeeds exactly when every character has a replacement. It then keeps the length and replaces pointwise. |
| SourceFormat.SortPunctuationByOrder | src/utils/utils.ts:18-25 | Never raises the "Unsupported punctuation" error. It keeps the length, swaps `.` with `_` and `/` with `-`, and leaves every other character alone. |
| SourceFormat.SortPunctuationByOrderInvolution | src/utils/utils.ts:18-25 | Applying the substitution twice gives the input back. |
| SourceFormat.SwitchAgreesWithTable | src/utils/utils-clone.ts:304-317 | The `switch` substitution of utils-clone.ts equals the table of utils.ts on every string, so its error branch is unreachable too. |
| SourceFormat.FormatSource | src/utils/utils.ts:47 | `formatSource` is the punctuation swap of the padded path, character by character. |
| SourceFormat.FormatSourceShape | src/utils/utils.ts:47 | `formatSource`: a non-empty `.`/`/` path becomes its swap followed by `-,` (if it ended in `.`) or `,`. Every other string becomes just its swap. |
| SourceFormat.GetImportExportKind | src/utils/utils-clone.ts:71-81 | `importKind` if present, else `exportKind` if present, else `"value"`. |
| SourceFormat.GetSource | src/utils/utils-clone.ts:290-321 | `originalSource` is the literal's string, `source` is its `formatSource`, and `kind` is the import/export kind. |
| SourceFormat.GetLiteralSource | src/utils/utils.ts:3-11 | The utils.ts variant: `originalSource` is the literal node itself, and `source` is `formatSource` of its string value. |
| Collation.LexLessTrichotomy | src/utils/utils-clone.ts:38 | For JavaScript's `<` on strings, two strings are equal or one is less than the other. |
| Collation.LexLessTransitive | src/utils/utils-clone.ts:38 | JavaScript's `<` on strings is transitive. |
| Collation.Compare | src/utils/utils-clone.ts:38 | `compare` returns 0 only for identical strings. A non-zero collator verdict is returned as is. A collator tie falls back to code-unit order. |
| Collation.CompareAntisymmetric | src/utils/utils-clone.ts:38 | With a consistent collator, `compare(a, b)` and `compare(b, a)` have opposite signs. |
| Collation.CompareReflexive | src/utils/utils-clone.ts:38 | `compare(a, a)` is 0. |
| Collation.CompareTransitive | src/utils/utils-clone.ts:38 | With a consistent collator, "not after" under `compare` is transitive. |
| Sorting.InsertionSort | src/utils/utils-clone.ts:563 | `items.slice().sort(…)` returns a permutation of its input: same length, same multiset. |
| Sorting.InsertionSortSorted | src/utils/utils-clone.ts:563 | With an antisymmetric and transitive comparator, every adjacent pair of the output is in order. |
| Sorting.InsertionSortRankSorted | src/utils/utils-clone.ts:563 | If the comparator respects a rank, the output is sorted by that rank. |
| Items.SortImportExportItems | src/utils/utils-clone.ts:562-586 | The sorted items are a permutation of the input. |
| Items.SideEffectItemsFirst | src/utils/utils-clone.ts:564-568 | In the output, no side-effect import follows an item that is not one. |
| Items.SideEffectItemsByIndex | src/utils/utils-clone.ts:564 | Side-effect imports keep their original relative order (by index). |
| Items.ItemCompareAntisymmetric | src/utils/utils-clone.ts:563-585 | With a consistent collator, the item comparator gives opposite signs for swapped arguments. This holds in both name and path modes. |
| Items.ItemCompareTransitive | src/utils/utils-clone.ts:563-585 | With a consistent collator, "not after" under the item comparator is transitive. |
| Items.ItemOrderConsistent | src/utils/utils-clone.ts:563-585 | The comparator handed to `sort` is antisymmetric and transitive, so the sort is well defined. |
| Items.PathCompareMeansKeyOrder | src/utils/utils-clone.ts:572-584 | In path mode, a is not after b exactly when the first differing key is ordered. The keys are formatted source, then original source, then kind, then index. |
| Items.SortImportExportItemsOrdered | src/utils/utils-clone.ts:570-584 | Any two items other than side-effect imports appear in key order. In name mode the key is `compare` on the code; in path mode it is the key chain above. |
| Items.PathModeTieMeansSameIndex | src/utils/utils-clone.ts:583 | In path mode the comparator ties only items with the same index. |
| Grouping.GroupKey | src/plugin/imports.js:54 | The key is `"\0" + originalSource` for side-effect imports, `originalSource + "\0"` for non-value kinds, and `originalSource` otherwise. |
| Grouping.SlotsInGroupOrder | src/plugin/imports.js:55-56 | `flatMap` lists the patterns group by group, each group in order. |
| Grouping.SlotsComplete | src/plugin/imports.js:55-56 | Every configured pattern is listed. |
| Grouping.Longest | src/plugin/imports.js:57-63 | The `reduce` keeps a match exactly when one exists. The kept match is strictly longer than every earlier one and at least as long as every later one. |
| Grouping.MatchLengths | src/plugin/imports.js:55-56 | The candidate list pairs each listed pattern with its match on the key. |
| Grouping.BestSlotNone | src/plugin/imports.js:57-64 | No pattern is chosen exactly when no configured pattern matches the key. |
| Grouping.BestSlotIsLongestEarliest | src/plugin/imports.js:57-63 | The chosen pattern's match is strictly longer than that of any earlier matching pattern, and at least as long as that of any later one. |
| Grouping.DistributeSelects | src/plugin/imports.js:51-68 | Each pattern's bucket holds exactly the items whose chosen pattern it is, in input order. |
| Grouping.DistributeRest | src/plugin/imports.js:64-65 | `rest` holds exactly the items that match no pattern, in input order. |
| Grouping.DistributeKeepsItems | src/plugin/imports.js:51-69 | The buckets and `rest` together hold the input items, as a multiset. |
| Grouping.DropEmptyBuckets | src/plugin/imports.js:73 | Each group keeps exactly its non-empty buckets, in order. |
| Grouping.DropEmpty | src/plugin/imports.js:73-74 | After both filters, no group and no bucket is empty. |
| Grouping.DropEmptyKeepsItems | src/plugin/imports.js:73-74 | Dropping empty buckets and groups loses no item. |
| Grouping.MakeSortedItems | src/plugin/imports.js:47-76 | The result has no empty group and no empty bucket. |
| Grouping.MakeSortedItemsPermutes | src/plugin/imports.js:47-76 | Every input item appears in the output exactly as often as in the input. |
| Grouping.MakeSortedItemsGroupsShareTarget | src/plugin/imports.js:51-75 | All items of one output bucket chose the same pattern, or all matched none. |
| Grouping.MakeSortedItemsCatchAllLast | src/plugin/imports.js:64-72 | When some item matches no pattern, the last output group is the single catch-all bucket. It holds exactly those items, sorted. |
| Grouping.MakeSortedItemsOrdered | src/plugin/imports.js:75 | With a consistent collator, every output bucket is in `sortImportExportItems` order. |
| Chunks.Previous | src/utils/extractChunks.ts:9-36 | The classifier is given no previous node for the first statement. For every later statement it is given the statement just before, whatever its classification. |
| Chunks.Sources | src/utils/extractChunks.ts:11-12 | The classifier is applied to each statement and its predecessor, in order. |
| Chunks.ExtractChunksFails | src/utils/extractChunks.ts:32-33 | The pass fails exactly when some statement gets an unknown verdict. The error names the first such verdict. |
| Chunks.ExtractChunksEmpty | src/utils/extractChunks.ts:11-41 | An empty body gives no chunks. |
| Chunks.PartitionKeeps | src/utils/extractChunks.ts:11-39 | Every chunk is non-empty. Concatenated, the chunks are exactly the accepted statements, in order. |
| Chunks.PartitionMaximalRuns | src/utils/extractChunks.ts:14-39 | Every chunk is a maximal run of consecutive accepted statements. Only its first statement may be `PartOfNewChunk`. The run cannot be extended on either side. |
| Chunks.PartitionLooksUp | src/utils/extractChunks.ts:11-39 | Chunking the statements equals chunking their positions and looking the positions up. |
| Chunks.ExtractChunksMaximalRuns | src/utils/extractChunks.ts:4-42 | With no unknown verdict, the pass succeeds. The chunks are non-empty maximal runs, and concatenated they are the accepted statements in order. |
| Chunks.PartOfNewChunkIsFirst | src/utils/extractChunks.ts:26-29 | A `PartOfNewChunk` statement is the first element of a chunk. |
| Chunks.NotPartOfChunkSeparates | src/utils/extractChunks.ts:15-20 | Two statements with a `NotPartOfChunk` statement between them never share a chunk. |
| Specifiers.GetSpecifierItemsKeepsTokens | src/utils/utils-clone.ts:118-288 | Flattening the result gives back the input tokens one for one. The flattening is `before`, then each item's before/specifier/comma/after, then `after`. Only a comma is replaced, by a canonical comma recorded as `hadComma`. |
| Specifiers.GetSpecifierItemsKeepsText | src/utils/utils-clone.ts:118-288 | Printing the flattened result reproduces the printed input. |
| Specifiers.GetSpecifierItemsBraceTrivia | src/utils/utils-clone.ts:126-150 | `result.before` is the leading run of spaces and comments, plus the first newline if that is what ends the run. With no binding at all, everything goes to `result.after`. |
| Specifiers.GetSpecifierItemsOwnership | src/utils/utils-clone.ts:177-285 | Every item except the last had a comma. Every item's `before` is spaces and comments only. Its `after` stays on the binding's line: no multiline block comment, and a newline only as the last token. A comma-ended item has only spaces and comments after it. |
| Specifiers.AfterStateBlockComment | src/utils/utils-clone.ts:192-200 | In the after state, a multiline block comment closes the item and opens the next item's `before`. A one-line block comment stays in `after`. |
| Specifiers.FinishPendingTrivia | src/utils/utils-clone.ts:223-225 | Trivia pending in the before state at the end becomes `result.after`. |
| Specifiers.SplitSpecifierTail | src/utils/utils-clone.ts:234-266 | The end-of-input split of the last specifier loses no token: binding, item after and result after concatenate to the specifier. |
| Specifiers.BindingEnd | src/utils/utils-clone.ts:235-237 | The binding ends at the last identifier or keyword. Nothing after that position is one. |
| Specifiers.SplitSpecifierTailBinding | src/utils/utils-clone.ts:235-237 | The kept binding is empty or ends in an identifier or keyword, and the rest holds neither. |
| Specifiers.TailSliceAtFirstBreak | src/utils/utils-clone.ts:242-261 | The tail is cut after the first newline or before the first multiline block comment, whichever comes first. With neither, a final Spaces token is cut off. Otherwise nothing is cut. |
| Specifiers.SplitSpecifierTailTrivia | src/utils/utils-clone.ts:242-264 | The item's `after` is the tail up to that cut point. |
| Specifiers.PrintWithSortedSpecifiers | src/utils/utils-clone.ts:543-551 | Without `{`, without `}`, or with at most one specifier, the statement prints as its own tokens' code. Otherwise the source falls through and yields nothing. |
| Reporting.Slice | src/utils/maybeReportSorting.ts:14 | `text.slice(start, end)` is the substring for an in-bounds range and empty for a reversed range. |
| Reporting.MaybeReportSorting | src/utils/maybeReportSorting.ts:12-22 | No report exactly when the slice equals the sorted text. Otherwise there is one report over `[start, end)` whose fix is the sorted text. |
| Reporting.ApplyFix | src/utils/maybeReportSorting.ts:18 | `replaceTextRange` keeps the text before `start` and after `end`, and puts the replacement in between. |
| Reporting.FixSettles | src/utils/maybeReportSorting.ts:14-18 | After the fix, checking the replaced range reports nothing. |
| Reporting.ReportIffFixChanges | src/utils/maybeReportSorting.ts:14-18 | A report is made exactly when its fix would change the text. |
| GetModules.HandleLastSemicolon | src/utils/getModules.ts:7-27 | The chunk is unchanged when the last token is not `;`, when the `;` shares a line with the token before it, or when no token follows. Otherwise only the last statement changes: its start is kept and its end becomes the next-to-last token's end. Length and earlier statements are preserved. |
| GetModules.HandleLastSemicolonChanges | src/utils/getModules.ts:20-26 | When the fix-up applies, the chunk changes exactly when the last statement did not already end at the next-to-last token. |
| GetModules.UseGetRelevantComments | src/utils/getModules.ts:37-48 | A comment before the statement is kept exactly when it starts no later than the statement, ends after `lastModule`, and (for the first statement) starts after `lastModule`. A comment after it is kept exactly when it ends on the statement's end line. Each result is drawn from its input list. |
| CommonUtils.FilterIffAccepted | src/utils/getModules.ts:39-45 | A filter keeps exactly the elements it accepts. |
| GetModules.FirstStatementKeepsSameLineComments | src/utils/utils-clone.ts:492-507 | With `lastLine` as in `getImportExportItems`, the first statement keeps exactly the comments before it that start on its own line. |
| GetModules.LaterStatementComments | src/utils/utils-clone.ts:492-507 | For a later statement, a comment ending on or before the previous statement's end line is not kept. A comment after that line and starting no later than the statement is kept. |
| GetModules.AsWrittenDropsFirstComments | src/utils/getModules.ts:33 | With the `lastModule` that `getModules` computes, were it passed to the filter, the first statement (on line 1 or later) would keep none of the comments before it. |
| GetModules.AsWrittenCounterexample | src/utils/getModules.ts:33 | `/* a */ import "x"` on line 1: the comment is kept under `lastLine` and would be dropped under the computed `lastModule`. |
| GetModules.ImportExportItems | src/utils/utils-clone.ts:491-539 | One item per statement, in order, and each item's index is its position in the chunk. |
| GetModules.ChunkItemsNeverTie | src/utils/utils-clone.ts:583 | Items of one chunk never tie under the path comparator, so their sorted order does not depend on the sort algorithm. |
| ImportsRule.ImportSource | src/plugin/imports.js:27 | `ImportDeclaration` statements are `PartOfChunk`. Every other statement is `NotPartOfChunk`. |
| ImportsRule.GetSpecifiers | src/plugin/imports.js:79-81 | Keeps exactly the `ImportSpecifier` entries: one for each such specifier, and nothing else. |
| ImportsRule.SideEffectImportHasNoSpecifiers | src/plugin/imports.js:97-103 | A side-effect import has no named specifiers to sort. |
| ImportsRule.EmptyBracesAreNotSideEffect | src/plugin/imports.js:94-103 | `import {} from "a"` is not a side-effect import. |
| ImportsRule.MakeSortedImports | src/plugin/imports.js:38-76 | The imports rule's sorted groups have no empty group or bucket. |
| ImportsRule.ImportChunks | src/plugin/imports.js:27-86 | Chunking under the imports classifier never fails. The chunks concatenate to exactly the import statements, in order. |
| ImportsRule.ImportChunksSeparated | src/plugin/imports.js:27 | Two imports with another statement between them are in different chunks. |
| ExportsRule.IsPartOfChunk | src/plugin/exports.js:90-100 | `NotPartOfChunk` exactly for statements that are not export-from. `PartOfNewChunk` exactly for export-from statements with a grouping comment. The verdict is never unknown. |
| ExportsRule.ExportChunks | src/plugin/exports.js:16-108 | Chunking under the exports classifier never fails. The chunks concatenate to exactly the export-from statements, in order. |
| ExportsRule.GroupingCommentStartsChunk | src/plugin/exports.js:93-99 | An export-from statement with a grouping comment before it starts a chunk. |
| ExportsRule.ExportMatcher | src/plugin/exports.js:31-35 | The `^` pattern matches every key with length 0. |
| ExportsRule.ExportTarget | src/plugin/exports.js:31-58 | Keys ending in NUL after a line of at least one character go to the third group. Other keys starting with `.` go to the second group. Everything else goes to the first group. |
| ExportsRule.ExportsRestEmpty | src/plugin/exports.js:31-56 | Since `^` matches every key, the catch-all `rest` stays empty. |
| ExportsRule.ExportKey | src/plugin/exports.js:28-42 | No export is a side-effect item, so no key gets the NUL prefix. |
| ExportsRule.TypeExportsLast | src/plugin/exports.js:32-42 | A non-value export of a non-empty, single-line source lands in the third group. |
| ExportsRule.RelativeExportsMiddle | src/plugin/exports.js:32-42 | A value export of a `.`-prefixed source lands in the second group. |
| ExportsRule.OtherExportsFirst | src/plugin/exports.js:31-42 | Any other value export lands in the first group. |
| ExportsRule.MakeSortedExports | src/plugin/exports.js:30-64 | The exports rule's sorted groups have no empty group or bucket. |
| ExportsRule.ExportsSortedByPath | src/plugin/exports.js:63 | `'import'` is not `'name'`, so export buckets are sorted in path order. |
| ExportsRule.GetSpecifiers | src/plugin/exports.js:86-88 | Statements without `.specifiers` (such as `export *`) give `[]`. Otherwise the specifiers are returned. |
| ExportsRule.CheckLocalExport | src/plugin/exports.js:20-24 | Only a local `export { … }` (no source, no declaration) is checked, and any report covers exactly the statement's range. With the src/utils/utils-clone.ts renderer standing in for src/plugin/utils.js, a list with `{`, `}` and two or more specifiers is reported with an `undefined` fix, and only such a list. |
| ExportsRule.BracedListAlwaysReported | src/plugin/exports.js:78-83 | With the src/utils/utils-clone.ts renderer in place of src/plugin/utils.js, a braced local list with two or more specifiers is reported over its range whatever the source text, because the renderer returns nothing and `undefined` never equals the text. |
| ExportsRule.CheckLocalExportIntended | src/plugin/exports.js:78-83 | With the renderer returning the sorted list, a braced list is reported exactly when its text differs from the sorted list, and the fix writes that list. Every other node is handled as written. |
| ExportsRule.SortedListCounterexample | src/utils/utils-clone.ts:551-557 | `export { a, b };`, already sorted, is reported under the src/utils/utils-clone.ts renderer as written and left alone by the intended handler. |
| ExportsRule.LocalExportKeptAsIs | src/plugin/exports.js:78-83 | A local export list with at most one specifier is reported exactly when its text differs from its printed tokens. The fix writes those tokens back. |

## Left out

- ESLint's `SourceCode` and token services are inputs, not modelled: `getTokens`, `getCommentsBefore`, `getCommentsAfter`, `getFirstToken`, `getLastTokens`, `getTokenAfter`, `getText` and `getLocFromIndex`. Tokens, comment locations and text reach the model as parameters.
- `getAllTokens`, `getIndentation`, `getTrailingSpaces` and `usePrintComments` (src/utils/utils-clone.ts) build printed text out of `SourceCode` calls. They are not modelled, because the model takes each item's rendered `code` as given.
- `getImportExportItems` is modelled only for the fields the sort reads (code, index, side-effect verdict, source). Its `start`, `end` and `needsNewline` come from the services above.
- `printSortedItems` has an empty body in the source (src/utils/utils-clone.ts:481), so it renders nothing. The model does not invent a rendering, and `maybeReportChunkSorting` of both rules is therefore not modelled past `makeSortedItems`.
- Specifiers.PrintWithSortedSpecifiers: models only the early return. Past it the source decomposes the list and ends without a return statement; the model yields `None` there.
- ExportsRule.CheckLocalExport: the report for a braced list carries the fix text `undefined`. What ESLint's `replaceTextRange` does with that value is not modelled.
- `getModules` and `usePrintComments` of src/utils/getModules.ts are unfinished drafts. Only their `lastModule` expression is modelled.
- src/utils/useSpecifiers.ts is an unfinished draft of the specifier machine. Only its `endsWithSpaces` is taken, as `Specifiers.EndsWithSpaces`.
- src/plugin/utils.js is not part of this model. The rules' calls into it are modelled by their src/utils/utils-clone.ts counterparts.
- `Intl.Collator` is an uninterpreted comparator. Its locale rules are out of scope.
- Regular expressions are an abstract `Matcher`, so the imports rule's configured groups, the default group tables and the `RegExp(item, 'u')` construction are not modelled. The exports rule's three fixed patterns get a concrete matcher.
- Rule registration, `meta` and options schema are configuration and not modelled.
- `context.report` is modelled as a returned `Report` value.
- Collation.Compare: strings are sequences of Unicode scalar values, so JavaScript's `<` on UTF-16 code units is modelled as character order. The two differ for characters outside the Basic Multilingual Plane.
- ExportsRule.ExportMatcher: match lengths count characters, not UTF-16 code units. Only the order of lengths matters, and it is the same for the three fixed patterns.
- SourceFormat.GetImportExportKind: does not model an `importKind` or `exportKind` property that is present but `undefined`. Then `'importKind' in node` holds and the source returns `undefined`; the model treats the property as absent.
- Sorting.InsertionSort: stands for the engine's stable `Array.prototype.sort`. Its statements hold for every stable sort only when the comparator is consistent.
- Chunks.ExtractChunksFails: the thrown `Error` is modelled as a `Failure` carrying the message text.

## Findings

| source | as written | input that shows it | evidently intended | confidence | as-written member | corrected member |
|---|---|---|---|---|---|---|
| src/utils/getModules.ts:33 | `node.loc?.start.line \|\| 0 - 1` parses as `line \|\| (0 - 1)`, so the first statement's `lastModule` is its own start line | `/* a */ import "x"` with both on line 1: `getModules` computes this `lastModule` and then discards it (its `map` callback returns nothing and `useGetRelevantComments` has no caller yet); once the value is passed to the filter, the `start.line > lastModule` test fails and the comment is dropped | `(line \|\| 0) - 1`, the line above the statement, as in src/utils/utils-clone.ts:492 | not executed | GetModules.AsWrittenCounterexample | GetModules.FirstStatementKeepsSameLineComments |
| src/utils/utils-clone.ts:551-557 | `printWithSortedSpecifiers` ends without a return statement past its early return, so it returns `undefined`. If the rule called this renderer (the substitution listed under "## Left out"), src/plugin/exports.js:79-82 would pass `undefined` to `maybeReportSorting`, where `original !== sorted` always holds. The shipped rule loads src/plugin/utils.js, whose text is not modelled | `export { a, b };`, already sorted: under that substitution it would be reported, with an `undefined` fix | return the list with its specifiers sorted, and report only a list whose text differs | not executed | ExportsRule.SortedListCounterexample | ExportsRule.CheckLocalExportIntended |
