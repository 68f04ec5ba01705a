/** The parts of the `imports` rule (src/plugin/imports.js) the engine
    needs: the chunk classifier, the side-effect test, the specifier
    selection and the sort call. */
module ImportsRule {
  import opened Wrappers
  import opened CommonUtils
  import opened AstNodeTypes
  import opened Collation
  import opened Items
  import opened Chunks
  import opened Grouping

  /** `isImport(node)`: a full import statement. */
  predicate IsImport(node: Node) { node.kind == "ImportDeclaration" }

  /** The classifier the rule hands to `extractChunks`. */
  function ImportSource(node: Node, previous: Option<Node>): (r: ChunkSource)
    ensures r.PartOfChunk? <==> IsImport(node)
    ensures r.NotPartOfChunk? <==> !IsImport(node)
  {
    if IsImport(node) then PartOfChunk else NotPartOfChunk
  }

  /** The value `importKind` may hold on a side-effect import: absent,
      empty (falsy) or `'value'`. */
  predicate ValueImportKind(k: Option<string>)
  {
    k.None? || k == Some("") || k == Some("value")
  }

  /** `isSideEffectImport(importNode, sourceCode)`, given the statement's
      second token (`getFirstToken(importNode, { skip: 1 })`). */
  predicate IsSideEffectImport(node: Node, second: Token)
    requires node.specifiers.Some?
  {
    |node.specifiers.value| == 0 && ValueImportKind(node.importKind) && !IsPunctuator(second, "{")
  }

  predicate IsImportSpecifierKind(kind: string) { kind == "ImportSpecifier" }

  /** `getSpecifiers(importNode)`: the named specifiers, without the default
      or namespace binding. */
  function GetSpecifiers(node: Node): (r: seq<string>)
    requires node.specifiers.Some?
    ensures forall i :: 0 <= i < |r| ==> r[i] == "ImportSpecifier"
    ensures |r| == multiset(node.specifiers.value)["ImportSpecifier"]
  {
    var r := Filter(node.specifiers.value, IsImportSpecifierKind);
    FilterCount(node.specifiers.value, IsImportSpecifierKind, "ImportSpecifier");
    AllSameCount(r, "ImportSpecifier");
    r
  }

  lemma {:induction false} AllSameCount(r: seq<string>, x: string)
    requires forall i :: 0 <= i < |r| ==> IsImportSpecifierKind(r[i]) && x == "ImportSpecifier"
    ensures |r| == multiset(r)[x]
    decreases |r|
  {
    if |r| > 0 {
      var n := |r| - 1;
      assert r == r[..n] + [r[n]];
      AllSameCount(r[..n], x);
    }
  }

  /** A side-effect import has no bindings, so nothing to sort inside it. */
  lemma SideEffectImportHasNoSpecifiers(node: Node, second: Token)
    requires node.specifiers.Some? && IsSideEffectImport(node, second)
    ensures GetSpecifiers(node) == []
  {
  }

  /** `import {} from "a"` is not a side-effect import: its second token
      is `{`. */
  lemma EmptyBracesAreNotSideEffect(node: Node, second: Token)
    requires node.specifiers.Some? && IsPunctuator(second, "{")
    ensures !IsSideEffectImport(node, second)
  {
  }

  /** `makeSortedItems(items, outerGroups)` of the rule: the configured
      groups, path-mode sorting. */
  function MakeSortedImports(items: seq<Item>, groups: seq<seq<Pattern>>, matcher: Matcher,
                             collator: (string, string) -> int): (r: seq<seq<seq<Item>>>)
    ensures Tidy(r)
  {
    MakeSortedItems(items, groups, matcher, None, collator)
  }

  lemma ImportSourcesRecognised(body: seq<Node>)
    ensures forall i :: 0 <= i < |body| ==> !Sources(body, ImportSource)[i].Unrecognized?
  {
  }

  /** Imports chunks never fail and hold exactly the import statements, in
      order. */
  lemma ImportChunks(body: seq<Node>)
    ensures ExtractChunks(body, ImportSource).Success?
    ensures Flatten(ExtractChunks(body, ImportSource).value) == Filter(body, IsImport)
  {
    var srcs := Sources(body, ImportSource);
    ImportSourcesRecognised(body);
    RunFails(body, srcs);
    PartitionKeeps(body, srcs);
    KeptIsFilter(body, srcs, IsImport);
  }

  /** Two imports with another statement between them are in different
      chunks. */
  lemma ImportChunksSeparated(body: seq<Node>, i: nat, m: nat, j: nat)
    requires i < m < j < |body| && !IsImport(body[m])
    ensures Partition(Ids(|body|), Sources(body, ImportSource)).Success?
    ensures !SameChunk(Partition(Ids(|body|), Sources(body, ImportSource)).value, i, j)
  {
    ImportSourcesRecognised(body);
    NotPartOfChunkSeparates(body, ImportSource, i, m, j);
  }
}
