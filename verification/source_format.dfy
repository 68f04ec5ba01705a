/** Sort-key normalisation of module paths (src/utils/utils.ts
    `formatSource` and its three steps, and the `getSource` of both
    src/utils/utils.ts and src/utils/utils-clone.ts). */
module SourceFormat {
  import opened Wrappers
  import opened AstNodeTypes

  predicate IsDotOrSlash(c: char) { c == '.' || c == '/' }

  /** The string is made only of `.` and `/` (the class `[./]*`). */
  predicate DotSlashOnly(s: string) { forall i :: 0 <= i < |s| ==> IsDotOrSlash(s[i]) }

  /** Length of the longest prefix made of `.` and `/`. */
  function DotSlashPrefix(s: string): (n: nat)
    ensures n <= |s|
    ensures DotSlashOnly(s[..n])
    ensures n < |s| ==> !IsDotOrSlash(s[n])
  {
    if |s| == 0 || !IsDotOrSlash(s[0]) then 0
    else
      var n := 1 + DotSlashPrefix(s[1..]);
      assert s[..n] == [s[0]] + s[1..][..n - 1];
      n
  }

  /** Whether `^[./]*X$` matches, for a final character `X` in the class:
      the whole string is made of `.` and `/` and ends in `X`. */
  function AnchoredDotSlashEndingIn(s: string, last: char): (b: bool)
    requires IsDotOrSlash(last)
    ensures b <==> |s| > 0 && DotSlashOnly(s) && s[|s| - 1] == last
  {
    var n := DotSlashPrefix(s);
    if n < |s| then
      assert !DotSlashOnly(s) by { assert !IsDotOrSlash(s[n]); }
      false
    else
      assert s[..n] == s;
      n > 0 && s[n - 1] == last
  }

  /** `value.replace(/^[./]*\.$/, '$&/')`: `.` becomes `./`, `..` becomes
      `../`, `../..` becomes `../../`. */
  function NormalizeRelativeDirectoryPath(value: string): (r: string)
    ensures if |value| > 0 && DotSlashOnly(value) && value[|value| - 1] == '.' then r == value + "/" else r == value
  {
    if AnchoredDotSlashEndingIn(value, '.') then value + "/" else value
  }

  /** `value.replace(/^[./]*\/$/, '$&,')`: `../` sorts after `../../` but
      before `../a`. */
  function SortPathsByDepth(value: string): (r: string)
    ensures if |value| > 0 && DotSlashOnly(value) && value[|value| - 1] == '/' then r == value + "," else r == value
  {
    if AnchoredDotSlashEndingIn(value, '/') then value + "," else value
  }

  /** After the first two steps every non-empty string made only of `.`
      and `/` ends with a comma, and any other string is unchanged. */
  lemma DirectoryPathsEndWithComma(value: string)
    ensures var r := SortPathsByDepth(NormalizeRelativeDirectoryPath(value));
      if |value| > 0 && DotSlashOnly(value) then
        r == (if value[|value| - 1] == '.' then value + "/," else value + ",")
      else r == value
  {
    var n := NormalizeRelativeDirectoryPath(value);
    if |value| > 0 && DotSlashOnly(value) && value[|value| - 1] == '.' {
      assert DotSlashOnly(n) && n[|n| - 1] == '/';
    }
  }

  /** The character class `[./_-]` of the substitution regex. */
  predicate IsSubstituted(c: char) { c == '.' || c == '/' || c == '_' || c == '-' }

  /** `punctuationReplacements`. */
  const PunctuationReplacements: map<char, char> := map['.' := '_', '/' := '-', '_' := '.', '-' := '/']

  /** The replacement callback of src/utils/utils.ts: a table lookup that
      throws when the character has no entry. */
  function ReplaceByTable(c: char): Result<char>
  {
    if !IsSubstituted(c) then Success(c)
    else if c in PunctuationReplacements then Success(PunctuationReplacements[c])
    else Failure("Unsupported punctuation character: " + [c])
  }

  /** The replacement callback of src/utils/utils-clone.ts: a switch whose
      default case throws. */
  function ReplaceBySwitch(c: char): Result<char>
  {
    if !IsSubstituted(c) then Success(c)
    else if c == '.' then Success('_')
    else if c == '/' then Success('-')
    else if c == '_' then Success('.')
    else if c == '-' then Success('/')
    else Failure("Unknown source substitution character: " + [c])
  }

  /** `String.prototype.replace` with a global regex and a callback that
      may throw: characters left to right, the first throw wins. */
  function ReplaceAll(s: string, f: char -> Result<char>): (r: Result<string>)
    ensures r.Success? ==> |r.value| == |s|
    ensures r.Success? ==> forall i :: 0 <= i < |s| ==> f(s[i]) == Success(r.value[i])
    ensures r.Failure? <==> exists i :: 0 <= i < |s| && f(s[i]).Failure?
  {
    if |s| == 0 then Success("")
    else match f(s[0])
      case Failure(e) => Failure(e)
      case Success(c) =>
        match ReplaceAll(s[1..], f)
        case Failure(e) =>
          assert exists i :: 0 <= i < |s| && f(s[i]).Failure? by {
            var j :| 0 <= j < |s[1..]| && f(s[1..][j]).Failure?;
            assert s[j + 1] == s[1..][j];
          }
          Failure(e)
        case Success(rest) =>
          assert forall i :: 1 <= i < |s| ==> s[i] == s[1..][i - 1];
          Success([c] + rest)
  }

  /** The intended substitution: `.`/`_` and `/`/`-` exchanged, every
      other character kept. */
  function Swapped(c: char): char
  {
    match c
    case '.' => '_'
    case '_' => '.'
    case '/' => '-'
    case '-' => '/'
    case _ => c
  }

  lemma ReplaceByTableIsSwap(c: char)
    ensures ReplaceByTable(c) == Success(Swapped(c))
  {
  }

  /** `sortPunctuationByOrder`: never throws, keeps the length, exchanges
      `.` with `_` and `/` with `-` position by position, and keeps every
      other character. */
  function SortPunctuationByOrder(value: string): (r: Result<string>)
    ensures r.Success?
    ensures |r.value| == |value|
    ensures forall i :: 0 <= i < |value| ==> r.value[i] == Swapped(value[i])
  {
    forall c ensures ReplaceByTable(c) == Success(Swapped(c)) {
      ReplaceByTableIsSwap(c);
    }
    ReplaceAll(value, ReplaceByTable)
  }

  /** Applying the substitution twice gives the string back. */
  lemma SortPunctuationByOrderInvolution(value: string)
    ensures SortPunctuationByOrder(SortPunctuationByOrder(value).value).value == value
  {
    var once := SortPunctuationByOrder(value).value;
    var twice := SortPunctuationByOrder(once).value;
    assert forall i :: 0 <= i < |value| ==> twice[i] == Swapped(Swapped(value[i])) == value[i];
  }

  /** The switch of src/utils/utils-clone.ts and the table of
      src/utils/utils.ts substitute alike, and neither ever throws. */
  lemma SwitchAgreesWithTable(value: string)
    ensures ReplaceAll(value, ReplaceBySwitch) == SortPunctuationByOrder(value)
  {
    var a := ReplaceAll(value, ReplaceBySwitch);
    var b := SortPunctuationByOrder(value);
    assert forall c :: ReplaceBySwitch(c) == Success(Swapped(c));
    assert a.Success?;
    assert a.value == b.value;
  }

  /** `formatSource`: the three steps in order. */
  function FormatSource(source: string): (r: string)
    ensures var padded := SortPathsByDepth(NormalizeRelativeDirectoryPath(source));
      |r| == |padded| && forall i :: 0 <= i < |r| ==> r[i] == Swapped(padded[i])
  {
    SortPunctuationByOrder(SortPathsByDepth(NormalizeRelativeDirectoryPath(source))).value
  }

  /** The substitution applied to every character. */
  function SwapAll(s: string): (r: string)
    ensures |r| == |s| && forall i :: 0 <= i < |s| ==> r[i] == Swapped(s[i])
  {
    seq(|s|, i requires 0 <= i < |s| => Swapped(s[i]))
  }

  lemma SwapAllAppend(a: string, b: string)
    ensures SwapAll(a + b) == SwapAll(a) + SwapAll(b)
  {
  }

  lemma FormatSourceIsSwapAll(source: string)
    ensures FormatSource(source) == SwapAll(SortPathsByDepth(NormalizeRelativeDirectoryPath(source)))
  {
  }

  /** The whole rewrite in one statement: the substitution applied to the
      source, plus `-,` (the substituted `/,`) after a dot/slash path
      ending in `.`, and `,` after one ending in `/`. */
  lemma FormatSourceShape(source: string)
    ensures FormatSource(source) ==
      if |source| > 0 && DotSlashOnly(source) then
        (if source[|source| - 1] == '.' then SwapAll(source) + "-," else SwapAll(source) + ",")
      else SwapAll(source)
  {
    DirectoryPathsEndWithComma(source);
    FormatSourceIsSwapAll(source);
    SwapAllPadded(source, SortPathsByDepth(NormalizeRelativeDirectoryPath(source)));
  }

  lemma SwapAllPadded(source: string, padded: string)
    requires padded ==
      if |source| > 0 && DotSlashOnly(source) then
        (if source[|source| - 1] == '.' then source + "/," else source + ",")
      else source
    ensures SwapAll(padded) ==
      if |source| > 0 && DotSlashOnly(source) then
        (if source[|source| - 1] == '.' then SwapAll(source) + "-," else SwapAll(source) + ",")
      else SwapAll(source)
  {
    if |source| > 0 && DotSlashOnly(source) {
      if source[|source| - 1] == '.' {
        SwapAllAppend(source, "/,");
        assert SwapAll("/,") == "-,";
      } else {
        SwapAllAppend(source, ",");
        assert SwapAll(",") == ",";
      }
    }
  }

  /** The sort-key record of an import/export item (src/utils/utils-clone.ts
      `ItemSource`). */
  datatype ItemSource = ItemSource(kind: string, originalSource: string, source: string)

  /** `getImportExportKind`: the node's own `importKind`, else its
      `exportKind`, else `"value"`. */
  function GetImportExportKind(node: Node): (r: string)
    ensures node.importKind.Some? ==> r == node.importKind.value
    ensures node.importKind.None? && node.exportKind.Some? ==> r == node.exportKind.value
    ensures node.importKind.None? && node.exportKind.None? ==> r == "value"
  {
    match node.importKind
    case Some(k) => k
    case None => if node.exportKind.Some? then node.exportKind.value else "value"
  }

  /** `getSource` of src/utils/utils-clone.ts, for a statement with a
      `from` clause. */
  function GetSource(node: Node): (r: ItemSource)
    requires node.source.Some?
    ensures r.originalSource == node.source.value.value
    ensures r.source == FormatSource(r.originalSource)
    ensures r.kind == GetImportExportKind(node)
  {
    var value := node.source.value.value;
    ItemSource(GetImportExportKind(node), value, FormatSource(value))
  }

  /** What `getSource` of src/utils/utils.ts returns: the literal node
      itself and the formatted key of its string value. */
  datatype LiteralSource = LiteralSource(originalSource: Literal, source: string)

  function GetLiteralSource(node: Node): (r: LiteralSource)
    requires node.source.Some?
    ensures r.originalSource == node.source.value
    ensures r.source == FormatSource(node.source.value.value)
  {
    LiteralSource(node.source.value, FormatSource(node.source.value.value))
  }
}
