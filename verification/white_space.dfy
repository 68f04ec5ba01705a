/** Line-break handling: the `/(\r?\n)/` pattern shared by
    src/utils/whiteSpaceUtils.ts and src/utils/utils-clone.ts, and the
    whitespace tokenizer `parseWhitespace`/`printTokens`/`removeBlankLines`. */
module WhiteSpace {
  import opened Wrappers
  import opened CommonUtils
  import opened AstNodeTypes

  predicate IsLineFeed(c: char) { c == '\n' }

  /** The leftmost match `[start, end)` of `/\r?\n/` in `s`, scanning from
      position `from` the way a regex search does. */
  function NewlineMatchFrom(s: string, from: nat): (r: Option<(nat, nat)>)
    requires from <= |s|
    ensures r.None? <==> forall k :: from <= k < |s| ==> s[k] != '\n'
    ensures r.Some? ==>
      && from <= r.value.0 < r.value.1 <= |s|
      && s[r.value.1 - 1] == '\n'
      && (forall k :: from <= k < r.value.1 - 1 ==> s[k] != '\n')
      && (r.value.1 - r.value.0 == 2 <==> r.value.1 - 2 >= from && s[r.value.1 - 2] == '\r')
      && r.value.1 - r.value.0 <= 2
    decreases |s| - from
  {
    if from == |s| then None
    else if s[from] == '\r' && from + 1 < |s| && s[from + 1] == '\n' then Some((from, from + 2))
    else if s[from] == '\n' then Some((from, from + 1))
    else NewlineMatchFrom(s, from + 1)
  }

  function NewlineMatch(s: string): Option<(nat, nat)>
  {
    NewlineMatchFrom(s, 0)
  }

  /** `hasNewline`: the pattern `/(\r?\n)/` occurs in `s`. */
  function HasNewline(s: string): (r: bool)
    ensures r <==> '\n' in s
  {
    NewlineMatch(s).Some?
  }

  /** `guessNewline`: the first line break of the text, `"\n"` when there is
      none. */
  function GuessNewline(text: string): (r: string)
    ensures r == "\n" || r == "\r\n"
    ensures '\n' !in text ==> r == "\n"
    ensures '\n' in text ==>
      var k := FindIndex(text, IsLineFeed);
      (r == "\r\n" <==> k > 0 && text[k - 1] == '\r')
  {
    match NewlineMatch(text)
    case None => "\n"
    case Some(m) =>
      var k := FindIndex(text, IsLineFeed);
      assert k == m.1 - 1;
      text[m.0..m.1]
  }

  /** `string.split(/(\r?\n)/)`: the pieces between line breaks, with the
      line breaks themselves (the capture group) at the odd positions. */
  function SplitNewline(s: string): (parts: seq<string>)
    ensures |parts| % 2 == 1
    decreases |s|
  {
    match NewlineMatch(s)
    case None => [s]
    case Some(m) => [s[..m.0], s[m.0..m.1]] + SplitNewline(s[m.1..])
  }

  function Concat(parts: seq<string>): string
  {
    if |parts| == 0 then "" else parts[0] + Concat(parts[1..])
  }

  lemma {:induction false} ConcatAppend(a: seq<string>, b: seq<string>)
    ensures Concat(a + b) == Concat(a) + Concat(b)
    decreases |a|
  {
    if |a| > 0 {
      assert (a + b)[1..] == a[1..] + b;
      ConcatAppend(a[1..], b);
    } else {
      assert a + b == b;
    }
  }

  /** Splitting loses nothing: the pieces concatenate back to the input. */
  lemma {:induction false} SplitNewlineConcat(s: string)
    ensures Concat(SplitNewline(s)) == s
    decreases |s|
  {
    match NewlineMatch(s)
    case None =>
    case Some(m) =>
      var tail := SplitNewline(s[m.1..]);
      SplitNewlineConcat(s[m.1..]);
      ConcatAppend([s[..m.0], s[m.0..m.1]], tail);
      assert Concat([s[..m.0], s[m.0..m.1]]) == s[..m.0] + s[m.0..m.1];
      assert s == s[..m.0] + s[m.0..m.1] + s[m.1..];
  }

  /** A match is one line break. */
  lemma MatchIsLineBreak(s: string, m: (nat, nat))
    requires NewlineMatch(s) == Some(m)
    ensures s[m.0..m.1] == "\n" || s[m.0..m.1] == "\r\n"
  {
    if m.1 - m.0 == 2 {
      assert s[m.0..m.1] == [s[m.0], s[m.0 + 1]];
    } else {
      assert s[m.0..m.1] == [s[m.0]];
    }
  }

  /** One match removes exactly one line feed from the text still to split. */
  lemma MatchCountsOneLineFeed(s: string, m: (nat, nat))
    requires NewlineMatch(s) == Some(m)
    ensures multiset(s)['\n'] == multiset(s[m.1..])['\n'] + 1
    ensures s[m.0..m.1] == "\n" || s[m.0..m.1] == "\r\n"
  {
    var a, b, rest := s[..m.0], s[m.0..m.1], s[m.1..];
    BeforeMatchNoLineFeed(s, m);
    MatchIsLineBreak(s, m);
    assert s == a + b + rest;
    assert multiset(s) == multiset(a) + multiset(b) + multiset(rest);
    assert multiset(a)['\n'] == 0;
    assert multiset(b)['\n'] == 1;
  }

  /** The text before a match holds no line feed. */
  lemma BeforeMatchNoLineFeed(s: string, m: (nat, nat))
    requires NewlineMatch(s) == Some(m)
    ensures '\n' !in s[..m.0]
  {
    assert forall k :: 0 <= k < m.0 ==> s[..m.0][k] == s[k];
  }

  /** A piece of the split: text without line feeds at even positions, a
      line break at odd positions. */
  predicate PieceOk(parts: seq<string>, i: nat)
    requires i < |parts|
  {
    if i % 2 == 0 then '\n' !in parts[i] else parts[i] == "\n" || parts[i] == "\r\n"
  }

  predicate PiecesOk(parts: seq<string>)
  {
    forall i :: 0 <= i < |parts| ==> PieceOk(parts, i)
  }

  lemma PiecesCons(a: string, b: string, tail: seq<string>)
    requires '\n' !in a && (b == "\n" || b == "\r\n") && PiecesOk(tail)
    ensures PiecesOk([a, b] + tail)
  {
    var parts := [a, b] + tail;
    forall i | 0 <= i < |parts|
      ensures PieceOk(parts, i)
    {
      if i >= 2 {
        assert parts[i] == tail[i - 2];
        assert PieceOk(tail, i - 2);
      }
    }
  }

  /** The pieces alternate: text without line feeds at even positions, one
      line break (`"\n"` or `"\r\n"`) at odd positions, one per line feed. */
  lemma {:induction false} SplitNewlineShape(s: string)
    ensures var parts := SplitNewline(s);
      && |parts| == 2 * multiset(s)['\n'] + 1
      && PiecesOk(parts)
    decreases |s|
  {
    match NewlineMatch(s)
    case None =>
      assert multiset(s)['\n'] == 0;
      assert PieceOk([s], 0);
    case Some(m) =>
      var rest := s[m.1..];
      SplitNewlineShape(rest);
      MatchCountsOneLineFeed(s, m);
      BeforeMatchNoLineFeed(s, m);
      var tail := SplitNewline(rest);
      assert SplitNewline(s) == [s[..m.0], s[m.0..m.1]] + tail;
      PiecesCons(s[..m.0], s[m.0..m.1], tail);
  }

  /** The first two pieces are the text up to and including the first line
      feed. */
  lemma SplitNewlineFirst(s: string)
    requires '\n' in s
    ensures var parts := SplitNewline(s);
      |parts| >= 3 && parts[0] + parts[1] == s[..FindIndex(s, IsLineFeed) + 1]
  {
    var m := NewlineMatch(s).value;
    var f := FindIndex(s, IsLineFeed);
    assert f == m.1 - 1;
    assert s[..f + 1] == s[..m.0] + s[m.0..m.1];
  }

  /** Past the end of a match, the last line feed of the text is the last
      line feed of the rest. */
  lemma LastLineFeedOfRest(s: string, from: nat)
    requires from <= |s| && '\n' in s[from..]
    ensures FindLastIndex(s, IsLineFeed) == from + FindLastIndex(s[from..], IsLineFeed)
  {
    var rest := s[from..];
    var l' := FindLastIndex(rest, IsLineFeed);
    assert s[from + l'] == rest[l'];
    assert forall k :: from + l' < k < |s| ==> s[k] == rest[k - from];
  }

  lemma AfterLastLineFeedOfRest(s: string, from: nat)
    requires from <= |s| && '\n' in s[from..]
    ensures s[FindLastIndex(s, IsLineFeed) + 1..] == s[from..][FindLastIndex(s[from..], IsLineFeed) + 1..]
  {
    LastLineFeedOfRest(s, from);
  }

  /** The last piece is the text after the last line feed. */
  lemma {:induction false} SplitNewlineLast(s: string)
    requires '\n' in s
    ensures var parts := SplitNewline(s);
      |parts| >= 3 && parts[|parts| - 1] == s[FindLastIndex(s, IsLineFeed) + 1..]
    decreases |s|
  {
    var m := NewlineMatch(s).value;
    var rest := s[m.1..];
    var tail := SplitNewline(rest);
    var parts := [s[..m.0], s[m.0..m.1]] + tail;
    assert SplitNewline(s) == parts;
    assert parts[|parts| - 1] == tail[|tail| - 1];
    if '\n' in rest {
      SplitNewlineLast(rest);
      AfterLastLineFeedOfRest(s, m.1);
    } else {
      assert tail == [rest];
      LastLineFeedIsMatch(s, m);
    }
  }

  /** With no line feed after the match, the match's line feed is the
      last one. */
  lemma LastLineFeedIsMatch(s: string, m: (nat, nat))
    requires NewlineMatch(s) == Some(m) && '\n' !in s[m.1..]
    ensures FindLastIndex(s, IsLineFeed) == m.1 - 1
  {
    var rest := s[m.1..];
    assert forall k :: m.1 <= k < |s| ==> s[k] == rest[k - m.1];
    var r := FindLastIndex(s, IsLineFeed);
    assert IsLineFeed(s[m.1 - 1]);
  }

  /** `parseWhitespace`: a whitespace run as Spaces/Newline pseudo-tokens,
      keeping only the first and the last line of a run that holds two or
      more line breaks (so blank lines disappear), dropping empty pieces. */
  function ParseWhitespace(ws: string): (r: seq<Token>)
  {
    var parts := SplitNewline(ws);
    var items := if |parts| >= 5 then parts[..2] + parts[|parts| - 1..] else parts;
    Filter(Typed(items), NonEmptyCode)
  }

  /** `items.map((data, index) => ...)`: even positions become Spaces,
      odd positions Newline. */
  function Typed(items: seq<string>): (r: seq<Token>)
    ensures |r| == |items|
  {
    seq(|items|, i requires 0 <= i < |items| =>
      if i % 2 == 0 then SpacesToken(items[i]) else NewlineToken(items[i]))
  }

  predicate NonEmptyCode(t: Token) { t.code != "" }

  /** `printTokens`: the concatenated source text of the tokens. */
  function PrintTokens(tokens: seq<Token>): string
  {
    if |tokens| == 0 then "" else PrintTokens(tokens[..|tokens| - 1]) + tokens[|tokens| - 1].code
  }

  lemma {:induction false} PrintTokensAppend(a: seq<Token>, b: seq<Token>)
    ensures PrintTokens(a + b) == PrintTokens(a) + PrintTokens(b)
    decreases |b|
  {
    if |b| == 0 {
      assert a + b == a;
    } else {
      assert (a + b)[..|a + b| - 1] == a + b[..|b| - 1];
      PrintTokensAppend(a, b[..|b| - 1]);
    }
  }

  lemma FilterThree(a: Token, b: Token, c: Token)
    requires b.code != ""
    ensures Filter([a, b, c], NonEmptyCode)
      == (if a.code == "" then [] else [a]) + [b] + (if c.code == "" then [] else [c])
  {
    assert [a, b, c][..2] == [a, b];
    assert [a, b][..1] == [a];
    assert [a][..0] == [];
    assert Filter([a], NonEmptyCode) == if a.code == "" then [] else [a];
    assert Filter([a, b], NonEmptyCode) == Filter([a], NonEmptyCode) + [b];
  }

  /** A Spaces pseudo-token for `code`, or nothing when `code` is empty. */
  function SpacesIfAny(code: string): seq<Token>
  {
    if code == "" then [] else [SpacesToken(code)]
  }

  lemma ParseWhitespaceNoBreak(ws: string)
    requires '\n' !in ws
    ensures ParseWhitespace(ws) == SpacesIfAny(ws)
  {
    SplitNewlineShape(ws);
    assert SplitNewline(ws) == [ws];
    assert Typed([ws]) == [SpacesToken(ws)];
    assert [SpacesToken(ws)][..0] == [];
  }

  /** The three pieces `parseWhitespace` keeps of a run with a line
      break: the text before the first break, the break, and the text after
      the last line feed. */
  function KeptPieces(ws: string): seq<string>
    requires '\n' in ws
  {
    var m := NewlineMatch(ws).value;
    [ws[..m.0], ws[m.0..m.1], ws[FindLastIndex(ws, IsLineFeed) + 1..]]
  }

  /** Keeping the first two and the last of five or more pieces, or all of
      three, keeps the first two and the last. */
  lemma KeepFirstAndLast(parts: seq<string>)
    requires |parts| >= 3 && |parts| % 2 == 1
    ensures (if |parts| >= 5 then parts[..2] + parts[|parts| - 1..] else parts)
      == [parts[0], parts[1], parts[|parts| - 1]]
  {
  }

  lemma KeptPiecesOfSplit(ws: string)
    requires '\n' in ws
    ensures var parts := SplitNewline(ws);
      |parts| >= 3 && KeptPieces(ws) == [parts[0], parts[1], parts[|parts| - 1]]
  {
    var m := NewlineMatch(ws).value;
    SplitNewlineLast(ws);
    assert SplitNewline(ws)[0] == ws[..m.0] && SplitNewline(ws)[1] == ws[m.0..m.1];
  }

  lemma ParseWhitespaceItems(ws: string)
    requires '\n' in ws
    ensures ParseWhitespace(ws) == Filter(Typed(KeptPieces(ws)), NonEmptyCode)
  {
    KeptPiecesOfSplit(ws);
    KeepFirstAndLast(SplitNewline(ws));
  }

  lemma FilteredPieces(ws: string)
    requires '\n' in ws
    ensures var k := KeptPieces(ws);
      Filter(Typed(k), NonEmptyCode) == SpacesIfAny(k[0]) + [NewlineToken(k[1])] + SpacesIfAny(k[2])
  {
    var k := KeptPieces(ws);
    assert Typed(k) == [SpacesToken(k[0]), NewlineToken(k[1]), SpacesToken(k[2])];
    var m := NewlineMatch(ws).value;
    MatchCountsOneLineFeed(ws, m);
    FilterThree(SpacesToken(k[0]), NewlineToken(k[1]), SpacesToken(k[2]));
  }

  /** `parseWhitespace` in closed form: the text before the first line
      break, that line break, and the text after the last line feed. */
  lemma ParseWhitespaceForm(ws: string)
    requires '\n' in ws
    ensures var k := KeptPieces(ws);
      ParseWhitespace(ws) == SpacesIfAny(k[0]) + [NewlineToken(k[1])] + SpacesIfAny(k[2])
  {
    ParseWhitespaceItems(ws);
    FilteredPieces(ws);
  }

  lemma PrintSpacesIfAny(code: string)
    ensures PrintTokens(SpacesIfAny(code)) == code
  {
    if code != "" {
      assert SpacesIfAny(code)[..0] == [];
    }
  }

  /** Non-empty pseudo-tokens alternating between Spaces and Newline, with
      at most one Newline. */
  predicate WellFormedWhitespace(r: seq<Token>)
  {
    && (forall i :: 0 <= i < |r| ==> r[i].code != "" && (IsSpaces(r[i]) || IsNewline(r[i])))
    && (forall i :: 0 <= i < |r| - 1 ==> (IsSpaces(r[i]) <==> IsNewline(r[i + 1])))
    && (forall i, j :: 0 <= i < j < |r| && IsNewline(r[i]) ==> !IsNewline(r[j]))
  }

  lemma SpacesIfAnyWellFormed(code: string)
    ensures WellFormedWhitespace(SpacesIfAny(code))
  {
  }

  lemma ThreePiecesWellFormed(a: string, b: string, c: string)
    requires b != ""
    ensures WellFormedWhitespace(SpacesIfAny(a) + [NewlineToken(b)] + SpacesIfAny(c))
    ensures PrintTokens(SpacesIfAny(a) + [NewlineToken(b)] + SpacesIfAny(c)) == a + b + c
  {
    var pre := SpacesIfAny(a);
    var nl := [NewlineToken(b)];
    var post := SpacesIfAny(c);
    PrintTokensAppend(pre, nl);
    PrintTokensAppend(pre + nl, post);
    PrintSpacesIfAny(a);
    PrintSpacesIfAny(c);
    assert PrintTokens(nl) == b by {
      assert nl[..0] == [];
    }
  }

  lemma FirstTwoPieces(ws: string)
    requires '\n' in ws
    ensures var k := KeptPieces(ws); k[0] + k[1] == ws[..FindIndex(ws, IsLineFeed) + 1]
  {
    var k := KeptPieces(ws);
    SplitNewlineFirst(ws);
    assert SplitNewline(ws)[0] == k[0] && SplitNewline(ws)[1] == k[1];
  }

  lemma ParseWhitespaceBreak(ws: string)
    requires '\n' in ws
    ensures WellFormedWhitespace(ParseWhitespace(ws))
    ensures PrintTokens(ParseWhitespace(ws)) == RemovedBlankLines(ws)
  {
    ParseWhitespaceForm(ws);
    var k := KeptPieces(ws);
    var m := NewlineMatch(ws).value;
    MatchCountsOneLineFeed(ws, m);
    ThreePiecesWellFormed(k[0], k[1], k[2]);
    FirstTwoPieces(ws);
  }

  /** The result of `parseWhitespace`: non-empty pseudo-tokens alternating
      between Spaces and Newline, at most one Newline; printing them gives
      the run with everything between its first and its last line break
      removed. */
  lemma ParseWhitespaceShape(ws: string)
    ensures WellFormedWhitespace(ParseWhitespace(ws))
    ensures PrintTokens(ParseWhitespace(ws)) == RemovedBlankLines(ws)
  {
    if '\n' !in ws {
      ParseWhitespaceNoBreak(ws);
      SpacesIfAnyWellFormed(ws);
      PrintSpacesIfAny(ws);
    } else {
      ParseWhitespaceBreak(ws);
    }
  }

  /** The text that remains of `ws` once its blank lines are removed: up to
      and including the first line break, then everything after the last
      one. */
  function RemovedBlankLines(ws: string): string
  {
    if '\n' !in ws then ws
    else ws[..FindIndex(ws, IsLineFeed) + 1] + ws[FindLastIndex(ws, IsLineFeed) + 1..]
  }

  lemma TwoLineFeeds(ws: string, f: nat, l: nat)
    requires f < l < |ws| && ws[f] == '\n' && ws[l] == '\n'
    ensures multiset(ws)['\n'] >= 2
  {
    assert ws == ws[..f + 1] + ws[f + 1..];
    assert multiset(ws) == multiset(ws[..f + 1]) + multiset(ws[f + 1..]);
    assert ws[f] in ws[..f + 1];
    assert ws[l] in ws[f + 1..];
  }

  lemma RemovedBlankLinesKeepsSingleLines(ws: string)
    ensures multiset(ws)['\n'] <= 1 ==> RemovedBlankLines(ws) == ws
    ensures |RemovedBlankLines(ws)| <= |ws|
  {
    if '\n' in ws {
      var f := FindIndex(ws, IsLineFeed);
      var l := FindLastIndex(ws, IsLineFeed);
      assert ws == ws[..f + 1] + ws[f + 1..l + 1] + ws[l + 1..];
      if f < l {
        TwoLineFeeds(ws, f, l);
      } else {
        assert ws[f + 1..l + 1] == [];
      }
    }
  }

  /** `removeBlankLines`: `printTokens(parseWhitespace(ws))`. */
  function RemoveBlankLines(ws: string): (r: string)
    ensures r == RemovedBlankLines(ws)
    ensures multiset(ws)['\n'] <= 1 ==> r == ws
    ensures |r| <= |ws|
  {
    ParseWhitespaceShape(ws);
    RemovedBlankLinesKeepsSingleLines(ws);
    PrintTokens(ParseWhitespace(ws))
  }
}
