/** The specifier decomposition of src/utils/utils-clone.ts
    (`getSpecifierItems`): a before/specifier/after state machine over the
    tokens strictly between the `{` and `}` of an import/export specifier
    list, which attributes every whitespace and comment token either to a
    binding or to the braces. */
module Specifiers {
  import opened Wrappers
  import opened CommonUtils
  import opened AstNodeTypes
  import opened WhiteSpace

  /** The three states of one pending specifier item. */
  datatype State = Before | InSpecifier | After

  /** One binding (`a`, `a as b`, `type a as b`) with its own trivia. */
  datatype SpecifierItem = SpecifierItem(
    before: seq<Token>,
    specifier: seq<Token>,
    after: seq<Token>,
    hadComma: bool,
    state: State)

  /** The list: trivia owned by `{`, the items, trivia owned by `}`. */
  datatype SpecifierItems = SpecifierItems(before: seq<Token>, after: seq<Token>, items: seq<SpecifierItem>)

  /** The loop's variables: the partial result and the current item. */
  datatype Machine = Machine(result: SpecifierItems, current: SpecifierItem)

  function EmptyItem(): SpecifierItem
  {
    SpecifierItem([], [], [], false, Before)
  }

  const Start: Machine := Machine(SpecifierItems([], [], []), EmptyItem())

  predicate IsIdentifierOrKeyword(t: Token) { IsIdentifier(t) || IsKeyword(t) }

  /** A block comment spanning several lines. */
  predicate IsMultilineBlock(t: Token) { IsBlockComment(t) && HasNewline(t.code) }

  /** `endsWithSpaces`: the last token is a Spaces pseudo-token. */
  predicate EndsWithSpaces(tokens: seq<Token>)
  {
    |tokens| > 0 && IsSpaces(tokens[|tokens| - 1])
  }

  /** No trivia, and no specifier has been started yet. */
  predicate AtListStart(r: SpecifierItems)
  {
    |r.before| == 0 && |r.items| == 0
  }

  /** One iteration of the loop over the tokens. */
  function Step(m: Machine, t: Token): Machine
  {
    var r := m.result;
    var c := m.current;
    match c.state
    case Before =>
      if t.kind == "Newline" then
        var c' := c.(before := c.before + [t]);
        if AtListStart(r) then Machine(r.(before := c'.before), EmptyItem()) else Machine(r, c')
      else if t.kind == "Spaces" || t.kind == "Block" || t.kind == "Line" then
        Machine(r, c.(before := c.before + [t]))
      else
        var m' := if AtListStart(r) then Machine(r.(before := c.before), EmptyItem()) else m;
        Machine(m'.result, m'.current.(state := InSpecifier, specifier := m'.current.specifier + [t]))
    case InSpecifier =>
      if t.kind == "Punctuator" && IsPunctuator(t, ",") then
        Machine(r, c.(hadComma := true, state := After))
      else
        Machine(r, c.(specifier := c.specifier + [t]))
    case After =>
      if t.kind == "Newline" then
        Machine(r.(items := r.items + [c.(after := c.after + [t])]), EmptyItem())
      else if t.kind == "Spaces" || t.kind == "Line" then
        Machine(r, c.(after := c.after + [t]))
      else if t.kind == "Block" then
        if HasNewline(t.code) then Machine(r.(items := r.items + [c]), EmptyItem().(before := [t]))
        else Machine(r, c.(after := c.after + [t]))
      else
        Machine(r.(items := r.items + [c]), EmptyItem().(state := InSpecifier, specifier := [t]))
  }

  /** The loop: `Step` over the tokens in order. */
  function Run(tokens: seq<Token>): Machine
  {
    if |tokens| == 0 then Start else Step(Run(tokens[..|tokens| - 1]), tokens[|tokens| - 1])
  }

  /** End-of-input split of a last specifier that had no trailing comma:
      the binding up to its last identifier or keyword, the trivia that
      stays with it, and the rest that goes to the `}`. */
  function SplitSpecifierTail(spec: seq<Token>): (r: (seq<Token>, seq<Token>, seq<Token>))
    ensures spec == r.0 + r.1 + r.2
  {
    var cut := BindingEnd(spec);
    var sliceIndex := TailSliceIndex(spec[cut..]);
    var end := if sliceIndex == -1 then |spec| else cut + sliceIndex;
    SliceThree(spec, cut, end);
    (spec[..cut], spec[cut..end], spec[end..])
  }

  /** One past the last identifier or keyword (0 when there is none). */
  function BindingEnd(spec: seq<Token>): (r: nat)
    ensures r <= |spec|
    ensures r == 0 || IsIdentifierOrKeyword(spec[r - 1])
    ensures forall i :: r <= i < |spec| ==> !IsIdentifierOrKeyword(spec[i])
  {
    FindLastIndex(spec, IsIdentifierOrKeyword) + 1
  }

  lemma ConcatAssoc<T>(a: seq<T>, b: seq<T>, c: seq<T>, d: seq<T>)
    ensures (a + b + c) + d == a + (b + c + d)
  {
  }

  lemma SliceThree<T>(s: seq<T>, i: nat, j: nat)
    requires i <= j <= |s|
    ensures s == s[..i] + s[i..j] + s[j..]
  {
  }

  /** Where the trailing trivia of the last binding is cut: after the first
      newline, before the first multiline block comment, whichever comes
      first; otherwise before trailing spaces; -1 for no cut. */
  function TailSliceIndex(after: seq<Token>): (r: int)
    ensures -1 <= r <= |after|
  {
    var newlineIndexRaw := FindIndex(after, IsNewline);
    var newlineIndex := if newlineIndexRaw == -1 then -1 else newlineIndexRaw + 1;
    var multilineBlockCommentIndex := FindIndex(after, IsMultilineBlock);
    if newlineIndex >= 0 && multilineBlockCommentIndex >= 0 then
      if newlineIndex <= multilineBlockCommentIndex then newlineIndex else multilineBlockCommentIndex
    else if newlineIndex >= 0 then newlineIndex
    else if multilineBlockCommentIndex >= 0 then multilineBlockCommentIndex
    else if EndsWithSpaces(after) then |after| - 1
    else -1
  }

  /** The cut is at the first token that is a newline (kept) or a multiline
      block comment (not kept), and otherwise drops one trailing Spaces. */
  lemma TailSliceAtFirstBreak(after: seq<Token>)
    ensures var j := FindIndex(after, IsLineBreakOrMultiline);
      var k := TailSliceIndex(after);
      if j >= 0 then k == (if IsNewline(after[j]) then j + 1 else j)
      else if EndsWithSpaces(after) then k == |after| - 1
      else k == -1
  {
    SplitPointIsFirstBreak(after);
  }

  /** The binding keeps everything up to its last identifier or keyword;
      nothing after that is an identifier or keyword. */
  lemma SplitSpecifierTailBinding(spec: seq<Token>)
    ensures var r := SplitSpecifierTail(spec);
      && (r.0 == [] || IsIdentifierOrKeyword(r.0[|r.0| - 1]))
      && forall i :: |r.0| <= i < |spec| ==> !IsIdentifierOrKeyword(spec[i])
  {
  }

  /** A line break or a multiline block comment: where the trailing trivia
      of the last binding stops. */
  predicate IsLineBreakOrMultiline(t: Token) { IsNewline(t) || IsMultilineBlock(t) }

  /** The "earlier of the first newline (inclusive) and the first multiline
      block comment (exclusive)" is the first token that is either. */
  lemma SplitPointIsFirstBreak(after: seq<Token>)
    ensures var nl := FindIndex(after, IsNewline);
      var mb := FindIndex(after, IsMultilineBlock);
      var j := FindIndex(after, IsLineBreakOrMultiline);
      && (j == -1 <==> nl == -1 && mb == -1)
      && (j >= 0 && IsNewline(after[j]) ==> nl == j && (mb == -1 || j + 1 <= mb))
      && (j >= 0 && !IsNewline(after[j]) ==> mb == j && (nl == -1 || j < nl + 1))
  {
  }

  /** End of input: what is still pending in the current item. */
  function Finish(m: Machine): SpecifierItems
  {
    var r := m.result;
    var c := m.current;
    match c.state
    case Before => r.(after := c.before)
    case InSpecifier =>
      var split := SplitSpecifierTail(c.specifier);
      r.(items := r.items + [c.(specifier := split.0, after := split.1)], after := split.2)
    case After =>
      if EndsWithSpaces(c.after) then
        r.(items := r.items + [c.(after := c.after[..|c.after| - 1])], after := [c.after[|c.after| - 1]])
      else
        r.(items := r.items + [c])
  }

  /** `getSpecifierItems(tokens)`. */
  function GetSpecifierItems(tokens: seq<Token>): SpecifierItems
  {
    Finish(Run(tokens))
  }

  // ---------------------------------------------------------------------
  // Token preservation
  // ---------------------------------------------------------------------

  /** Stand-in for the comma that ended a binding: the machine drops that
      token and only records `hadComma`. */
  const CommaToken: Token := Token("Punctuator", ",", Some(","), None)

  function FlatItem(it: SpecifierItem): seq<Token>
  {
    it.before + it.specifier + (if it.hadComma then [CommaToken] else []) + it.after
  }

  function FlatItems(items: seq<SpecifierItem>): seq<Token>
  {
    if |items| == 0 then [] else FlatItems(items[..|items| - 1]) + FlatItem(items[|items| - 1])
  }

  /** The list printed back in its original order. */
  function Flat(r: SpecifierItems): seq<Token>
  {
    r.before + FlatItems(r.items) + r.after
  }

  /** The loop state printed back: result so far plus the pending item. */
  function FlatMachine(m: Machine): seq<Token>
  {
    m.result.before + FlatItems(m.result.items) + FlatItem(m.current)
  }

  /** `x` reproduces the input token `y`, or stands for a dropped comma. */
  predicate TokenMatches(x: Token, y: Token)
  {
    x == y || (x == CommaToken && IsPunctuator(y, ","))
  }

  predicate Matches(xs: seq<Token>, ys: seq<Token>)
  {
    |xs| == |ys| && forall i :: 0 <= i < |xs| ==> TokenMatches(xs[i], ys[i])
  }

  /** What the pending item owes: an empty tail before a comma was seen, a
      comma once it was. */
  predicate Shaped(m: Machine)
  {
    && m.result.after == []
    && (m.current.state == Before ==> m.current.specifier == [] && m.current.after == [] && !m.current.hadComma)
    && (m.current.state == InSpecifier ==> m.current.after == [] && !m.current.hadComma)
    && (m.current.state == After ==> m.current.hadComma)
  }

  /** What one step appends to the printed state: the token itself, or the
      stand-in when it is the comma ending a binding. */
  function Echo(m: Machine, t: Token): Token
  {
    if m.current.state == InSpecifier && t.kind == "Punctuator" && IsPunctuator(t, ",") then CommaToken else t
  }

  lemma FlatItemsAppend(items: seq<SpecifierItem>, it: SpecifierItem)
    ensures FlatItems(items + [it]) == FlatItems(items) + FlatItem(it)
  {
    assert (items + [it])[..|items|] == items;
  }

  lemma StepEchoesBefore(m: Machine, t: Token)
    requires Shaped(m) && m.current.state == Before
    ensures Shaped(Step(m, t))
    ensures FlatMachine(Step(m, t)) == FlatMachine(m) + [Echo(m, t)]
  {
    if t.kind == "Newline" {
      if AtListStart(m.result) {
      }
    } else if t.kind == "Spaces" || t.kind == "Block" || t.kind == "Line" {
    } else if AtListStart(m.result) {
    }
  }

  lemma StepEchoesInSpecifier(m: Machine, t: Token)
    requires Shaped(m) && m.current.state == InSpecifier
    ensures Shaped(Step(m, t))
    ensures FlatMachine(Step(m, t)) == FlatMachine(m) + [Echo(m, t)]
  {
  }

  lemma StepEchoesAfter(m: Machine, t: Token)
    requires Shaped(m) && m.current.state == After
    ensures Shaped(Step(m, t))
    ensures FlatMachine(Step(m, t)) == FlatMachine(m) + [Echo(m, t)]
  {
    var r := m.result;
    var c := m.current;
    if t.kind == "Newline" {
      FlatItemsAppend(r.items, c.(after := c.after + [t]));
    } else if t.kind == "Spaces" || t.kind == "Line" {
    } else if t.kind == "Block" && !HasNewline(t.code) {
    } else {
      FlatItemsAppend(r.items, c);
    }
  }

  lemma StepEchoes(m: Machine, t: Token)
    requires Shaped(m)
    ensures Shaped(Step(m, t))
    ensures FlatMachine(Step(m, t)) == FlatMachine(m) + [Echo(m, t)]
  {
    match m.current.state
    case Before => StepEchoesBefore(m, t);
    case InSpecifier => StepEchoesInSpecifier(m, t);
    case After => StepEchoesAfter(m, t);
  }

  lemma {:induction false} RunEchoes(tokens: seq<Token>)
    ensures Shaped(Run(tokens))
    ensures Matches(FlatMachine(Run(tokens)), tokens)
    decreases |tokens|
  {
    if |tokens| > 0 {
      var front := tokens[..|tokens| - 1];
      RunEchoes(front);
      StepEchoes(Run(front), tokens[|tokens| - 1]);
      assert tokens == front + [tokens[|tokens| - 1]];
    }
  }

  lemma FlatItemSplit(c: SpecifierItem, b0: seq<Token>, b1: seq<Token>, b2: seq<Token>)
    requires c.specifier == b0 + b1 + b2 && c.after == [] && !c.hadComma
    ensures FlatItem(c.(specifier := b0, after := b1)) + b2 == FlatItem(c)
  {
    ConcatAssoc(c.before, b0, b1, b2);
  }

  lemma FinishInSpecifierForm(m: Machine)
    requires m.current.state == InSpecifier
    ensures var split := SplitSpecifierTail(m.current.specifier);
      Finish(m) == m.result.(items := m.result.items + [m.current.(specifier := split.0, after := split.1)], after := split.2)
  {
  }

  lemma FinishKeepsTokensInSpecifier(m: Machine)
    requires Shaped(m) && m.current.state == InSpecifier
    ensures Flat(Finish(m)) == FlatMachine(m)
  {
    var r := m.result;
    var c := m.current;
    var split := SplitSpecifierTail(c.specifier);
    var it := c.(specifier := split.0, after := split.1);
    FinishInSpecifierForm(m);
    FlatItemSplit(c, split.0, split.1, split.2);
    FlatItemsAppend(r.items, it);
    Regroup(r.before, FlatItems(r.items), FlatItem(it), split.2, FlatItem(c));
  }

  lemma Regroup<T>(a: seq<T>, b: seq<T>, c: seq<T>, d: seq<T>, e: seq<T>)
    requires c + d == e
    ensures a + (b + c) + d == a + b + e
  {
  }

  lemma FinishKeepsTokensAfter(m: Machine)
    requires Shaped(m) && m.current.state == After
    ensures Flat(Finish(m)) == FlatMachine(m)
  {
    var r := m.result;
    var c := m.current;
    if EndsWithSpaces(c.after) {
      var it := c.(after := c.after[..|c.after| - 1]);
      FlatItemsAppend(r.items, it);
      assert c.after == it.after + [c.after[|c.after| - 1]];
      assert FlatItem(it) + [c.after[|c.after| - 1]] == FlatItem(c);
    } else {
      FlatItemsAppend(r.items, c);
    }
  }

  lemma FinishKeepsTokens(m: Machine)
    requires Shaped(m)
    ensures Flat(Finish(m)) == FlatMachine(m)
  {
    match m.current.state
    case Before =>
    case InSpecifier => FinishKeepsTokensInSpecifier(m);
    case After => FinishKeepsTokensAfter(m);
  }

  /** Flattening the result — the braces' leading trivia, every item's
      before, binding, comma (when it had one) and after, then the braces'
      trailing trivia — gives back the input token sequence exactly, except
      that a comma that ended a binding appears as the stand-in comma. */
  lemma GetSpecifierItemsKeepsTokens(tokens: seq<Token>)
    ensures Matches(Flat(GetSpecifierItems(tokens)), tokens)
  {
    RunEchoes(tokens);
    FinishKeepsTokens(Run(tokens));
  }

  /** Consequently the printed text is unchanged, given that every comma
      punctuator's source text is ",". */
  lemma GetSpecifierItemsKeepsText(tokens: seq<Token>)
    requires forall i :: 0 <= i < |tokens| ==> IsPunctuator(tokens[i], ",") ==> tokens[i].code == ","
    ensures PrintTokens(Flat(GetSpecifierItems(tokens))) == PrintTokens(tokens)
  {
    GetSpecifierItemsKeepsTokens(tokens);
    MatchesPrintSame(Flat(GetSpecifierItems(tokens)), tokens);
  }

  lemma {:induction false} MatchesPrintSame(xs: seq<Token>, ys: seq<Token>)
    requires Matches(xs, ys)
    requires forall i :: 0 <= i < |ys| ==> IsPunctuator(ys[i], ",") ==> ys[i].code == ","
    ensures PrintTokens(xs) == PrintTokens(ys)
    decreases |xs|
  {
    if |xs| > 0 {
      var n := |xs| - 1;
      MatchesPrintSame(xs[..n], ys[..n]);
    }
  }

  /** Reference reading of which trailing trivia a last binding keeps:
      through the first newline, or up to the first multiline block
      comment, whichever comes first; failing both, all but a final run of
      spaces. */
  function KeptTrivia(tail: seq<Token>): seq<Token>
  {
    var j := FindIndex(tail, IsLineBreakOrMultiline);
    if j >= 0 then (if IsNewline(tail[j]) then tail[..j + 1] else tail[..j])
    else if EndsWithSpaces(tail) then tail[..|tail| - 1]
    else tail
  }

  /** The split made with the two separate searches of the source agrees
      with the single-scan reading. */
  lemma SplitSpecifierTailTrivia(spec: seq<Token>)
    ensures var r := SplitSpecifierTail(spec);
      r.1 == KeptTrivia(spec[|r.0|..])
  {
    var tail := spec[BindingEnd(spec)..];
    SplitSpecifierTailForm(spec);
    TailSliceAtFirstBreak(tail);
    KeptTriviaIsTailSlice(tail);
  }

  lemma KeptTriviaIsTailSlice(tail: seq<Token>)
    ensures var k := TailSliceIndex(tail);
      KeptTrivia(tail) == (if k == -1 then tail else tail[..k])
  {
    TailSliceAtFirstBreak(tail);
  }

  lemma SplitSpecifierTailForm(spec: seq<Token>)
    ensures var cut := BindingEnd(spec);
      var tail := spec[cut..];
      var k := TailSliceIndex(tail);
      var r := SplitSpecifierTail(spec);
      |r.0| == cut && r.1 == (if k == -1 then tail else tail[..k])
  {
    var cut := BindingEnd(spec);
    var tail := spec[cut..];
    var k := TailSliceIndex(tail);
    var end := if k == -1 then |spec| else cut + k;
    assert SplitSpecifierTail(spec) == (spec[..cut], spec[cut..end], spec[end..]);
    if k != -1 {
      assert spec[cut..cut + k] == tail[..k];
    }
  }

  // ---------------------------------------------------------------------
  // Trivia owned by the braces
  // ---------------------------------------------------------------------

  /** Tokens that keep the machine in its Before state. */
  predicate StaysBefore(t: Token) { IsSpaces(t) || IsBlockComment(t) || IsLineComment(t) }

  predicate EndsLeadingRun(t: Token) { !StaysBefore(t) }

  /** The trivia that belongs to the `{`: the leading spaces and comments,
      together with the first line break if that is what ends them. */
  function LeadingTrivia(tokens: seq<Token>): seq<Token>
  {
    var k := FindIndex(tokens, EndsLeadingRun);
    if k == -1 then [] else if IsNewline(tokens[k]) then tokens[..k + 1] else tokens[..k]
  }

  lemma {:induction false} RunOverLeadingRun(s: seq<Token>)
    requires forall i :: 0 <= i < |s| ==> StaysBefore(s[i])
    ensures Run(s) == Machine(Start.result, EmptyItem().(before := s))
    decreases |s|
  {
    if |s| > 0 {
      var front := s[..|s| - 1];
      RunOverLeadingRun(front);
      assert front + [s[|s| - 1]] == s;
    }
  }

  /** After the leading run the braces' trivia is fixed, and the Before
      state is never again at the start of the list. */
  predicate BraceTriviaFixed(m: Machine, b: seq<Token>)
  {
    m.result.before == b && (m.current.state == Before ==> |m.result.items| > 0 || |b| > 0)
  }

  lemma StepKeepsBraceTrivia(m: Machine, t: Token, b: seq<Token>)
    requires BraceTriviaFixed(m, b)
    ensures BraceTriviaFixed(Step(m, t), b)
  {
  }

  lemma {:induction false} RunKeepsBraceTrivia(tokens: seq<Token>, k: nat, b: seq<Token>)
    requires k < |tokens|
    requires BraceTriviaFixed(Run(tokens[..k + 1]), b)
    ensures BraceTriviaFixed(Run(tokens), b)
    decreases |tokens|
  {
    if |tokens| == k + 1 {
      assert tokens[..k + 1] == tokens;
    } else {
      var front := tokens[..|tokens| - 1];
      assert front[..k + 1] == tokens[..k + 1];
      RunKeepsBraceTrivia(front, k, b);
      StepKeepsBraceTrivia(Run(front), tokens[|tokens| - 1], b);
    }
  }

  /** The token that ends the leading run fixes the braces' trivia: the
      run itself, plus that token when it is a line break. */
  lemma StepEndsLeadingRun(pre: seq<Token>, t: Token)
    requires EndsLeadingRun(t)
    ensures BraceTriviaFixed(Step(Machine(Start.result, EmptyItem().(before := pre)), t),
                             if IsNewline(t) then pre + [t] else pre)
  {
  }

  lemma RunEndsLeadingRun(tokens: seq<Token>, k: nat)
    requires k < |tokens| && EndsLeadingRun(tokens[k])
    requires forall i :: 0 <= i < k ==> StaysBefore(tokens[i])
    ensures BraceTriviaFixed(Run(tokens[..k + 1]), if IsNewline(tokens[k]) then tokens[..k + 1] else tokens[..k])
  {
    var pre := tokens[..k];
    assert forall i :: 0 <= i < |pre| ==> pre[i] == tokens[i];
    RunOverLeadingRun(pre);
    assert tokens[..k + 1][..k] == pre;
    StepEndsLeadingRun(pre, tokens[k]);
    assert pre + [tokens[k]] == tokens[..k + 1];
  }

  lemma LeadingRunEnds(tokens: seq<Token>, k: nat)
    requires k < |tokens| && k == FindIndex(tokens, EndsLeadingRun)
    ensures BraceTriviaFixed(Run(tokens[..k + 1]), LeadingTrivia(tokens))
  {
    assert forall i :: 0 <= i < k ==> !EndsLeadingRun(tokens[i]);
    RunEndsLeadingRun(tokens, k);
  }

  /** `result.before` is exactly the leading trivia; when nothing but spaces
      and comments occur, everything goes to the `}` and there are no
      items. */
  lemma GetSpecifierItemsBraceTrivia(tokens: seq<Token>)
    ensures GetSpecifierItems(tokens).before == LeadingTrivia(tokens)
    ensures FindIndex(tokens, EndsLeadingRun) == -1 ==>
      GetSpecifierItems(tokens).items == [] && GetSpecifierItems(tokens).after == tokens
  {
    var k := FindIndex(tokens, EndsLeadingRun);
    if k == -1 {
      RunOverLeadingRun(tokens);
    } else {
      LeadingRunEnds(tokens, k);
      RunKeepsBraceTrivia(tokens, k, LeadingTrivia(tokens));
    }
  }

  // ---------------------------------------------------------------------
  // What each item owns
  // ---------------------------------------------------------------------

  predicate AllTrivia(s: seq<Token>) { forall i :: 0 <= i < |s| ==> IsTrivia(s[i]) }

  predicate NoBreaks(s: seq<Token>) { forall i :: 0 <= i < |s| ==> !IsLineBreakOrMultiline(s[i]) }

  /** Trailing trivia stays on the binding's line: no multiline block
      comment, and a line break only as its last token. */
  predicate SameLine(after: seq<Token>)
  {
    && (forall i :: 0 <= i < |after| ==> !IsMultilineBlock(after[i]))
    && (forall i :: 0 <= i < |after| - 1 ==> !IsNewline(after[i]))
  }

  /** An item closed by the loop: it ended with a comma, and it owns only
      trivia around its binding. */
  predicate ClosedItem(it: SpecifierItem)
  {
    it.hadComma && AllTrivia(it.before) && AllTrivia(it.after) && SameLine(it.after)
  }

  predicate ItemsOk(m: Machine)
  {
    && (forall i :: 0 <= i < |m.result.items| ==> ClosedItem(m.result.items[i]))
    && AllTrivia(m.current.before)
    && AllTrivia(m.current.after)
    && NoBreaks(m.current.after)
  }

  lemma NoBreaksSameLine(s: seq<Token>)
    requires NoBreaks(s)
    ensures SameLine(s)
  {
  }

  lemma ClosedWithNewline(c: SpecifierItem, t: Token)
    requires c.hadComma && AllTrivia(c.before) && AllTrivia(c.after) && NoBreaks(c.after)
    requires IsNewline(t)
    ensures ClosedItem(c.(after := c.after + [t]))
  {
  }

  lemma ItemsOkAppend(items: seq<SpecifierItem>, it: SpecifierItem)
    requires forall i :: 0 <= i < |items| ==> ClosedItem(items[i])
    requires ClosedItem(it)
    ensures forall i :: 0 <= i < |items + [it]| ==> ClosedItem((items + [it])[i])
  {
  }

  lemma StepKeepsItemsOkAfter(m: Machine, t: Token)
    requires Shaped(m) && ItemsOk(m) && m.current.state == After
    ensures ItemsOk(Step(m, t))
  {
    var r := m.result;
    var c := m.current;
    if t.kind == "Newline" {
      ClosedWithNewline(c, t);
      ItemsOkAppend(r.items, c.(after := c.after + [t]));
    } else if t.kind == "Spaces" || t.kind == "Line" {
    } else if t.kind == "Block" && !HasNewline(t.code) {
    } else {
      NoBreaksSameLine(c.after);
      ItemsOkAppend(r.items, c);
    }
  }

  lemma StepKeepsItemsOk(m: Machine, t: Token)
    requires Shaped(m) && ItemsOk(m)
    ensures ItemsOk(Step(m, t))
  {
    if m.current.state == After {
      StepKeepsItemsOkAfter(m, t);
    }
  }

  lemma {:induction false} RunItemsOk(tokens: seq<Token>)
    ensures ItemsOk(Run(tokens))
    decreases |tokens|
  {
    if |tokens| > 0 {
      var front := tokens[..|tokens| - 1];
      RunItemsOk(front);
      RunEchoes(front);
      StepKeepsItemsOk(Run(front), tokens[|tokens| - 1]);
    }
  }

  /** The trivia a last binding keeps is on its own line. */
  lemma KeptTriviaSameLine(tail: seq<Token>)
    ensures SameLine(KeptTrivia(tail))
  {
    var j := FindIndex(tail, IsLineBreakOrMultiline);
    if j >= 0 {
      assert NoBreaks(tail[..j]);
    } else {
      assert NoBreaks(tail);
    }
  }

  lemma SplitSpecifierTailSameLine(spec: seq<Token>)
    ensures SameLine(SplitSpecifierTail(spec).1)
  {
    var r := SplitSpecifierTail(spec);
    SplitSpecifierTailTrivia(spec);
    KeptTriviaSameLine(spec[|r.0|..]);
  }

  /** The last item: trivia before it, on-line trivia after it. */
  predicate LastItemOk(it: SpecifierItem)
  {
    AllTrivia(it.before) && SameLine(it.after)
  }

  lemma FinishItemsOk(m: Machine)
    requires Shaped(m) && ItemsOk(m)
    ensures var r := Finish(m);
      && (forall i :: 0 <= i < |r.items| - 1 ==> ClosedItem(r.items[i]))
      && (|r.items| > 0 ==> LastItemOk(r.items[|r.items| - 1]))
      && (|r.items| > 0 && r.items[|r.items| - 1].hadComma ==> ClosedItem(r.items[|r.items| - 1]))
  {
    var c := m.current;
    match c.state
    case Before =>
    case InSpecifier =>
      SplitSpecifierTailSameLine(c.specifier);
    case After =>
      if EndsWithSpaces(c.after) {
        assert NoBreaks(c.after[..|c.after| - 1]);
        NoBreaksSameLine(c.after[..|c.after| - 1]);
      } else {
        NoBreaksSameLine(c.after);
      }
  }

  /** Every item owns only trivia before its binding; its trailing trivia
      never holds a multiline block comment (that opens the next item) and
      holds a line break only at its end; every item except possibly the
      last was ended by a comma, and such an item owns only trivia after
      its binding too. */
  lemma GetSpecifierItemsOwnership(tokens: seq<Token>)
    ensures var r := GetSpecifierItems(tokens);
      && (forall i :: 0 <= i < |r.items| ==> LastItemOk(r.items[i]))
      && (forall i :: 0 <= i < |r.items| - 1 ==> r.items[i].hadComma)
      && (forall i :: 0 <= i < |r.items| ==> r.items[i].hadComma ==> AllTrivia(r.items[i].after))
  {
    RunEchoes(tokens);
    RunItemsOk(tokens);
    FinishItemsOk(Run(tokens));
  }

  /** In the After state a block comment decides by its extent: a
      multiline one closes the item and starts the next item's leading
      trivia, a single-line one stays with the current binding. */
  lemma AfterStateBlockComment(m: Machine, t: Token)
    requires m.current.state == After && IsBlockComment(t)
    ensures var m' := Step(m, t);
      if HasNewline(t.code) then
        m'.result.items == m.result.items + [m.current] && m'.current.before == [t] && m'.current.state == Before
      else
        m'.result == m.result && m'.current.after == m.current.after + [t] && m'.current.state == After
  {
  }

  /** At end of input, trivia still pending before any binding goes to the
      `}`, and the items are left as they are. */
  lemma FinishPendingTrivia(m: Machine)
    requires m.current.state == Before
    ensures Finish(m).after == m.current.before && Finish(m).items == m.result.items
  {
  }

  // ---------------------------------------------------------------------
  // printWithSortedSpecifiers, up to its early return
  // ---------------------------------------------------------------------

  predicate IsOpenBrace(t: Token) { IsPunctuator(t, "{") }

  predicate IsCloseBrace(t: Token) { IsPunctuator(t, "}") }

  /** The declaration is printed back unchanged when there is no specifier
      list to sort: no `{`, no `}`, or at most one specifier. Otherwise the
      source stops after decomposing the list and yields nothing (`None`). */
  function PrintWithSortedSpecifiers(allTokens: seq<Token>, specifierCount: nat): (r: Option<string>)
    ensures r.Some? <==>
      (forall i :: 0 <= i < |allTokens| ==> !IsOpenBrace(allTokens[i]))
      || (forall i :: 0 <= i < |allTokens| ==> !IsCloseBrace(allTokens[i]))
      || specifierCount <= 1
    ensures r.Some? ==> r.value == Concat(seq(|allTokens|, i requires 0 <= i < |allTokens| => allTokens[i].code))
  {
    var openBraceIndex := FindIndex(allTokens, IsOpenBrace);
    var closeBraceIndex := FindIndex(allTokens, IsCloseBrace);
    if openBraceIndex == -1 || closeBraceIndex == -1 || specifierCount <= 1 then
      PrintTokensIsConcat(allTokens);
      Some(PrintTokens(allTokens))
    else
      None
  }

  lemma {:induction false} PrintTokensIsConcat(tokens: seq<Token>)
    ensures PrintTokens(tokens) == Concat(seq(|tokens|, i requires 0 <= i < |tokens| => tokens[i].code))
    decreases |tokens|
  {
    if |tokens| > 0 {
      var n := |tokens| - 1;
      PrintTokensIsConcat(tokens[..n]);
      var codes := seq(|tokens|, i requires 0 <= i < |tokens| => tokens[i].code);
      var front := seq(n, i requires 0 <= i < n => tokens[..n][i].code);
      assert codes == front + [tokens[n].code];
      ConcatAppend(front, [tokens[n].code]);
    }
  }
}
