/** Tokens, comments and statement nodes as the engine sees them, and the
    token-kind predicates of src/utils/astNodeTypeUtils.ts. */
module AstNodeTypes {
  import opened Wrappers

  /** A 1-based line and 0-based column, as in ESLint's `loc`. */
  datatype Position = Position(line: nat, column: nat)

  /** A character range `[start, end)` with its line/column endpoints. */
  datatype Location = Location(start: nat, end: nat, startPos: Position, endPos: Position)

  /** A lexer token, a comment (`kind` "Block" or "Line") or a whitespace
      pseudo-token (`kind` "Spaces" or "Newline"); `kind` is ESLint's `type`
      tag and `code` the token's exact source text. Pseudo-tokens have
      neither `value` nor `loc`. */
  datatype Token = Token(kind: string, code: string, value: Option<string>, loc: Option<Location>)

  /** The string-valued `source` literal of an import/export statement. */
  datatype Literal = Literal(value: string, loc: Location)

  /** A top-level statement; `kind` is its AST `type`. `specifiers` holds
      the type tags of the node's specifier list (absent for
      `export * from`); `importKind`/`exportKind` are the optional kind
      properties (absent when the parser sets none). */
  datatype Node = Node(
    kind: string,
    source: Option<Literal>,
    hasDeclaration: bool,
    specifiers: Option<seq<string>>,
    importKind: Option<string>,
    exportKind: Option<string>,
    loc: Location)

  /** Pseudo-token for a run of whitespace without line breaks. */
  function SpacesToken(code: string): Token
  {
    Token("Spaces", code, None, None)
  }

  /** Pseudo-token for one line break (`"\n"` or `"\r\n"`). */
  function NewlineToken(code: string): Token
  {
    Token("Newline", code, None, None)
  }

  predicate IsIdentifier(t: Token) { t.kind == "Identifier" }

  predicate IsKeyword(t: Token) { t.kind == "Keyword" }

  /** A punctuator token whose value is `v`; pseudo-tokens have no value. */
  predicate IsPunctuator(t: Token, v: string) { t.kind == "Punctuator" && t.value == Some(v) }

  predicate IsBlockComment(t: Token) { t.kind == "Block" }

  predicate IsLineComment(t: Token) { t.kind == "Line" }

  predicate IsSpaces(t: Token) { t.kind == "Spaces" }

  predicate IsNewline(t: Token) { t.kind == "Newline" }

  /** Whitespace or a comment: the tokens the specifier machine treats as
      trivia in its 'before' state. */
  predicate IsTrivia(t: Token)
  {
    IsSpaces(t) || IsNewline(t) || IsBlockComment(t) || IsLineComment(t)
  }

  function One(b: bool): nat { if b then 1 else 0 }

  /** The kind predicates are mutually exclusive: a token has one kind tag. */
  lemma KindsExclusive(t: Token)
    ensures One(IsIdentifier(t)) + One(IsKeyword(t)) + One(IsBlockComment(t))
          + One(IsLineComment(t)) + One(IsSpaces(t)) + One(IsNewline(t)) <= 1
    ensures IsPunctuator(t, ",") ==> !IsTrivia(t) && !IsIdentifier(t) && !IsKeyword(t)
  {
  }

  /** Whitespace pseudo-tokens are never identifiers, keywords or
      punctuators of any value. */
  lemma PseudoTokensAreNotCode(code: string, v: string)
    ensures var s := SpacesToken(code); !IsIdentifier(s) && !IsKeyword(s) && !IsPunctuator(s, v) && IsTrivia(s)
    ensures var n := NewlineToken(code); !IsIdentifier(n) && !IsKeyword(n) && !IsPunctuator(n, v) && IsTrivia(n)
  {
  }
}
