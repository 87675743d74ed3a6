/**
 * Tokens as the lexers produce them: a type tag, the value string and,
 * for the newer lexer, an end-of-input flag.
 */
module Tokens {

  /** The token types, in the order of the source's enum. */
  datatype TokenType = Text | H1 | H2 | H3 | H4 | H5 | H6 | Bold | Italic | Link | Image | List

  /**
   * A token. LINK and IMAGE carry `label + "|" + url` in `value`.
   * `isEof` is only ever set by `Eof()`; the older lexer never sets it.
   */
  datatype Token = Token(kind: TokenType, value: string, isEof: bool)

  /** `Token(type, value)`: an ordinary token. */
  function Tok(kind: TokenType, value: string): Token {
    Token(kind, value, false)
  }

  /** `Token::createEOF()`: an empty TEXT token marked as the end, unlike any ordinary token. */
  function Eof(): (r: Token)
    ensures r.isEof && r.kind == Text && r.value == ""
    ensures forall k, v :: Tok(k, v) != r
  {
    Token(Text, "", true)
  }

  predicate IsHeading(kind: TokenType) {
    kind == H1 || kind == H2 || kind == H3 || kind == H4 || kind == H5 || kind == H6
  }

  /** The heading type for a level in 1..6. */
  function HeadingKind(level: nat): (k: TokenType)
    requires 1 <= level <= 6
    ensures IsHeading(k)
    ensures level == 1 <==> k == H1
  {
    match level
    case 1 => H1
    case 2 => H2
    case 3 => H3
    case 4 => H4
    case 5 => H5
    case _ => H6
  }

  /** `isInlineElement`. */
  predicate IsInlineElement(kind: TokenType) {
    kind == Bold || kind == Italic || kind == Link || kind == Image
  }

  /** `isBlockElement`: the headings and LIST. */
  predicate IsBlockElement(kind: TokenType) {
    IsHeading(kind) || kind == List
  }

  /**
   * Every token type is exactly one of TEXT, inline or block: the block
   * types are those that are neither TEXT nor inline, and no inline type
   * is a heading or LIST.
   */
  lemma {:induction false} KindClasses(kind: TokenType)
    ensures IsBlockElement(kind) <==> kind != Text && !IsInlineElement(kind)
    ensures IsInlineElement(kind) ==> !IsHeading(kind) && kind != List
  {
  }

  /**
   * The switch closing both `handle_heading`s: levels 1..6 give a heading,
   * any other level falls to the `default` branch, a TEXT token of
   * `original + content`.
   */
  function LevelToken(level: int, content: string, original: string): (tok: Token)
    ensures !tok.isEof
    ensures 1 <= level <= 6 ==> tok == Tok(HeadingKind(level), content)
    ensures !(1 <= level <= 6) ==> tok == Tok(Text, original + content)
  {
    if level == 1 then Tok(H1, content)
    else if level == 2 then Tok(H2, content)
    else if level == 3 then Tok(H3, content)
    else if level == 4 then Tok(H4, content)
    else if level == 5 then Tok(H5, content)
    else if level == 6 then Tok(H6, content)
    else Tok(Text, original + content)
  }
}
