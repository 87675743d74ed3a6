/**
 * The emphasis test cases of parser/main.cpp, as consequences of the
 * general success lemmas: each input is lexed into exactly the one token
 * the test expects. The input is a parameter pinned by the precondition,
 * so that the proof goes through the general lemmas rather than by
 * evaluating the lexer on the literal.
 */
module SourceCases {
  import opened Chars
  import opened Tokens
  import opened Scan
  import ScanProps

  /** A text whose first construct runs to its end is lexed as that one token. */
  lemma {:induction false} OneToken(t: string, s: Step)
    requires 0 < |t| && t[0] != '\n' && t[0] != '\0'
    requires s == Dispatch(t, 0) && s.next == |t|
    ensures Tokenize(t, 0) == [s.tok]
  {
    assert NextToken(t, 0) == s;
    TokenizeStep(t, 0, s.tok, s.next);
    TokenizeStep(t, |t|, Eof(), |t|);
  }

  /** "Basic Bold Test". */
  lemma {:induction false} BoldCase(t: string)
    requires t == "**bold**"
    ensures Tokenize(t, 0) == [Tok(Bold, "bold")]
  {
    ScanProps.BoldRecognised(t, 0, "bold");
    OneToken(t, Dispatch(t, 0));
  }

  /** "Basic Italic Test". */
  lemma {:induction false} ItalicCase(t: string)
    requires t == "*italic*"
    ensures Tokenize(t, 0) == [Tok(Italic, "italic")]
  {
    ScanProps.ItalicRecognised(t, 0, "italic");
    OneToken(t, Dispatch(t, 0));
  }
}
