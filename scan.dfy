/**
 * What each lexer operation computes, as functions of the input text and
 * the cursor position where it starts. Each function returns the token and
 * the cursor position afterwards; the imperative `Lexing.Lexer` methods are
 * proved to agree with them.
 */
module Scan {
  import opened Chars
  import opened Tokens

  /** The token a call returns and where it leaves the cursor. */
  datatype Step = Step(tok: Token, next: nat)

  /** Where `collect_until(d)` stops: the first `d`, `'\n'` or end of input. */
  function CollectEnd(t: string, p: nat, d: char): (r: nat)
    requires p <= |t|
    ensures p <= r <= |t|
    ensures forall i :: p <= i < r ==> t[i] != d && t[i] != '\n' && t[i] != '\0'
    ensures At(t, r) == '\0' || At(t, r) == d || At(t, r) == '\n'
    decreases |t| - p
  {
    var c := At(t, p);
    if c == '\0' || c == d || c == '\n' then p else CollectEnd(t, p + 1, d)
  }

  /** Where `while (isspace(current_char) && current_char != '\n') advance();` stops. */
  function SkipBlanks(t: string, p: nat): (r: nat)
    requires p <= |t|
    ensures p <= r <= |t|
    ensures forall i :: p <= i < r ==> IsSpace(t[i]) && t[i] != '\n'
    ensures !IsSpace(At(t, r)) || At(t, r) == '\n'
    decreases |t| - p
  {
    var c := At(t, p);
    if IsSpace(c) && c != '\n' then SkipBlanks(t, p + 1) else p
  }

  /** `if (current_char == '\n') advance();` */
  function SkipNewline(t: string, e: nat): (r: nat)
    requires e <= |t|
    ensures r <= |t|
    ensures r == if At(t, e) == '\n' then e + 1 else e
  {
    if At(t, e) == '\n' then e + 1 else e
  }

  /** Where the `#`-counting loop stops, and the level it reached. */
  datatype Run = Run(end: nat, level: nat)

  /** `while (current_char == '#' && level < 6) { level++; advance(); }` */
  function HashRun(t: string, p: nat, level: nat): (r: Run)
    requires p <= |t| && 1 <= level <= 6
    ensures p <= r.end <= |t|
    ensures r.level == level + (r.end - p) && r.level <= 6
    ensures forall i :: p <= i < r.end ==> t[i] == '#'
    ensures r.level == 6 || At(t, r.end) != '#'
    decreases |t| - p
  {
    if At(t, p) == '#' && level < 6 then HashRun(t, p + 1, level + 1) else Run(p, level)
  }

  /** `Lexer::handle_heading` of parser/main.cpp, started on a `#`. */
  function HeadingStep(t: string, p: nat): (s: Step)
    requires p < |t| && t[p] == '#'
    ensures p < s.next <= |t|
    ensures !s.tok.isEof
  {
    var run := HashRun(t, p + 1, 1);
    if !IsSpace(At(t, run.end)) then
      var e := CollectEnd(t, run.end, '\n');
      Step(Tok(Text, Hashes(run.level) + t[run.end..e]), SkipNewline(t, e))
    else
      var c := SkipBlanks(t, run.end);
      var e := CollectEnd(t, c, '\n');
      Step(LevelToken(run.level, t[c..e], Hashes(run.level)), SkipNewline(t, e))
  }

  /** `Lexer::handle_emphasis`, started on a `*`. */
  function EmphasisStep(t: string, p: nat): (s: Step)
    requires p < |t| && t[p] == '*'
    ensures p < s.next <= |t|
    ensures !s.tok.isEof
  {
    if At(t, p + 1) == '*' then
      var e := CollectEnd(t, p + 2, '*');
      if At(t, e) == '*' && At(t, e + 1) == '*' then
        Step(Tok(Bold, t[p + 2..e]), e + 2)
      else
        Step(Tok(Text, "**" + t[p + 2..e] + (if At(t, e) == '*' then "*" else "")), e)
    else
      var e := CollectEnd(t, p + 1, '*');
      if At(t, e) == '*' then Step(Tok(Italic, t[p + 1..e]), e + 1)
      else Step(Tok(Text, "*" + t[p + 1..e]), e)
  }

  /** The label of a link: its text, where scanning stopped, and whether the depth reached 0. */
  datatype Label = Label(text: string, end: nat, closed: bool)

  /**
   * The label loop of `handle_link` at bracket depth `depth`: `\[` adds a
   * `[` without touching the depth, `[` and `]` move it, and the `]` that
   * brings it to 0 ends the label (and is consumed but not kept).
   */
  function LabelScan(t: string, p: nat, depth: nat): (l: Label)
    requires p <= |t| && depth >= 1
    ensures p <= l.end <= |t|
    ensures l.closed ==> p < l.end && t[l.end - 1] == ']'
    ensures !l.closed ==> At(t, l.end) == '\0'
    decreases |t| - p
  {
    var c := At(t, p);
    if c == '\0' then Label([], p, false)
    else if c == '\\' && At(t, p + 1) == '[' then
      var l := LabelScan(t, p + 2, depth);
      Label("[" + l.text, l.end, l.closed)
    else if c == '[' then
      var l := LabelScan(t, p + 1, depth + 1);
      Label("[" + l.text, l.end, l.closed)
    else if c == ']' && depth == 1 then Label([], p + 1, true)
    else if c == ']' then
      var l := LabelScan(t, p + 1, depth - 1);
      Label("]" + l.text, l.end, l.closed)
    else
      var l := LabelScan(t, p + 1, depth);
      Label([c] + l.text, l.end, l.closed)
  }

  /** `l` with `prefix` put before its text: the label so far, then what remains to be scanned. */
  function PrefixLabel(prefix: string, l: Label): (r: Label)
    ensures r.end == l.end && r.closed == l.closed && |r.text| == |prefix| + |l.text|
  {
    Label(prefix + l.text, l.end, l.closed)
  }

  lemma {:induction false} PrefixLabelAppend(a: string, b: string, l: Label)
    ensures PrefixLabel(a, PrefixLabel(b, l)) == PrefixLabel(a + b, l)
  {
    assert a + (b + l.text) == (a + b) + l.text;
  }

  /** One step of the label loop on a character that neither ends the label nor starts `\[`. */
  lemma {:induction false} LabelScanChar(t: string, p: nat, depth: nat, d: nat)
    requires p < |t| && depth >= 1 && t[p] != '\0' && !(t[p] == ']' && depth == 1)
    requires !(t[p] == '\\' && At(t, p + 1) == '[')
    requires d == if t[p] == '[' then depth + 1 else if t[p] == ']' then depth - 1 else depth
    ensures d >= 1 && LabelScan(t, p, depth) == PrefixLabel([t[p]], LabelScan(t, p + 1, d))
  {
  }

  /** One step of the label loop on `\[`: a `[` is kept and the depth stays. */
  lemma {:induction false} LabelScanEscape(t: string, p: nat, depth: nat)
    requires p + 1 < |t| && depth >= 1 && t[p] == '\\' && t[p + 1] == '['
    ensures LabelScan(t, p, depth) == PrefixLabel("[", LabelScan(t, p + 2, depth))
  {
  }

  /** The `]` that brings the depth to 0 closes the label. */
  lemma {:induction false} LabelScanClose(t: string, p: nat)
    requires p < |t| && t[p] == ']'
    ensures LabelScan(t, p, 1) == Label([], p + 1, true)
  {
  }

  /** `Lexer::handle_link`, started on a `[`. */
  function LinkStep(t: string, p: nat): (s: Step)
    requires p < |t| && t[p] == '['
    ensures p < s.next <= |t|
    ensures !s.tok.isEof
    ensures s.tok.kind == Link || s.tok.kind == Text
  {
    var l := LabelScan(t, p + 1, 1);
    if !l.closed then Step(Tok(Text, "[" + l.text), l.end)
    else if At(t, l.end) != '(' then Step(Tok(Text, "[" + l.text + "]"), l.end)
    else
      var e := CollectEnd(t, l.end + 1, ')');
      if At(t, e) != ')' then Step(Tok(Text, "[" + l.text + "](" + t[l.end + 1..e]), e)
      else Step(Tok(Link, l.text + "|" + t[l.end + 1..e]), e + 1)
  }

  /** `LinkStep` when the label from `p + 1` is `l` and is not followed by `(url`. */
  lemma {:induction false} LinkPartsNoUrl(t: string, p: nat, l: Label)
    requires p < |t| && t[p] == '[' && l == LabelScan(t, p + 1, 1)
    requires !l.closed || At(t, l.end) != '('
    ensures LinkStep(t, p) == Step(Tok(Text, if l.closed then "[" + l.text + "]" else "[" + l.text), l.end)
  {
  }

  /** `LinkStep` when the label from `p + 1` is `l` and `(` follows it; `e` ends the url. */
  lemma {:induction false} LinkPartsUrl(t: string, p: nat, l: Label, e: nat)
    requires p < |t| && t[p] == '[' && l == LabelScan(t, p + 1, 1)
    requires l.closed && At(t, l.end) == '('
    requires e == CollectEnd(t, l.end + 1, ')')
    ensures LinkStep(t, p) ==
      if At(t, e) != ')' then Step(Tok(Text, "[" + l.text + "](" + t[l.end + 1..e]), e)
      else Step(Tok(Link, l.text + "|" + t[l.end + 1..e]), e + 1)
  {
  }

  /** `Lexer::handle_image`, started on a `!`. */
  function ImageStep(t: string, p: nat): (s: Step)
    requires p < |t| && t[p] == '!'
    ensures p < s.next <= |t|
    ensures !s.tok.isEof
    ensures s.tok.kind == Image || s.tok.kind == Text
  {
    if At(t, p + 1) != '[' then Step(Tok(Text, "!"), p + 1)
    else
      var s := LinkStep(t, p + 1);
      if s.tok.kind == Link then Step(Tok(Image, s.tok.value), s.next)
      else Step(Tok(Text, "!" + s.tok.value), s.next)
  }

  /** `Lexer::handle_list`, started on a `-`. */
  function ListStep(t: string, p: nat): (s: Step)
    requires p < |t| && t[p] == '-'
    ensures p < s.next <= |t|
    ensures !s.tok.isEof
    ensures s.tok.kind == List || s.tok.kind == Text
  {
    if !IsSpace(At(t, p + 1)) then
      var e := CollectEnd(t, p + 1, '\n');
      Step(Tok(Text, "-" + t[p + 1..e]), SkipNewline(t, e))
    else
      var e := CollectEnd(t, p + 2, '\n');
      Step(Tok(List, t[p + 2..e]), SkipNewline(t, e))
  }

  /** Where the plain-text loop of parser/main.cpp stops: end, a construct character, or a blank line. */
  function TextEnd(t: string, p: nat): (r: nat)
    requires p <= |t|
    ensures p <= r <= |t|
    ensures forall i :: p <= i < r ==>
      t[i] != '\0' && !IsMarkdownChar(t[i]) && !(t[i] == '\n' && At(t, i + 1) == '\n')
    ensures At(t, r) == '\0' || IsMarkdownChar(At(t, r)) || (At(t, r) == '\n' && At(t, r + 1) == '\n')
    decreases |t| - p
  {
    var c := At(t, p);
    if c == '\0' || IsMarkdownChar(c) || (c == '\n' && At(t, p + 1) == '\n') then p
    else TextEnd(t, p + 1)
  }

  /** The trailing-newline trim: drops every `'\n'` at the end. */
  function TrimNewlines(s: string): (r: string)
    ensures r <= s
    ensures r == [] || r[|r| - 1] != '\n'
    ensures forall i :: |r| <= i < |s| ==> s[i] == '\n'
    decreases |s|
  {
    if |s| > 0 && s[|s| - 1] == '\n' then TrimNewlines(s[..|s| - 1]) else s
  }

  /** The plain-text path of parser/main.cpp's `get_next_token`. */
  function TextStep(t: string, p: nat): (s: Step)
    requires p <= |t|
    ensures p <= s.next <= |t|
    ensures !s.tok.isEof && s.tok.kind == Text
    ensures At(t, p) != '\0' && !IsMarkdownChar(At(t, p)) && At(t, p) != '\n' ==> p < s.next
  {
    var e := TextEnd(t, p);
    Step(Tok(Text, TrimNewlines(t[p..e])), e)
  }

  /** Where the newline-skipping loop at the start of `get_next_token` stops. */
  function SkipNewlines(t: string, p: nat): (r: nat)
    requires p <= |t|
    ensures p <= r <= |t|
    ensures forall i :: p <= i < r ==> t[i] == '\n'
    ensures At(t, r) != '\n'
    decreases |t| - p
  {
    if At(t, p) == '\n' then SkipNewlines(t, p + 1) else p
  }

  /**
   * `Lexer::get_next_token` of parser/main.cpp: EOF at the end, otherwise
   * skip blank lines and dispatch on the character under the cursor.
   * Every non-EOF call moves the cursor forward; EOF leaves it at the end.
   */
  function NextToken(t: string, p: nat): (s: Step)
    requires p <= |t|
    ensures s.next <= |t|
    ensures s.tok.isEof ==> s.tok == Eof() && At(t, s.next) == '\0'
    ensures !s.tok.isEof ==> p < s.next
  {
    if At(t, p) == '\0' then Step(Eof(), p)
    else
      var q := SkipNewlines(t, p);
      if At(t, q) == '\0' then Step(Eof(), q) else Dispatch(t, q)
  }

  /** The dispatch on the character under the cursor, once blank lines are skipped. */
  function Dispatch(t: string, q: nat): (s: Step)
    requires q < |t| && t[q] != '\0' && t[q] != '\n'
    ensures q < s.next <= |t| && !s.tok.isEof
  {
    var c := t[q];
    if c == '#' then HeadingStep(t, q)
    else if c == '*' then EmphasisStep(t, q)
    else if c == '[' then LinkStep(t, q)
    else if c == '!' then ImageStep(t, q)
    else if c == '-' then ListStep(t, q)
    else TextStep(t, q)
  }

  /** The tokens `Parser::parse` collects from position `p`: every token up to (not including) EOF. */
  function Tokenize(t: string, p: nat): (ts: seq<Token>)
    requires p <= |t|
    ensures forall i :: 0 <= i < |ts| ==> !ts[i].isEof
    decreases |t| - p
  {
    var s := NextToken(t, p);
    if s.tok.isEof then [] else [s.tok] + Tokenize(t, s.next)
  }

  /** `Tokenize` one step at a time: a step of `NextToken` from `p` gives `tok` and `next`. */
  lemma {:induction false} TokenizeStep(t: string, p: nat, tok: Token, next: nat)
    requires p <= |t| && Step(tok, next) == NextToken(t, p)
    ensures next <= |t|
    ensures Tokenize(t, p) == if tok.isEof then [] else [tok] + Tokenize(t, next)
  {
  }

  // ---------------------------------------------------------------
  // The older lexer of main.cpp: its own heading and get_next_token.
  // ---------------------------------------------------------------

  /**
   * `Lexer::handle_heading` of main.cpp: blanks after the first `#` are kept
   * in `original` before the `#` count, then the blanks after the run are counted.
   */
  function LegacyHeadingStep(t: string, p: nat): (s: Step)
    requires p < |t| && t[p] == '#'
    ensures p < s.next <= |t|
    ensures !s.tok.isEof
  {
    var a := SkipBlanks(t, p + 1);
    var run := HashRun(t, a, 1);
    var original := "#" + t[p + 1..a] + Hashes(run.level - 1);
    var c := SkipBlanks(t, run.end);
    var spaces := c - run.end;
    var e := CollectEnd(t, c, '\n');
    if spaces == 0 then Step(Tok(Text, original + t[c..e]), SkipNewline(t, e))
    else Step(LevelToken(run.level, t[c..e], original), SkipNewline(t, e))
  }

  /**
   * `HeadingStep` taken apart: after the `#` at `p` the hash run is `run`,
   * and the rest of the line gives `tok` and leaves the cursor at `next`.
   */
  lemma {:induction false} HeadingParts(t: string, p: nat, run: Run, tok: Token, next: nat)
    requires p < |t| && t[p] == '#' && run == HashRun(t, p + 1, 1)
    requires !IsSpace(At(t, run.end)) ==>
      var e := CollectEnd(t, run.end, '\n');
      tok == Tok(Text, Hashes(run.level) + t[run.end..e]) && next == SkipNewline(t, e)
    requires IsSpace(At(t, run.end)) ==>
      var c := SkipBlanks(t, run.end);
      var e := CollectEnd(t, c, '\n');
      tok == LevelToken(run.level, t[c..e], Hashes(run.level)) && next == SkipNewline(t, e)
    ensures Step(tok, next) == HeadingStep(t, p)
  { }

  /**
   * `LegacyHeadingStep` from its parts: the kept blanks end at `a`, the run
   * from there is `run`, `original` is what was consumed so far, and the
   * rest of the call gives `tok` and leaves the cursor at `next`.
   */
  lemma {:induction false} LegacyHeadingParts(t: string, p: nat, a: nat, run: Run, original: string, tok: Token, next: nat)
    requires p < |t| && t[p] == '#'
    requires a == SkipBlanks(t, p + 1) && run == HashRun(t, a, 1)
    requires original == "#" + t[p + 1..a] + Hashes(run.level - 1)
    requires var c := SkipBlanks(t, run.end); var e := CollectEnd(t, c, '\n');
      && next == SkipNewline(t, e)
      && tok == if c == run.end then Tok(Text, original + t[c..e]) else LevelToken(run.level, t[c..e], original)
    ensures Step(tok, next) == LegacyHeadingStep(t, p)
  {
  }

  /** Where main.cpp's text loop stops: end of input or a construct character. */
  function LegacyTextEnd(t: string, p: nat): (r: nat)
    requires p <= |t|
    ensures p <= r <= |t|
    ensures forall i :: p <= i < r ==> t[i] != '\0' && !IsMarkdownChar(t[i])
    ensures At(t, r) == '\0' || IsMarkdownChar(At(t, r))
    decreases |t| - p
  {
    var c := At(t, p);
    if c == '\0' || IsMarkdownChar(c) then p else LegacyTextEnd(t, p + 1)
  }

  /**
   * The text main.cpp's loop keeps: every character but `'\n'`, in order
   * (`ScanProps.DropNewlinesPlain` and `ScanProps.DropNewlinesAppend`).
   */
  function DropNewlines(s: string): (r: string)
    ensures |r| <= |s|
    ensures Lacks(r, '\n')
    ensures forall i :: 0 <= i < |r| ==> r[i] in s
    decreases |s|
  {
    if s == [] then []
    else DropNewlines(s[..|s| - 1]) + (if s[|s| - 1] == '\n' then [] else [s[|s| - 1]])
  }

  /** The characters of `" \t\n\r"`, the set `find_first_not_of` is given. */
  predicate IsBlank(c: char) {
    c == ' ' || c == '\t' || c == '\n' || c == '\r'
  }

  /** `find_first_not_of(" \t\n\r") == npos`. */
  predicate AllBlank(s: string) {
    forall i :: 0 <= i < |s| ==> IsBlank(s[i])
  }

  /**
   * `Lexer::get_next_token` of main.cpp: an empty TEXT token at the end;
   * no newline skipping; a text run drops `'\n'` and, when nothing but
   * blanks is left, the call starts over where the run stopped.
   */
  function LegacyNextToken(t: string, p: nat): (s: Step)
    requires p <= |t|
    ensures s.next <= |t| && !s.tok.isEof
    ensures At(t, p) != '\0' ==> p < s.next
    decreases |t| - p
  {
    var c := At(t, p);
    if c == '\0' then Step(Tok(Text, ""), p)
    else if c == '#' then LegacyHeadingStep(t, p)
    else if c == '*' then EmphasisStep(t, p)
    else if c == '[' then LinkStep(t, p)
    else if c == '!' then ImageStep(t, p)
    else if c == '-' then ListStep(t, p)
    else
      var e := LegacyTextEnd(t, p);
      var content := DropNewlines(t[p..e]);
      if content == [] || AllBlank(content) then
        if At(t, e) != '\0' then LegacyNextToken(t, e) else Step(Tok(Text, ""), e)
      else Step(Tok(Text, content), e)
  }
}
