/**
 * The HTML side of parser/main.cpp: `escapeHtml`, `tokenToHtml` with its
 * `find('|')` split, and the wrapping of tokens into paragraphs and lists
 * done by `tokensToHtml`; also the one-token `Interpreter::parse` of
 * main.cpp. Everything here is a specification function; the `Parsing`
 * and `Interpreting` modules hold the methods that compute the same
 * values step by step.
 */
module Html {
  import opened Chars
  import opened Tokens

  datatype Option<T> = None | Some(value: T)

  // ---------------------------------------------------------------
  // escapeHtml
  // ---------------------------------------------------------------

  /** The replacement `escapeHtml` writes for one character. */
  function EscapeChar(c: char): (r: string)
    ensures |r| >= 1
  {
    if c == '<' then "&lt;"
    else if c == '>' then "&gt;"
    else if c == '&' then "&amp;"
    else if c == '"' then "&quot;"
    else [c]
  }

  /** `escapeHtml(s)`: every character replaced, in order. */
  function Escaped(s: string): (r: string)
    ensures |r| >= |s|
  {
    if s == [] then [] else Escaped(s[..|s| - 1]) + EscapeChar(s[|s| - 1])
  }

  /** The inverse reading of the four entities `escapeHtml` writes. */
  function Unescape(s: string): (r: string)
    decreases |s|
  {
    if |s| >= 4 && s[..4] == "&lt;" then "<" + Unescape(s[4..])
    else if |s| >= 4 && s[..4] == "&gt;" then ">" + Unescape(s[4..])
    else if |s| >= 5 && s[..5] == "&amp;" then "&" + Unescape(s[5..])
    else if |s| >= 6 && s[..6] == "&quot;" then "\"" + Unescape(s[6..])
    else if s == [] then []
    else [s[0]] + Unescape(s[1..])
  }

  /** The characters `escapeHtml` rewrites. */
  predicate Special(c: char) {
    c == '<' || c == '>' || c == '&' || c == '"'
  }

  /** Escaping works character by character, so it distributes over concatenation. */
  lemma {:induction false} EscapedAppend(a: string, b: string)
    ensures Escaped(a + b) == Escaped(a) + Escaped(b)
    decreases |b|
  {
    if b == [] {
      assert a + b == a;
    } else {
      var b' := b[..|b| - 1];
      assert (a + b)[..|a + b| - 1] == a + b';
      EscapedAppend(a, b');
      Regroup2(Escaped(a), Escaped(b'), EscapeChar(b[|b| - 1]));
    }
  }

  /** The first character's replacement comes first. */
  lemma {:induction false} EscapedCons(c: char, s: string)
    ensures Escaped([c] + s) == EscapeChar(c) + Escaped(s)
  {
    EscapedAppend([c], s);
    EscapedOne(c);
  }

  lemma {:induction false} EscapedOne(c: char)
    ensures Escaped([c]) == EscapeChar(c)
  {
    assert [c][..0] == [];
  }

  /** Reading back one character's replacement, then the rest. */
  lemma {:induction false} UnescapeFront(c: char, rest: string)
    ensures Unescape(EscapeChar(c) + rest) == [c] + Unescape(rest)
  {
    if c == '<' {
      UnescapeLt(rest);
    } else if c == '>' {
      UnescapeGt(rest);
    } else if c == '&' {
      UnescapeAmp(rest);
    } else if c == '"' {
      UnescapeQuot(rest);
    } else {
      UnescapeOther(c, rest);
    }
  }

  lemma {:induction false} UnescapeLt(rest: string)
    ensures Unescape("&lt;" + rest) == "<" + Unescape(rest)
  {
    var e := "&lt;" + rest;
    assert e[..4] == "&lt;" && e[4..] == rest;
  }

  lemma {:induction false} UnescapeGt(rest: string)
    ensures Unescape("&gt;" + rest) == ">" + Unescape(rest)
  {
    var e := "&gt;" + rest;
    assert e[..4] == "&gt;" && e[4..] == rest;
  }

  lemma {:induction false} UnescapeAmp(rest: string)
    ensures Unescape("&amp;" + rest) == "&" + Unescape(rest)
  {
    var e := "&amp;" + rest;
    assert e[..4][1] == 'a';
    assert e[..5] == "&amp;" && e[5..] == rest;
  }

  lemma {:induction false} UnescapeQuot(rest: string)
    ensures Unescape("&quot;" + rest) == "\"" + Unescape(rest)
  {
    var e := "&quot;" + rest;
    assert e[..4][1] == 'q' && e[..5][1] == 'q';
    assert e[..6] == "&quot;" && e[6..] == rest;
  }

  lemma {:induction false} UnescapeOther(c: char, rest: string)
    requires c != '&'
    ensures Unescape([c] + rest) == [c] + Unescape(rest)
  {
    var e := [c] + rest;
    assert e[0] == c && e[1..] == rest;
    if |e| >= 4 {
      assert e[..4][0] == c;
    }
    if |e| >= 5 {
      assert e[..5][0] == c;
    }
    if |e| >= 6 {
      assert e[..6][0] == c;
    }
  }

  /** Reading the entities back gives the original text: escaping loses nothing. */
  lemma {:induction false} UnescapeEscaped(s: string)
    ensures Unescape(Escaped(s)) == s
    decreases |s|
  {
    if s != [] {
      assert s == [s[0]] + s[1..];
      EscapedCons(s[0], s[1..]);
      UnescapeFront(s[0], Escaped(s[1..]));
      UnescapeEscaped(s[1..]);
    }
  }

  /** Escaped text holds no `<`, `>` or `"`: it cannot open a tag or close an attribute. */
  lemma {:induction false} EscapedIsInert(s: string)
    ensures Lacks(Escaped(s), '<') && Lacks(Escaped(s), '>') && Lacks(Escaped(s), '"')
    decreases |s|
  {
    if s != [] {
      var s' := s[..|s| - 1];
      EscapedIsInert(s');
      EscapeCharInert(s[|s| - 1]);
      LacksAppend(Escaped(s'), EscapeChar(s[|s| - 1]), '<');
      LacksAppend(Escaped(s'), EscapeChar(s[|s| - 1]), '>');
      LacksAppend(Escaped(s'), EscapeChar(s[|s| - 1]), '"');
    }
  }

  lemma {:induction false} EscapeCharInert(c: char)
    ensures Lacks(EscapeChar(c), '<') && Lacks(EscapeChar(c), '>') && Lacks(EscapeChar(c), '"')
  {
  }

  /** Text with none of the four special characters is left as it is. */
  lemma {:induction false} EscapedPlain(s: string)
    requires forall i :: 0 <= i < |s| ==> !Special(s[i])
    ensures Escaped(s) == s
    decreases |s|
  {
    if s != [] {
      EscapedPlain(s[..|s| - 1]);
    }
  }

  /** Escaping neither adds nor removes a `|`. */
  lemma {:induction false} EscapedKeepsBar(s: string)
    ensures Lacks(s, '|') <==> Lacks(Escaped(s), '|')
    decreases |s|
  {
    if s != [] {
      var s' := s[..|s| - 1];
      EscapedKeepsBar(s');
      assert s == s' + [s[|s| - 1]];
      LacksAppend(s', [s[|s| - 1]], '|');
      LacksAppend(Escaped(s'), EscapeChar(s[|s| - 1]), '|');
      EscapeCharBar(s[|s| - 1]);
    }
  }

  lemma {:induction false} EscapeCharBar(c: char)
    ensures Lacks([c], '|') <==> Lacks(EscapeChar(c), '|')
  {
    assert [c][0] == c;
  }

  // ---------------------------------------------------------------
  // The split at '|'
  // ---------------------------------------------------------------

  /** `s.find(c)`: the first index of `c`, or `None` for `npos`. */
  function Find(s: string, c: char): (r: Option<nat>)
    ensures r.None? <==> Lacks(s, c)
    ensures r.Some? ==> r.value < |s| && s[r.value] == c && Lacks(s[..r.value], c)
    decreases |s|
  {
    if s == [] then None
    else if s[0] == c then Some(0)
    else match Find(s[1..], c)
      case None => None
      case Some(i) => Some(i + 1)
  }

  /**
   * `(s.substr(0, sep), s.substr(sep + 1))` with `sep = s.find('|')`. When
   * there is no `|`, `sep` is `npos`: the first `substr` takes the whole
   * string, and `npos + 1` wraps around to 0, so the second does too.
   * With a `|`, the halves put back around it give `s`, and the first has no `|`.
   */
  function SplitAtBar(s: string): (r: (string, string))
    ensures Lacks(s, '|') ==> r == (s, s)
    ensures !Lacks(s, '|') ==> r.0 + "|" + r.1 == s && Lacks(r.0, '|')
  {
    match Find(s, '|')
    case None => (s, s)
    case Some(i) =>
      assert s[..i] + "|" + s[i + 1..] == s;
      (s[..i], s[i + 1..])
  }

  /** A `label|url` payload whose label has no `|` splits back into label and url. */
  lemma {:induction false} SplitFirstBar(a: string, b: string)
    requires Lacks(a, '|')
    ensures SplitAtBar(a + "|" + b) == (a, b)
  {
    var s := a + "|" + b;
    assert s[|a|] == '|' && s[..|a|] == a && s[|a| + 1..] == b;
  }

  // ---------------------------------------------------------------
  // tokenToHtml
  // ---------------------------------------------------------------

  /** `tokenToHtml`: the token's value escaped, then wrapped as its type says. */
  function TokenHtml(tok: Token): string
  {
    var content := Escaped(tok.value);
    match tok.kind
    case Text => content
    case H1 => "<h1>" + content + "</h1>\n"
    case H2 => "<h2>" + content + "</h2>\n"
    case H3 => "<h3>" + content + "</h3>\n"
    case H4 => "<h4>" + content + "</h4>\n"
    case H5 => "<h5>" + content + "</h5>\n"
    case H6 => "<h6>" + content + "</h6>\n"
    case Bold => "<strong>" + content + "</strong>"
    case Italic => "<em>" + content + "</em>"
    case List => "<li>" + content + "</li>\n"
    case Link =>
      var (text, url) := SplitAtBar(content);
      "<a href=\"" + url + "\">" + text + "</a>"
    case Image =>
      var (alt, src) := SplitAtBar(content);
      "<img src=\"" + src + "\" alt=\"" + alt + "\">"
  }

  /** Only a TEXT token comes out without markup, every other starts with a tag, and a block ends its line. */
  lemma {:induction false} TokenHtmlMarkup(tok: Token)
    ensures var r := TokenHtml(tok);
      && (tok.kind != Text ==> |r| > 0 && r[0] == '<')
      && (Lacks(r, '<') <==> tok.kind == Text)
      && (IsBlockElement(tok.kind) ==> r[|r| - 1] == '\n')
  {
    EscapedIsInert(tok.value);
  }

  /** A TEXT token renders as inert text: its escaped value, with no tag in it. */
  lemma {:induction false} TextIsInert(v: string)
    ensures TokenHtml(Tok(Text, v)) == Escaped(v)
    ensures Lacks(TokenHtml(Tok(Text, v)), '<')
    ensures Unescape(TokenHtml(Tok(Text, v))) == v
  {
    EscapedIsInert(v);
    UnescapeEscaped(v);
  }

  /** Escaping a `label|url` payload keeps the first `|` where it was. */
  lemma {:induction false} EscapedPayload(a: string, b: string)
    requires Lacks(a, '|')
    ensures SplitAtBar(Escaped(a + "|" + b)) == (Escaped(a), Escaped(b))
  {
    EscapedAppend(a + "|", b);
    EscapedAppend(a, "|");
    EscapedKeepsBar(a);
    assert Escaped("|") == "|" by {
      assert Escaped("|") == Escaped([]) + EscapeChar('|');
    }
    SplitFirstBar(Escaped(a), Escaped(b));
  }

  /** The `label|url` payload of a LINK made by the lexer comes apart into its label and url again. */
  lemma {:induction false} LinkHtml(text: string, url: string)
    requires Lacks(text, '|')
    ensures TokenHtml(Tok(Link, text + "|" + url))
      == "<a href=\"" + Escaped(url) + "\">" + Escaped(text) + "</a>"
  {
    EscapedPayload(text, url);
  }

  /** The same for IMAGE: the label becomes `alt`, the url `src`. */
  lemma {:induction false} ImageHtml(alt: string, src: string)
    requires Lacks(alt, '|')
    ensures TokenHtml(Tok(Image, alt + "|" + src))
      == "<img src=\"" + Escaped(src) + "\" alt=\"" + Escaped(alt) + "\">"
  {
    EscapedPayload(alt, src);
  }

  /** A label holding `|` moves everything after its first `|` into the url. */
  lemma {:induction false} LinkLabelWithBar(a: string, b: string, u: string)
    requires Lacks(a, '|')
    ensures TokenHtml(Tok(Link, a + "|" + b + "|" + u))
      == "<a href=\"" + Escaped(b + "|" + u) + "\">" + Escaped(a) + "</a>"
  {
    Regroup2(a + "|", b, "|");
    Regroup2(a + "|", b + "|", u);
    LinkHtml(a, b + "|" + u);
  }

  // ---------------------------------------------------------------
  // tokensToHtml: the pieces of output and their nesting
  // ---------------------------------------------------------------

  /** One write to the output: a tag of a paragraph or list, or a token with the HTML written for it. */
  datatype Piece = OpenP | CloseP | OpenUl | CloseUl | Item(tok: Token, html: string)

  function PieceHtml(x: Piece): string {
    match x
    case OpenP => "<p>"
    case CloseP => "</p>\n"
    case OpenUl => "<ul>\n"
    case CloseUl => "</ul>\n"
    case Item(_, html) => html
  }

  /** The output text of a run of pieces, written in order. */
  function Flatten(ps: seq<Piece>): (r: string)
  {
    if ps == [] then [] else Flatten(ps[..|ps| - 1]) + PieceHtml(ps[|ps| - 1])
  }

  /** The HTML `tokenToHtml` writes for each token of `ts`, in order. */
  function Htmls(ts: seq<Token>): (hs: seq<string>)
    ensures |hs| == |ts|
  {
    if ts == [] then [] else Htmls(ts[..|ts| - 1]) + [TokenHtml(ts[|ts| - 1])]
  }

  lemma {:induction false} HtmlsAt(ts: seq<Token>, i: nat)
    requires i < |ts|
    ensures Htmls(ts)[i] == TokenHtml(ts[i])
    decreases |ts|
  {
    if i < |ts| - 1 {
      var ts' := ts[..|ts| - 1];
      HtmlsAt(ts', i);
      assert ts'[i] == ts[i];
    }
  }

  /** What one loop iteration writes and the two flags it leaves. */
  datatype Emit = Emit(pieces: seq<Piece>, inList: bool, inPara: bool)

  /** The list wrapping before a token of type `k`: close `<p>` and open `<ul>` for LIST, close `<ul>` otherwise. */
  function ListWrap(k: TokenType, inList: bool, inPara: bool): Emit {
    if k == List then
      Emit((if inPara then [CloseP] else []) + (if !inList then [OpenUl] else []), true, false)
    else if inList then Emit([CloseUl], false, inPara)
    else Emit([], inList, inPara)
  }

  /** The paragraph wrapping that follows: open `<p>` for text-like tokens, close it for blocks. */
  function ParaWrap(k: TokenType, inList: bool, inPara: bool): Emit {
    if (k == Text || IsInlineElement(k)) && !inPara then Emit([OpenP], inList, true)
    else if inPara && IsBlockElement(k) then Emit([CloseP], inList, false)
    else Emit([], inList, inPara)
  }

  /** Everything written before a token of type `k`. */
  function Wrap(k: TokenType, inList: bool, inPara: bool): Emit {
    var a := ListWrap(k, inList, inPara);
    var b := ParaWrap(k, a.inList, a.inPara);
    Emit(a.pieces + b.pieces, b.inList, b.inPara)
  }

  /** The paragraph is closed after the last token and before a block token. */
  predicate EndsParagraph(ts: seq<Token>, i: nat)
    requires i < |ts|
  {
    i == |ts| - 1 || IsBlockElement(ts[i + 1].kind)
  }

  /** After token `i`: close an open paragraph if it ends there. */
  function CloseAfter(ts: seq<Token>, i: nat, inList: bool, inPara: bool): Emit
    requires i < |ts|
  {
    if inPara && EndsParagraph(ts, i) then Emit([CloseP], inList, false) else Emit([], inList, inPara)
  }

  /** One iteration of the `for` loop of `tokensToHtml` on token `i`, whose HTML is `hs[i]`. */
  function Body(ts: seq<Token>, hs: seq<string>, i: nat, inList: bool, inPara: bool): Emit
    requires i < |ts| == |hs|
  {
    var w := Wrap(ts[i].kind, inList, inPara);
    var c := CloseAfter(ts, i, w.inList, w.inPara);
    Emit(w.pieces + [Item(ts[i], hs[i])] + c.pieces, c.inList, c.inPara)
  }

  /** After the list wrapping the writer is in a list exactly for LIST, and a paragraph stays open only for other types. */
  lemma {:induction false} ListWrapFlags(k: TokenType, inList: bool, inPara: bool)
    ensures var e := ListWrap(k, inList, inPara);
      && (e.inList <==> k == List)
      && (e.inPara <==> k != List && inPara)
      && (OpenUl in e.pieces <==> k == List && !inList)
      && (CloseUl in e.pieces <==> k != List && inList)
  {
  }

  /** After the paragraph wrapping a paragraph is open exactly when the token is not a block; the list flag is untouched. */
  lemma {:induction false} ParaWrapFlags(k: TokenType, inList: bool, inPara: bool)
    ensures var e := ParaWrap(k, inList, inPara);
      && e.inList == inList
      && (e.inPara <==> !IsBlockElement(k))
      && (OpenP in e.pieces <==> !inPara && !IsBlockElement(k))
      && (CloseP in e.pieces <==> inPara && IsBlockElement(k))
  {
  }

  /** No paragraph stays open past the token that ends it, and only an open one is closed. */
  lemma {:induction false} CloseAfterFlags(ts: seq<Token>, i: nat, inList: bool, inPara: bool)
    requires i < |ts|
    ensures var e := CloseAfter(ts, i, inList, inPara);
      && e.inList == inList
      && (e.inPara <==> inPara && !EndsParagraph(ts, i))
      && (CloseP in e.pieces <==> inPara && EndsParagraph(ts, i))
  {
  }

  /** The closing after the loop holds only closing tags, one for each block left open. */
  lemma {:induction false} ClosingTags(inList: bool, inPara: bool)
    ensures var r := Closing(inList, inPara);
      && (CloseUl in r <==> inList)
      && (CloseP in r <==> inPara)
      && (forall x :: x in r ==> x == CloseUl || x == CloseP)
  {
  }

  /**
   * After one iteration the writer is in a list exactly after a LIST token,
   * and in a paragraph exactly after a token that is neither a block nor the
   * end of a paragraph, whatever the flags were before it.
   */
  lemma {:induction false} BodyFlags(ts: seq<Token>, hs: seq<string>, i: nat, inList: bool, inPara: bool)
    requires i < |ts| == |hs|
    ensures var b := Body(ts, hs, i, inList, inPara);
      && (b.inList <==> ts[i].kind == List)
      && (b.inPara <==> !IsBlockElement(ts[i].kind) && !EndsParagraph(ts, i))
  {
  }

  /** The two `if`s after the loop: close the list, then the paragraph. */
  function Closing(inList: bool, inPara: bool): seq<Piece> {
    (if inList then [CloseUl] else []) + (if inPara then [CloseP] else [])
  }

  /** The loop from token `i` with the given flags, then the closing. */
  function RenderFrom(ts: seq<Token>, hs: seq<string>, i: nat, inList: bool, inPara: bool): seq<Piece>
    requires i <= |ts| == |hs|
    decreases |ts| - i
  {
    if i == |ts| then Closing(inList, inPara)
    else
      var b := Body(ts, hs, i, inList, inPara);
      b.pieces + RenderFrom(ts, hs, i + 1, b.inList, b.inPara)
  }

  /**
   * `tokensToHtml` as pieces: the loop from the first token with both flags down.
   * Every token is written exactly once, in order, and the output is well nested:
   * every `<p>` and `<ul>` is closed, neither is opened inside the other, each
   * `<li>` is inside a list, each heading outside both, and all other tokens
   * inside a paragraph.
   */
  function Render(ts: seq<Token>): (r: seq<Piece>)
    ensures Items(r) == ts
    ensures Walk(r, Outside) == Some(Outside)
  {
    RenderKeepsTokens(ts, Htmls(ts), 0, false, false);
    RenderFromNested(ts, Htmls(ts), 0, false, false);
    assert ts[0..] == ts;
    RenderFrom(ts, Htmls(ts), 0, false, false)
  }

  /** The tokens written, in order, ignoring the tags around them. */
  function Items(ps: seq<Piece>): seq<Token>
  {
    if ps == [] then []
    else (if ps[0].Item? then [ps[0].tok] else []) + Items(ps[1..])
  }

  lemma {:induction false} ItemsAppend(a: seq<Piece>, b: seq<Piece>)
    ensures Items(a + b) == Items(a) + Items(b)
    decreases |a|
  {
    if a == [] {
      assert a + b == b;
    } else {
      assert (a + b)[1..] == a[1..] + b;
      ItemsAppend(a[1..], b);
      Regroup2(if a[0].Item? then [a[0].tok] else [], Items(a[1..]), Items(b));
    }
  }

  /** Every token is written exactly once, in order: the wrapping adds tags and nothing else. */
  lemma {:induction false} RenderKeepsTokens(ts: seq<Token>, hs: seq<string>, i: nat, inList: bool, inPara: bool)
    requires i <= |ts| == |hs|
    ensures Items(RenderFrom(ts, hs, i, inList, inPara)) == ts[i..]
    decreases |ts| - i, 1
  {
    if i == |ts| {
      ClosingHasNoItems(inList, inPara);
    } else {
      KeepsTokensFrom(ts, hs, i, inList, inPara);
    }
  }

  /** `RenderKeepsTokens` at a token, from the same at the next one. */
  lemma {:induction false} KeepsTokensFrom(ts: seq<Token>, hs: seq<string>, i: nat, inList: bool, inPara: bool)
    requires i < |ts| == |hs|
    ensures Items(RenderFrom(ts, hs, i, inList, inPara)) == ts[i..]
    decreases |ts| - i, 0
  {
    var b := Body(ts, hs, i, inList, inPara);
    var rest := RenderFrom(ts, hs, i + 1, b.inList, b.inPara);
    RenderKeepsTokens(ts, hs, i + 1, b.inList, b.inPara);
    RenderFromUnfold(ts, hs, i, inList, inPara);
    BodyItems(ts, hs, i, inList, inPara);
    KeepsTokensStep(ts, i, b.pieces, rest);
  }

  lemma {:induction false} ClosingHasNoItems(inList: bool, inPara: bool)
    ensures Items(Closing(inList, inPara)) == []
  {
    var ps := Closing(inList, inPara);
    assert forall j :: 0 <= j < |ps| ==> !ps[j].Item?;
    NoItems(ps);
  }

  /** Pieces holding just token `i`, then pieces holding the tokens after it, hold the tokens from `i` on. */
  lemma {:induction false} KeepsTokensStep(ts: seq<Token>, i: nat, ps: seq<Piece>, rest: seq<Piece>)
    requires i < |ts|
    requires Items(ps) == [ts[i]] && Items(rest) == ts[i + 1..]
    ensures Items(ps + rest) == ts[i..]
  {
    ItemsAppend(ps, rest);
    assert ts[i..] == [ts[i]] + ts[i + 1..];
  }

  /** One iteration writes its own token and no other. */
  lemma {:induction false} BodyItems(ts: seq<Token>, hs: seq<string>, i: nat, inList: bool, inPara: bool)
    requires i < |ts| == |hs|
    ensures Items(Body(ts, hs, i, inList, inPara).pieces) == [ts[i]]
  {
    var w := Wrap(ts[i].kind, inList, inPara);
    var c := CloseAfter(ts, i, w.inList, w.inPara);
    var x := Item(ts[i], hs[i]);
    WrapHasNoItems(ts[i].kind, inList, inPara);
    NoItems(c.pieces);
    ItemsAppend(w.pieces + [x], c.pieces);
    ItemsAppend(w.pieces, [x]);
  }

  lemma {:induction false} WrapHasNoItems(k: TokenType, inList: bool, inPara: bool)
    ensures Items(Wrap(k, inList, inPara).pieces) == []
  {
    var ps := Wrap(k, inList, inPara).pieces;
    assert forall j :: 0 <= j < |ps| ==> !ps[j].Item?;
    NoItems(ps);
  }

  lemma {:induction false} NoItems(ps: seq<Piece>)
    requires forall j :: 0 <= j < |ps| ==> !ps[j].Item?
    ensures Items(ps) == []
    decreases |ps|
  {
    if ps != [] {
      NoItems(ps[1..]);
    }
  }

  /** Where the writer is: outside any block, inside `<ul>`, or inside `<p>`. */
  datatype Where = Outside | InList | InPara

  /**
   * What a piece may follow and where it leaves the writer: `<p>` and `<ul>`
   * open only outside both, each is closed from inside itself, list items
   * sit in a list, headings outside both, and text and inline elements in a
   * paragraph. `None` is a misplaced piece.
   */
  function Next(x: Piece, w: Where): Option<Where> {
    match x
    case OpenP => if w == Outside then Some(InPara) else None
    case CloseP => if w == InPara then Some(Outside) else None
    case OpenUl => if w == Outside then Some(InList) else None
    case CloseUl => if w == InList then Some(Outside) else None
    case Item(tok, _) =>
      if tok.kind == List then (if w == InList then Some(w) else None)
      else if IsHeading(tok.kind) then (if w == Outside then Some(w) else None)
      else if w == InPara then Some(w) else None
  }

  /** Where a run of pieces leaves the writer, or `None` if one is misplaced. */
  function Walk(ps: seq<Piece>, w: Where): Option<Where>
  {
    if ps == [] then Some(w)
    else match Next(ps[0], w)
      case None => None
      case Some(w') => Walk(ps[1..], w')
  }

  lemma {:induction false} WalkAppend(a: seq<Piece>, b: seq<Piece>, w: Where)
    ensures Walk(a + b, w) == match Walk(a, w) case None => None case Some(w') => Walk(b, w')
    decreases |a|
  {
    if a == [] {
      assert a + b == b;
    } else {
      assert (a + b)[1..] == a[1..] + b;
      match Next(a[0], w)
      case None =>
      case Some(w') => WalkAppend(a[1..], b, w');
    }
  }

  /** The writer's place for a pair of flags that are never both set. */
  function Place(inList: bool, inPara: bool): Where {
    if inList then InList else if inPara then InPara else Outside
  }

  /** The flags at the start of an iteration: never both, and an open paragraph only before a text-like token. */
  predicate Loopable(ts: seq<Token>, i: nat, inList: bool, inPara: bool) {
    i <= |ts| && !(inList && inPara) && (inPara ==> i < |ts| && !IsBlockElement(ts[i].kind))
  }

  lemma {:induction false} WalkTwo(x: Piece, y: Piece, w: Where)
    ensures Walk([x, y], w) == match Next(x, w) case None => None case Some(w') => Next(y, w')
  {
    assert [x, y][1..] == [y];
    match Next(x, w)
    case None =>
    case Some(w') => WalkOne(y, w');
  }

  lemma {:induction false} WalkOne(x: Piece, w: Where)
    ensures Walk([x], w) == Next(x, w)
  {
    assert [x][1..] == [];
  }

  /** The wrapping before a token leaves the writer where that token belongs. */
  lemma {:induction false} WrapWalk(k: TokenType, inList: bool, inPara: bool)
    requires !(inList && inPara) && (inPara ==> !IsBlockElement(k))
    ensures var w := Wrap(k, inList, inPara);
      && Walk(w.pieces, Place(inList, inPara)) == Some(Place(w.inList, w.inPara))
      && !(w.inList && w.inPara)
      && (k == List ==> w.inList)
      && (IsHeading(k) ==> !w.inList && !w.inPara)
      && (k != List && !IsHeading(k) ==> w.inPara && !w.inList)
  {
    if k == List {
      WrapWalkList(inList, inPara);
    } else if IsHeading(k) {
      WrapWalkHeading(k, inList, inPara);
    } else {
      WrapWalkText(k, inList, inPara);
    }
  }

  /** Before a list item: the paragraph is already closed, and `<ul>` opens unless the list is. */
  lemma {:induction false} WrapWalkList(inList: bool, inPara: bool)
    requires !inPara
    ensures var w := Wrap(List, inList, inPara);
      && Walk(w.pieces, Place(inList, inPara)) == Some(InList)
      && w.inList && !w.inPara
  {
    var w := Wrap(List, inList, inPara);
    if inList {
      assert w == Emit([], true, false);
    } else {
      assert w == Emit([OpenUl], true, false);
      WalkOne(OpenUl, Outside);
    }
  }

  /** Before a heading: an open list is closed, and the writer is outside both. */
  lemma {:induction false} WrapWalkHeading(k: TokenType, inList: bool, inPara: bool)
    requires IsHeading(k) && !inPara
    ensures var w := Wrap(k, inList, inPara);
      && Walk(w.pieces, Place(inList, inPara)) == Some(Outside)
      && !w.inList && !w.inPara
  {
    var w := Wrap(k, inList, inPara);
    if inList {
      assert w == Emit([CloseUl], false, false);
      WalkOne(CloseUl, InList);
    } else {
      assert w == Emit([], false, false);
    }
  }

  /** Before text or an inline element: an open list is closed and a paragraph opened, unless one is open. */
  lemma {:induction false} WrapWalkText(k: TokenType, inList: bool, inPara: bool)
    requires k != List && !IsHeading(k) && !(inList && inPara)
    ensures var w := Wrap(k, inList, inPara);
      && Walk(w.pieces, Place(inList, inPara)) == Some(InPara)
      && w.inPara && !w.inList
  {
    var w := Wrap(k, inList, inPara);
    if inList {
      assert w == Emit([CloseUl, OpenP], false, true);
      WalkTwo(CloseUl, OpenP, InList);
    } else if inPara {
      assert w == Emit([], false, true);
    } else {
      assert w == Emit([OpenP], false, true);
      WalkOne(OpenP, Outside);
    }
  }

  /** One iteration keeps the flags loopable and writes a correctly placed run of pieces. */
  lemma {:induction false} BodyWalk(ts: seq<Token>, hs: seq<string>, i: nat, inList: bool, inPara: bool)
    requires i < |ts| == |hs| && Loopable(ts, i, inList, inPara)
    ensures var b := Body(ts, hs, i, inList, inPara);
      && Walk(b.pieces, Place(inList, inPara)) == Some(Place(b.inList, b.inPara))
      && Loopable(ts, i + 1, b.inList, b.inPara)
  {
    var k := ts[i].kind;
    var w := Wrap(k, inList, inPara);
    WrapWalk(k, inList, inPara);
    var c := CloseAfter(ts, i, w.inList, w.inPara);
    var x := Item(ts[i], hs[i]);
    var at := Place(w.inList, w.inPara);
    var b := Body(ts, hs, i, inList, inPara);
    assert b == Emit(w.pieces + [x] + c.pieces, c.inList, c.inPara);
    WalkOne(x, at);
    WalkOne(CloseP, at);
    WalkAppend(w.pieces, [x], Place(inList, inPara));
    WalkAppend(w.pieces + [x], c.pieces, Place(inList, inPara));
  }

  /** From loopable flags, the rest of the output is correctly nested and ends outside every block. */
  lemma {:induction false} RenderFromNested(ts: seq<Token>, hs: seq<string>, i: nat, inList: bool, inPara: bool)
    requires |ts| == |hs| && Loopable(ts, i, inList, inPara)
    ensures Walk(RenderFrom(ts, hs, i, inList, inPara), Place(inList, inPara)) == Some(Outside)
    decreases |ts| - i, 1
  {
    if i == |ts| {
      NestedEnd(ts, hs, inList, inPara);
    } else {
      NestedFrom(ts, hs, i, inList, inPara);
    }
  }

  /** `RenderFromNested` past the last token: the closing leaves the list, and no paragraph is open. */
  lemma {:induction false} NestedEnd(ts: seq<Token>, hs: seq<string>, inList: bool, inPara: bool)
    requires |ts| == |hs| && Loopable(ts, |ts|, inList, inPara)
    ensures Walk(RenderFrom(ts, hs, |ts|, inList, inPara), Place(inList, inPara)) == Some(Outside)
  {
    if inList {
      assert Closing(inList, inPara) == [CloseUl];
      WalkOne(CloseUl, InList);
    } else {
      assert Closing(inList, inPara) == [];
    }
  }

  /** `RenderFromNested` at a token, from the same at the next one. */
  lemma {:induction false} NestedFrom(ts: seq<Token>, hs: seq<string>, i: nat, inList: bool, inPara: bool)
    requires i < |ts| == |hs| && Loopable(ts, i, inList, inPara)
    ensures Walk(RenderFrom(ts, hs, i, inList, inPara), Place(inList, inPara)) == Some(Outside)
    decreases |ts| - i, 0
  {
    var b := Body(ts, hs, i, inList, inPara);
    var rest := RenderFrom(ts, hs, i + 1, b.inList, b.inPara);
    RenderFromUnfold(ts, hs, i, inList, inPara);
    BodyWalk(ts, hs, i, inList, inPara);
    RenderFromNested(ts, hs, i + 1, b.inList, b.inPara);
    WalkAppend(b.pieces, rest, Place(inList, inPara));
  }

  /** No tokens, no output. */
  lemma {:induction false} RenderEmpty()
    ensures Flatten(Render([])) == ""
  {
  }

  /** Writing one more piece appends its HTML. */
  lemma {:induction false} FlattenPush(ps: seq<Piece>, x: Piece)
    ensures Flatten(ps + [x]) == Flatten(ps) + PieceHtml(x)
  {
    assert (ps + [x])[..|ps|] == ps;
  }

  lemma {:induction false} FlattenAppend(a: seq<Piece>, b: seq<Piece>)
    ensures Flatten(a + b) == Flatten(a) + Flatten(b)
    decreases |b|
  {
    if b == [] {
      assert a + b == a;
    } else {
      var b' := b[..|b| - 1];
      assert (a + b)[..|a + b| - 1] == a + b';
      FlattenAppend(a, b');
      Regroup2(Flatten(a), Flatten(b'), PieceHtml(b[|b| - 1]));
    }
  }

  /** The text `tokensToHtml` writes from token `i` on: each iteration's pieces, then the closing. */
  function RenderText(ts: seq<Token>, hs: seq<string>, i: nat, inList: bool, inPara: bool): string
    requires i <= |ts| == |hs|
    decreases |ts| - i
  {
    if i == |ts| then Flatten(Closing(inList, inPara))
    else
      var b := Body(ts, hs, i, inList, inPara);
      Flatten(b.pieces) + RenderText(ts, hs, i + 1, b.inList, b.inPara)
  }

  /** The text is the pieces written out in order. */
  lemma {:induction false} RenderTextFlat(ts: seq<Token>, hs: seq<string>, i: nat, inList: bool, inPara: bool)
    requires i <= |ts| == |hs|
    ensures RenderText(ts, hs, i, inList, inPara) == Flatten(RenderFrom(ts, hs, i, inList, inPara))
    decreases |ts| - i, 1
  {
    if i == |ts| {
      TextFlatEnd(ts, hs, inList, inPara);
    } else {
      TextFlatUnfold(ts, hs, i, inList, inPara);
    }
  }

  /** `RenderFrom` at a token: that iteration's pieces, then the rest. */
  lemma {:induction false} RenderFromUnfold(ts: seq<Token>, hs: seq<string>, i: nat, inList: bool, inPara: bool)
    requires i < |ts| == |hs|
    ensures var b := Body(ts, hs, i, inList, inPara);
      RenderFrom(ts, hs, i, inList, inPara) == b.pieces + RenderFrom(ts, hs, i + 1, b.inList, b.inPara)
  {
  }

  /** `RenderTextFlat` at a token, from the same at the next one. */
  lemma {:induction false} TextFlatUnfold(ts: seq<Token>, hs: seq<string>, i: nat, inList: bool, inPara: bool)
    requires i < |ts| == |hs|
    ensures RenderText(ts, hs, i, inList, inPara) == Flatten(RenderFrom(ts, hs, i, inList, inPara))
    decreases |ts| - i, 0
  {
    var b := Body(ts, hs, i, inList, inPara);
    var rest := RenderFrom(ts, hs, i + 1, b.inList, b.inPara);
    RenderTextFlat(ts, hs, i + 1, b.inList, b.inPara);
    RenderFromUnfold(ts, hs, i, inList, inPara);
    TextFlatStep(ts, hs, i, inList, inPara, rest);
  }

  /** One step of `RenderTextFlat`, for any rendering `rest` of the tokens after `i`. */
  lemma {:induction false} TextFlatStep(ts: seq<Token>, hs: seq<string>, i: nat, inList: bool, inPara: bool, rest: seq<Piece>)
    requires i < |ts| == |hs|
    requires var b := Body(ts, hs, i, inList, inPara);
      RenderText(ts, hs, i + 1, b.inList, b.inPara) == Flatten(rest)
    ensures RenderText(ts, hs, i, inList, inPara) == Flatten(Body(ts, hs, i, inList, inPara).pieces + rest)
  {
    FlattenAppend(Body(ts, hs, i, inList, inPara).pieces, rest);
  }

  /** `RenderTextFlat` past the last token. */
  lemma {:induction false} TextFlatEnd(ts: seq<Token>, hs: seq<string>, inList: bool, inPara: bool)
    requires |ts| == |hs|
    ensures RenderText(ts, hs, |ts|, inList, inPara) == Flatten(RenderFrom(ts, hs, |ts|, inList, inPara))
  {
  }

  /** One iteration of the loop as text: the two wrappings, the token's HTML, the closing. */
  lemma {:induction false} RenderTextStep(ts: seq<Token>, hs: seq<string>, i: nat, inList: bool, inPara: bool)
    requires i < |ts| == |hs|
    ensures var l := ListWrap(ts[i].kind, inList, inPara);
      var q := ParaWrap(ts[i].kind, l.inList, l.inPara);
      var c := CloseAfter(ts, i, q.inList, q.inPara);
      RenderText(ts, hs, i, inList, inPara)
        == Flatten(l.pieces) + Flatten(q.pieces) + hs[i] + Flatten(c.pieces)
           + RenderText(ts, hs, i + 1, c.inList, c.inPara)
  {
    BodyText(ts, hs, i, inList, inPara);
  }

  /** The text of one iteration. */
  lemma {:induction false} BodyText(ts: seq<Token>, hs: seq<string>, i: nat, inList: bool, inPara: bool)
    requires i < |ts| == |hs|
    ensures var l := ListWrap(ts[i].kind, inList, inPara);
      var q := ParaWrap(ts[i].kind, l.inList, l.inPara);
      var c := CloseAfter(ts, i, q.inList, q.inPara);
      var b := Body(ts, hs, i, inList, inPara);
      && b.inList == c.inList && b.inPara == c.inPara
      && Flatten(b.pieces) == Flatten(l.pieces) + Flatten(q.pieces) + hs[i] + Flatten(c.pieces)
  {
    var l := ListWrap(ts[i].kind, inList, inPara);
    var q := ParaWrap(ts[i].kind, l.inList, l.inPara);
    var b := Body(ts, hs, i, inList, inPara);
    var c := CloseAfter(ts, i, q.inList, q.inPara);
    var x := Item(ts[i], hs[i]);
    var w := l.pieces + q.pieces;
    BodyPieces(ts, hs, i, inList, inPara);
    FlattenAppend(w + [x], c.pieces);
    FlattenPush(w, x);
    FlattenAppend(l.pieces, q.pieces);
  }

  /** One iteration's pieces are the list wrapping, the paragraph wrapping, the token, then the closing after it. */
  lemma {:induction false} BodyPieces(ts: seq<Token>, hs: seq<string>, i: nat, inList: bool, inPara: bool)
    requires i < |ts| == |hs|
    ensures var l := ListWrap(ts[i].kind, inList, inPara);
      var q := ParaWrap(ts[i].kind, l.inList, l.inPara);
      var c := CloseAfter(ts, i, q.inList, q.inPara);
      var b := Body(ts, hs, i, inList, inPara);
      && b.inList == c.inList && b.inPara == c.inPara
      && b.pieces == l.pieces + q.pieces + [Item(ts[i], hs[i])] + c.pieces
  {
  }

  /** The two closing `if`s as text. */
  lemma {:induction false} RenderTextEnd(ts: seq<Token>, hs: seq<string>, inList: bool, inPara: bool)
    requires |ts| == |hs|
    ensures RenderText(ts, hs, |ts|, inList, inPara)
      == (if inList then "</ul>\n" else "") + (if inPara then "</p>\n" else "")
  {
    FlattenAppend(if inList then [CloseUl] else [], if inPara then [CloseP] else []);
    FlattenPush([], CloseUl);
    FlattenPush([], CloseP);
  }

  // ---------------------------------------------------------------
  // Interpreter::parse (main.cpp)
  // ---------------------------------------------------------------

  /**
   * `Interpreter::parse` for one token: no escaping, `<b>` and `<i>` for
   * emphasis, no newline after a block, and the same `find("|")` split.
   */
  function Interpret(tok: Token): (r: string)
  {
    var val := tok.value;
    match tok.kind
    case Text => val
    case H1 => "<h1>" + val + "</h1>"
    case H2 => "<h2>" + val + "</h2>"
    case H3 => "<h3>" + val + "</h3>"
    case H4 => "<h4>" + val + "</h4>"
    case H5 => "<h5>" + val + "</h5>"
    case H6 => "<h6>" + val + "</h6>"
    case Bold => "<b>" + val + "</b>"
    case Italic => "<i>" + val + "</i>"
    case Link =>
      var (link, url) := SplitAtBar(val);
      "<a href=\"" + url + "\">" + link + "</a>"
    case Image =>
      var (alt, src) := SplitAtBar(val);
      "<img src=\"" + src + "\" alt=\"" + alt + "\">"
    case List => "<li>" + val + "</li>"
  }

  /**
   * On a value with nothing to escape, the interpreter writes what the
   * parser's `tokenToHtml` writes, less the newline after a block;
   * emphasis is the exception, with `<b>`/`<i>` for `<strong>`/`<em>`.
   */
  lemma {:induction false} InterpretAgrees(tok: Token)
    requires forall i :: 0 <= i < |tok.value| ==> !Special(tok.value[i])
    ensures tok.kind != Bold && tok.kind != Italic ==>
      TokenHtml(tok) == Interpret(tok) + (if IsBlockElement(tok.kind) then "\n" else "")
    ensures tok.kind == Bold ==>
      (TokenHtml(tok) == "<strong>" + tok.value + "</strong>" && Interpret(tok) == "<b>" + tok.value + "</b>")
    ensures tok.kind == Italic ==>
      (TokenHtml(tok) == "<em>" + tok.value + "</em>" && Interpret(tok) == "<i>" + tok.value + "</i>")
  {
    var v := tok.value;
    EscapedPlain(v);
    match tok.kind {
      case H1 => Regroup2("<h1>" + v, "</h1>", "\n");
      case H2 => Regroup2("<h2>" + v, "</h2>", "\n");
      case H3 => Regroup2("<h3>" + v, "</h3>", "\n");
      case H4 => Regroup2("<h4>" + v, "</h4>", "\n");
      case H5 => Regroup2("<h5>" + v, "</h5>", "\n");
      case H6 => Regroup2("<h6>" + v, "</h6>", "\n");
      case List => Regroup2("<li>" + v, "</li>", "\n");
      case _ =>
    }
  }

  /** The interpreter takes a `label|url` payload apart like the parser, without escaping. */
  lemma {:induction false} InterpretLink(text: string, url: string)
    requires Lacks(text, '|')
    ensures Interpret(Tok(Link, text + "|" + url)) == "<a href=\"" + url + "\">" + text + "</a>"
    ensures Interpret(Tok(Image, text + "|" + url)) == "<img src=\"" + url + "\" alt=\"" + text + "\">"
  {
    SplitFirstBar(text, url);
  }
}
