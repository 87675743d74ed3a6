/**
 * `Parser` of parser/main.cpp: `parse` runs the lexer to the end, keeping
 * every token before EOF, and `tokensToHtml` writes them out, wrapping
 * runs of text and inline tokens in `<p>` and runs of list items in `<ul>`.
 * Each method is proved to compute the matching `Scan` or `Html` function.
 */
module Parsing {
  import opened Chars
  import opened Tokens
  import opened Scan
  import opened Html
  import opened Lexing

  class Parser {
    /** The lexer of the last `parse` (`std::unique_ptr<Lexer>`); `null` before the first. */
    var lexer: Lexer?
    /** The tokens of the last `parse`, EOF left out. */
    var tokens: seq<Token>
    /** Declared by the source and never written. */
    var html: string

    constructor ()
      ensures lexer == null && tokens == [] && html == ""
    {
      lexer := null;
      tokens := [];
      html := "";
    }

    /** `parse`: tokenize `markdown` from the start, then write the tokens as HTML. */
    method Parse(markdown: string) returns (result: string)
      requires NoNul(markdown)
      modifies this
      ensures tokens == Tokenize(markdown, 0)
      ensures result == Flatten(Render(tokens))
      ensures html == old(html)
      ensures lexer != null && fresh(lexer) && lexer.text == markdown && lexer.Valid()
      ensures At(markdown, lexer.pos) == '\0'
    {
      var lx := new Lexer(markdown);
      lexer := lx;
      tokens := [];
      var token := lx.GetNextToken();
      TokenizeStep(markdown, 0, token, lx.pos);
      while !token.isEof
        invariant lexer == lx && lx.Valid() && lx.text == markdown && html == old(html)
        invariant Tokenize(markdown, 0) == tokens + (if token.isEof then [] else [token] + Tokenize(markdown, lx.pos))
        invariant token.isEof ==> At(markdown, lx.pos) == '\0'
        decreases if token.isEof then 0 else |markdown| - lx.pos + 1
      {
        ghost var p := lx.pos;
        Regroup2(tokens, [token], Tokenize(markdown, p));
        tokens := tokens + [token];
        token := lx.GetNextToken();
        TokenizeStep(markdown, p, token, lx.pos);
      }
      result := TokensToHtml();
    }

    /**
     * `tokensToHtml`: one pass over `tokens` with the `inList` and
     * `inParagraph` flags. Each iteration does the list wrapping, the
     * paragraph wrapping, writes the token, and closes the paragraph after
     * the last token or before a block token; then open blocks are closed.
     */
    method TokensToHtml() returns (result: string)
      ensures result == Flatten(Render(tokens))
    {
      var output := "";
      var inList := false;
      var inParagraph := false;
      ghost var whole := RenderText(tokens, Htmls(tokens), 0, false, false);
      for i := 0 to |tokens|
        invariant output + RenderText(tokens, Htmls(tokens), i, inList, inParagraph) == whole
      {
        var fragment;
        fragment, inList, inParagraph := EmitToken(i, inList, inParagraph);
        Regroup2(output, fragment, RenderText(tokens, Htmls(tokens), i + 1, inList, inParagraph));
        output := output + fragment;
      }
      var closing := CloseBlocks(inList, inParagraph);
      output := output + closing;
      RenderTextFlat(tokens, Htmls(tokens), 0, false, false);
      result := output;
    }

    /**
     * The body of the `for` loop of `tokensToHtml` for token `i`: the list
     * wrapping, the paragraph wrapping, the token, and the closing of the
     * paragraph; the result is what the iteration appends to the output.
     */
    method EmitToken(i: nat, inList: bool, inParagraph: bool) returns (output: string, inList': bool, inParagraph': bool)
      requires i < |tokens|
      ensures output + RenderText(tokens, Htmls(tokens), i + 1, inList', inParagraph')
        == RenderText(tokens, Htmls(tokens), i, inList, inParagraph)
    {
      var token := tokens[i];
      var listHtml, paraHtml, fragment, closeHtml;
      listHtml, inList', inParagraph' := ListWrapping(token.kind, inList, inParagraph);
      paraHtml, inParagraph' := ParagraphWrapping(token.kind, inList', inParagraph');
      fragment := TokenToHtml(token);
      closeHtml, inParagraph' := CloseParagraph(i, inList', inParagraph');
      output := listHtml + paraHtml + fragment + closeHtml;
      RenderTextStep(tokens, Htmls(tokens), i, inList, inParagraph);
      HtmlsAt(tokens, i);
    }

    /** The two `if`s after the loop: close an open list, then an open paragraph. */
    method CloseBlocks(inList: bool, inParagraph: bool) returns (output: string)
      ensures output == RenderText(tokens, Htmls(tokens), |tokens|, inList, inParagraph)
    {
      output := "";
      if inList {
        output := output + "</ul>\n";
      }
      if inParagraph {
        output := output + "</p>\n";
      }
      RenderTextEnd(tokens, Htmls(tokens), inList, inParagraph);
    }

    /** The list wrapping: a LIST token closes an open paragraph and opens `<ul>`; any other closes `<ul>`. */
    method ListWrapping(kind: TokenType, inList: bool, inParagraph: bool) returns (output: string, inList': bool, inParagraph': bool)
      ensures var e := ListWrap(kind, inList, inParagraph);
        output == Flatten(e.pieces) && inList' == e.inList && inParagraph' == e.inPara
    {
      output, inList', inParagraph' := "", inList, inParagraph;
      ghost var pieces: seq<Piece> := [];
      if kind == List {
        if inParagraph' {
          FlattenPush(pieces, CloseP);
          output, pieces, inParagraph' := output + "</p>\n", pieces + [CloseP], false;
        }
        if !inList' {
          FlattenPush(pieces, OpenUl);
          output, pieces, inList' := output + "<ul>\n", pieces + [OpenUl], true;
        }
      } else if inList' {
        FlattenPush(pieces, CloseUl);
        output, pieces, inList' := output + "</ul>\n", pieces + [CloseUl], false;
      }
      assert pieces == ListWrap(kind, inList, inParagraph).pieces;
    }

    /** The paragraph wrapping: text and inline tokens open `<p>`, block tokens close it. */
    method ParagraphWrapping(kind: TokenType, inList: bool, inParagraph: bool) returns (output: string, inParagraph': bool)
      ensures var e := ParaWrap(kind, inList, inParagraph);
        output == Flatten(e.pieces) && inList == e.inList && inParagraph' == e.inPara
    {
      output, inParagraph' := "", inParagraph;
      ghost var pieces: seq<Piece> := [];
      if (kind == Text || IsInlineElement(kind)) && !inParagraph' {
        FlattenPush(pieces, OpenP);
        output, pieces, inParagraph' := output + "<p>", pieces + [OpenP], true;
      } else if inParagraph' && IsBlockElement(kind) {
        FlattenPush(pieces, CloseP);
        output, pieces, inParagraph' := output + "</p>\n", pieces + [CloseP], false;
      }
      assert pieces == ParaWrap(kind, inList, inParagraph).pieces;
    }

    /** Close the paragraph if token `i` is the last one or the next is a block token. */
    method CloseParagraph(i: nat, inList: bool, inParagraph: bool) returns (output: string, inParagraph': bool)
      requires i < |tokens|
      ensures var e := CloseAfter(tokens, i, inList, inParagraph);
        output == Flatten(e.pieces) && inList == e.inList && inParagraph' == e.inPara
    {
      output, inParagraph' := "", inParagraph;
      ghost var pieces: seq<Piece> := [];
      if inParagraph' && (i == |tokens| - 1 || IsBlockElement(tokens[i + 1].kind)) {
        FlattenPush(pieces, CloseP);
        output, pieces, inParagraph' := output + "</p>\n", pieces + [CloseP], false;
      }
      assert pieces == CloseAfter(tokens, i, inList, inParagraph).pieces;
    }

    /** `tokenToHtml`: escape the value, then wrap it as the token's type says. */
    method TokenToHtml(token: Token) returns (r: string)
      ensures r == TokenHtml(token)
    {
      var content := EscapeHtml(token.value);
      match token.kind {
        case Text => r := content;
        case H1 => r := "<h1>" + content + "</h1>\n";
        case H2 => r := "<h2>" + content + "</h2>\n";
        case H3 => r := "<h3>" + content + "</h3>\n";
        case H4 => r := "<h4>" + content + "</h4>\n";
        case H5 => r := "<h5>" + content + "</h5>\n";
        case H6 => r := "<h6>" + content + "</h6>\n";
        case Bold => r := "<strong>" + content + "</strong>";
        case Italic => r := "<em>" + content + "</em>";
        case List => r := "<li>" + content + "</li>\n";
        case Link =>
          var sep := Find(content, '|');
          var text := if sep.None? then content else content[..sep.value];
          var url := if sep.None? then content else content[sep.value + 1..];
          r := "<a href=\"" + url + "\">" + text + "</a>";
        case Image =>
          var sep := Find(content, '|');
          var alt := if sep.None? then content else content[..sep.value];
          var src := if sep.None? then content else content[sep.value + 1..];
          r := "<img src=\"" + src + "\" alt=\"" + alt + "\">";
      }
    }

    /** `escapeHtml`: the text with `<`, `>`, `&` and `"` replaced by their entities. */
    method EscapeHtml(text: string) returns (r: string)
      ensures r == Escaped(text)
    {
      r := "";
      for i := 0 to |text|
        invariant r == Escaped(text[..i])
      {
        var c := text[i];
        if c == '<' {
          r := r + "&lt;";
        } else if c == '>' {
          r := r + "&gt;";
        } else if c == '&' {
          r := r + "&amp;";
        } else if c == '"' {
          r := r + "&quot;";
        } else {
          r := r + [c];
        }
        assert text[..i + 1][..i] == text[..i];
      }
      assert text[..|text|] == text;
    }
  }
}
