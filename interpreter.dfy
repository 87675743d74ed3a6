/**
 * The `Interpreter` of main.cpp: it holds a copy of a lexer and the first
 * token that lexer's main.cpp `get_next_token` produces, and `parse`
 * writes that one token as HTML.
 */
module Interpreting {
  import opened Tokens
  import opened Scan
  import opened Html
  import opened Lexing

  class Interpreter {
    var lexer: Lexer
    var currentToken: Token

    /**
     * `Interpreter(Lexer l)`: `l` arrives by value, the member `lexer` is
     * copied from it before the token is read, and the token is read from
     * the parameter's own copy. So neither the caller's lexer nor the
     * stored one moves; the stored one stays at the start.
     */
    constructor (l: Lexer)
      requires l.Valid()
      ensures fresh(lexer) && lexer.Valid()
      ensures lexer.text == l.text && lexer.pos == l.pos
      ensures currentToken == LegacyNextToken(l.text, l.pos).tok
      ensures unchanged(l)
    {
      var stored := new Lexer.Copy(l);
      var byValue := new Lexer.Copy(l);
      var first := byValue.LegacyGetNextToken();
      lexer := stored;
      currentToken := first;
    }

    /** `Interpreter::parse`: the HTML of the current token alone. */
    method Parse() returns (res: string)
      ensures res == Interpret(currentToken)
    {
      var val := currentToken.value;
      match currentToken.kind {
        case Text => res := val;
        case H1 => res := "<h1>" + val + "</h1>";
        case H2 => res := "<h2>" + val + "</h2>";
        case H3 => res := "<h3>" + val + "</h3>";
        case H4 => res := "<h4>" + val + "</h4>";
        case H5 => res := "<h5>" + val + "</h5>";
        case H6 => res := "<h6>" + val + "</h6>";
        case Bold => res := "<b>" + val + "</b>";
        case Italic => res := "<i>" + val + "</i>";
        case Link =>
          var (link, url) := SplitAtBar(val);
          res := "<a href=\"" + url + "\">" + link + "</a>";
        case Image =>
          var (alt, src) := SplitAtBar(val);
          res := "<img src=\"" + src + "\" alt=\"" + alt + "\">";
        case List => res := "<li>" + val + "</li>";
      }
    }
  }
}
