/**
 * The cursor-based lexer: `text`, `pos` and the cached `current` character,
 * moved forward by `Advance`. Each handler is proved to return the token and
 * leave the cursor where the matching `Scan` function says.
 *
 * One class serves both source files: parser/main.cpp and main.cpp share
 * every member except `handle_heading` and `get_next_token`, whose main.cpp
 * versions are `LegacyHandleHeading` and `LegacyGetNextToken`.
 */
module Lexing {
  import opened Chars
  import opened Tokens
  import opened Scan

  class Lexer {
    var text: string
    var pos: nat
    var current: char

    /** The cursor invariant: `current` is the character at `pos` and the cursor never passes the end. */
    ghost predicate Valid()
      reads this
    {
      NoNul(text) && pos <= |text| && current == At(text, pos)
    }

    constructor (text: string)
      requires NoNul(text)
      ensures Valid() && this.text == text && pos == 0
    {
      this.text := text;
      pos := 0;
      current := if |text| == 0 then '\0' else text[0];
    }

    /** The copy C++ makes when a `Lexer` is passed or stored by value. */
    constructor Copy(other: Lexer)
      requires other.Valid()
      ensures Valid() && text == other.text && pos == other.pos && current == other.current
    {
      text := other.text;
      pos := other.pos;
      current := other.current;
    }

    /** Move one character forward; `'\0'` once past the end. */
    method Advance()
      modifies this
      ensures text == old(text) && pos == old(pos) + 1
      ensures current == At(text, pos)
    {
      pos := pos + 1;
      if pos >= |text| {
        current := '\0';
      } else {
        current := text[pos];
      }
    }

    /** The character after the cursor, `'\0'` past the end. */
    function Peek(): (c: char)
      reads this
      ensures c == At(text, pos + 1)
    {
      if pos + 1 >= |text| then '\0' else text[pos + 1]
    }

    /** Collect characters up to `delimiter`, `'\n'` or the end, without consuming the stop. */
    method CollectUntil(delimiter: char) returns (result: string)
      requires Valid()
      modifies this
      ensures Valid() && text == old(text)
      ensures pos == CollectEnd(text, old(pos), delimiter)
      ensures result == text[old(pos)..pos]
    {
      result := "";
      while current != '\0' && current != delimiter && current != '\n'
        invariant Valid() && text == old(text)
        invariant old(pos) <= pos
        invariant CollectEnd(text, pos, delimiter) == CollectEnd(text, old(pos), delimiter)
        invariant result == text[old(pos)..pos]
        decreases |text| - pos
      {
        result := result + [current];
        Advance();
      }
    }

    /** `if (current_char == '\n') advance();` */
    method SkipLineEnd()
      requires Valid()
      modifies this
      ensures Valid() && text == old(text)
      ensures pos == SkipNewline(text, old(pos))
    {
      if current == '\n' {
        Advance();
      }
    }

    /** Skip whitespace other than `'\n'`; returns how many characters were skipped. */
    method SkipSpaces() returns (count: nat)
      requires Valid()
      modifies this
      ensures Valid() && text == old(text)
      ensures pos == SkipBlanks(text, old(pos))
      ensures count == pos - old(pos)
    {
      count := 0;
      while IsSpace(current) && current != '\n'
        invariant Valid() && text == old(text)
        invariant old(pos) <= pos && count == pos - old(pos)
        invariant SkipBlanks(text, pos) == SkipBlanks(text, old(pos))
        decreases |text| - pos
      {
        count := count + 1;
        Advance();
      }
    }

    /** Count further `#` up to level 6. */
    method CountHashes(start: nat) returns (level: nat)
      requires Valid() && 1 <= start <= 6
      modifies this
      ensures Valid() && text == old(text)
      ensures Run(pos, level) == HashRun(text, old(pos), start)
    {
      level := start;
      while current == '#' && level < 6
        invariant Valid() && text == old(text)
        invariant old(pos) <= pos && 1 <= level <= 6
        invariant HashRun(text, pos, level) == HashRun(text, old(pos), start)
        decreases |text| - pos
      {
        level := level + 1;
        Advance();
      }
    }

    /** `handle_heading` of parser/main.cpp. */
    method HandleHeading() returns (tok: Token)
      requires Valid() && current == '#'
      modifies this
      ensures Valid() && text == old(text)
      ensures Step(tok, pos) == HeadingStep(text, old(pos))
    {
      Advance();
      var level := CountHashes(1);
      ghost var run := Run(pos, level);
      tok := HeadingLine(level);
      HeadingParts(text, old(pos), run, tok, pos);
    }

    /**
     * The rest of `handle_heading` once the `#` run of `level` hashes is
     * consumed: a TEXT token when no blank follows it, else a heading of
     * the rest of the line.
     */
    method HeadingLine(level: nat) returns (tok: Token)
      requires Valid()
      modifies this
      ensures Valid() && text == old(text)
      ensures !IsSpace(At(text, old(pos))) ==>
        var e := CollectEnd(text, old(pos), '\n');
        tok == Tok(Text, Hashes(level) + text[old(pos)..e]) && pos == SkipNewline(text, e)
      ensures IsSpace(At(text, old(pos))) ==>
        var c := SkipBlanks(text, old(pos));
        var e := CollectEnd(text, c, '\n');
        tok == LevelToken(level, text[c..e], Hashes(level)) && pos == SkipNewline(text, e)
    {
      if !IsSpace(current) {
        var rest := CollectUntil('\n');
        SkipLineEnd();
        return Tok(Text, Hashes(level) + rest);
      }
      var _ := SkipSpaces();
      var content := CollectUntil('\n');
      SkipLineEnd();
      tok := LevelToken(level, content, Hashes(level));
    }

    /** `handle_emphasis`: bold on `**`, italic on a single `*`. */
    method HandleEmphasis() returns (tok: Token)
      requires Valid() && current == '*'
      modifies this
      ensures Valid() && text == old(text)
      ensures Step(tok, pos) == EmphasisStep(text, old(pos))
    {
      Advance();
      if current == '*' {
        Advance();
        var content := CollectUntil('*');
        if current == '*' && Peek() == '*' {
          Advance();
          Advance();
          return Tok(Bold, content);
        }
        return Tok(Text, "**" + content + (if current == '*' then "*" else ""));
      } else {
        var content, closed := CollectItalic();
        if closed {
          return Tok(Italic, content);
        }
        return Tok(Text, "*" + content);
      }
    }

    /**
     * The italic loop of `handle_emphasis`: collects up to the next `*`,
     * `'\n'` or the end, and consumes the `*` when that is what it met.
     */
    method CollectItalic() returns (content: string, closed: bool)
      requires Valid()
      modifies this
      ensures Valid() && text == old(text)
      ensures var e := CollectEnd(text, old(pos), '*');
        && content == text[old(pos)..e]
        && closed == (At(text, e) == '*')
        && pos == (if closed then e + 1 else e)
    {
      content := "";
      while current != '\0' && current != '\n'
        invariant Valid() && text == old(text)
        invariant old(pos) <= pos
        invariant CollectEnd(text, pos, '*') == CollectEnd(text, old(pos), '*')
        invariant content == text[old(pos)..pos]
        decreases |text| - pos
      {
        if current == '*' {
          Advance();
          return content, true;
        }
        content := content + [current];
        Advance();
      }
      return content, false;
    }

    /**
     * The label loop of `handle_link`: `\[` adds `[` and leaves the depth,
     * `[` and `]` move it, and the `]` that brings it to 0 is consumed and
     * ends the loop. Returns the label and the depth left (0 when closed).
     */
    method ScanLabel() returns (linkText: string, bracketCount: nat)
      requires Valid()
      modifies this
      ensures Valid() && text == old(text)
      ensures LabelScan(text, old(pos), 1) == Label(linkText, pos, bracketCount == 0)
    {
      linkText := "";
      bracketCount := 1;
      while current != '\0'
        invariant Valid() && text == old(text)
        invariant bracketCount >= 1
        invariant LabelScan(text, old(pos), 1) == PrefixLabel(linkText, LabelScan(text, pos, bracketCount))
        decreases |text| - pos
      {
        ghost var before := linkText;
        ghost var depth := bracketCount;
        if current == '\\' && Peek() == '[' {
          LabelScanEscape(text, pos, depth);
          linkText := linkText + "[";
          Advance();
          Advance();
          PrefixLabelAppend(before, "[", LabelScan(text, pos, depth));
          continue;
        }
        var c := current;
        if current == '[' {
          bracketCount := bracketCount + 1;
        } else if current == ']' {
          bracketCount := bracketCount - 1;
          if bracketCount == 0 {
            LabelScanClose(text, pos);
            Advance();
            assert linkText + [] == linkText;
            break;
          }
        }
        LabelScanChar(text, pos, depth, bracketCount);
        linkText := linkText + [c];
        Advance();
        PrefixLabelAppend(before, [c], LabelScan(text, pos, bracketCount));
      }
    }

    /** `handle_link`: the bracketed label, then `(url)`, with the literal fallbacks. */
    method HandleLink() returns (tok: Token)
      requires Valid() && current == '['
      modifies this
      ensures Valid() && text == old(text)
      ensures Step(tok, pos) == LinkStep(text, old(pos))
    {
      Advance();
      var linkText, bracketCount := ScanLabel();
      ghost var l := Label(linkText, pos, bracketCount == 0);
      ghost var afterLabel := pos;
      tok := LinkTail(linkText, bracketCount);
      if l.closed && At(text, l.end) == '(' {
        LinkPartsUrl(text, old(pos), l, CollectEnd(text, afterLabel + 1, ')'));
      } else {
        LinkPartsNoUrl(text, old(pos), l);
      }
    }

    /**
     * The rest of `handle_link` once the label loop has stopped: an open
     * label, a missing `(`, or a missing `)` fall back to TEXT spelling out
     * what was consumed; otherwise LINK with value `label|url`.
     */
    method LinkTail(linkText: string, bracketCount: nat) returns (tok: Token)
      requires Valid()
      modifies this
      ensures Valid() && text == old(text)
      ensures bracketCount > 0 ==> tok == Tok(Text, "[" + linkText) && pos == old(pos)
      ensures bracketCount == 0 && At(text, old(pos)) != '(' ==> tok == Tok(Text, "[" + linkText + "]") && pos == old(pos)
      ensures bracketCount == 0 && At(text, old(pos)) == '(' ==>
        var e := CollectEnd(text, old(pos) + 1, ')');
        if At(text, e) != ')' then tok == Tok(Text, "[" + linkText + "](" + text[old(pos) + 1..e]) && pos == e
        else tok == Tok(Link, linkText + "|" + text[old(pos) + 1..e]) && pos == e + 1
    {
      if bracketCount > 0 {
        return Tok(Text, "[" + linkText);
      }
      if current != '(' {
        return Tok(Text, "[" + linkText + "]");
      }
      Advance();
      var url := CollectUntil(')');
      if current != ')' {
        return Tok(Text, "[" + linkText + "](" + url);
      }
      Advance();
      tok := Tok(Link, linkText + "|" + url);
    }

    /** `handle_image`: a `!` before a link. */
    method HandleImage() returns (tok: Token)
      requires Valid() && current == '!'
      modifies this
      ensures Valid() && text == old(text)
      ensures Step(tok, pos) == ImageStep(text, old(pos))
    {
      Advance();
      if current != '[' {
        return Tok(Text, "!");
      }
      var linkToken := HandleLink();
      if linkToken.kind == Link {
        return Tok(Image, linkToken.value);
      }
      tok := Tok(Text, "!" + linkToken.value);
    }

    /** `handle_list`: `-` and one whitespace character, then the rest of the line. */
    method HandleList() returns (tok: Token)
      requires Valid() && current == '-'
      modifies this
      ensures Valid() && text == old(text)
      ensures Step(tok, pos) == ListStep(text, old(pos))
    {
      Advance();
      if !IsSpace(current) {
        var rest := CollectUntil('\n');
        SkipLineEnd();
        return Tok(Text, "-" + rest);
      }
      Advance();
      var content := CollectUntil('\n');
      SkipLineEnd();
      tok := Tok(List, content);
    }

    /** The plain-text run of parser/main.cpp's `get_next_token`, trailing newlines trimmed. */
    method CollectText() returns (tok: Token)
      requires Valid()
      modifies this
      ensures Valid() && text == old(text)
      ensures Step(tok, pos) == TextStep(text, old(pos))
    {
      var textContent := "";
      while current != '\0' && !IsMarkdownChar(current)
        invariant Valid() && text == old(text)
        invariant old(pos) <= pos
        invariant TextEnd(text, pos) == TextEnd(text, old(pos))
        invariant textContent == text[old(pos)..pos]
        decreases |text| - pos
      {
        if current == '\n' && Peek() == '\n' {
          break;
        }
        textContent := textContent + [current];
        Advance();
      }
      ghost var collected := textContent;
      while |textContent| > 0 && textContent[|textContent| - 1] == '\n'
        invariant TrimNewlines(textContent) == TrimNewlines(collected)
      {
        textContent := textContent[..|textContent| - 1];
      }
      tok := Tok(Text, textContent);
    }

    /** `get_next_token` of parser/main.cpp. */
    method GetNextToken() returns (tok: Token)
      requires Valid()
      modifies this
      ensures Valid() && text == old(text)
      ensures Step(tok, pos) == NextToken(text, old(pos))
    {
      if current == '\0' {
        return Eof();
      }
      while current == '\n'
        invariant Valid() && text == old(text)
        invariant old(pos) <= pos
        invariant current != '\0'
        invariant SkipNewlines(text, pos) == SkipNewlines(text, old(pos))
        decreases |text| - pos
      {
        Advance();
        if current == '\0' {
          return Eof();
        }
      }
      assert NextToken(text, old(pos)) == Dispatch(text, pos);
      if current == '#' {
        tok := HandleHeading();
      } else if current == '*' {
        tok := HandleEmphasis();
      } else if current == '[' {
        tok := HandleLink();
      } else if current == '!' {
        tok := HandleImage();
      } else if current == '-' {
        tok := HandleList();
      } else {
        tok := CollectText();
      }
    }

    /** The blank loop of main.cpp's `handle_heading`, which keeps what it skips. */
    method KeepBlanks() returns (kept: string)
      requires Valid()
      modifies this
      ensures Valid() && text == old(text)
      ensures pos == SkipBlanks(text, old(pos))
      ensures kept == text[old(pos)..pos]
    {
      kept := "";
      while IsSpace(current) && current != '\n'
        invariant Valid() && text == old(text)
        invariant old(pos) <= pos
        invariant SkipBlanks(text, pos) == SkipBlanks(text, old(pos))
        invariant kept == text[old(pos)..pos]
        decreases |text| - pos
      {
        kept := kept + [current];
        Advance();
      }
    }

    /** `handle_heading` of main.cpp: blanks before the `#` count are kept in `original`. */
    method LegacyHandleHeading() returns (tok: Token)
      requires Valid() && current == '#'
      modifies this
      ensures Valid() && text == old(text)
      ensures Step(tok, pos) == LegacyHeadingStep(text, old(pos))
    {
      var original, level := LegacyHeadingRun();
      ghost var run := Run(pos, level);
      tok := LegacyHeadingTail(level, original);
      LegacyHeadingParts(text, old(pos), SkipBlanks(text, old(pos) + 1), run, original, tok, pos);
    }

    /**
     * The start of main.cpp's `handle_heading`: consume the `#` and the
     * blanks after it, then count further `#` up to level 6, keeping all of
     * it in `original`.
     */
    method LegacyHeadingRun() returns (original: string, level: nat)
      requires Valid() && current == '#'
      modifies this
      ensures Valid() && text == old(text)
      ensures var a := SkipBlanks(text, old(pos) + 1);
        && Run(pos, level) == HashRun(text, a, 1)
        && original == "#" + text[old(pos) + 1..a] + Hashes(level - 1)
    {
      original := "#";
      Advance();
      var blanks := KeepBlanks();
      original, level := LegacyHashes(original + blanks);
    }

    /**
     * The `#` loop of main.cpp's `handle_heading`: counts up to six hashes
     * from level 1, appending each one it consumes to `original`.
     */
    method LegacyHashes(prefix: string) returns (original: string, level: nat)
      requires Valid()
      modifies this
      ensures Valid() && text == old(text)
      ensures Run(pos, level) == HashRun(text, old(pos), 1)
      ensures original == prefix + Hashes(level - 1)
    {
      original := prefix;
      level := 1;
      while current == '#' && level < 6
        invariant Valid() && text == old(text)
        invariant old(pos) <= pos && 1 <= level <= 6
        invariant HashRun(text, pos, level) == HashRun(text, old(pos), 1)
        invariant original == prefix + Hashes(level - 1)
        decreases |text| - pos
      {
        original := original + "#";
        level := level + 1;
        Advance();
      }
    }

    /**
     * The end of main.cpp's `handle_heading`: count the blanks after the
     * run, take the rest of the line, consume its `'\n'`; no blank means
     * TEXT, otherwise the level switch.
     */
    method LegacyHeadingTail(level: nat, original: string) returns (tok: Token)
      requires Valid()
      modifies this
      ensures Valid() && text == old(text)
      ensures var c := SkipBlanks(text, old(pos)); var e := CollectEnd(text, c, '\n');
        && pos == SkipNewline(text, e)
        && tok == if c == old(pos) then Tok(Text, original + text[c..e]) else LevelToken(level, text[c..e], original)
    {
      var spaces := SkipSpaces();
      var content := CollectUntil('\n');
      SkipLineEnd();
      if spaces == 0 {
        return Tok(Text, original + content);
      }
      tok := LevelToken(level, content, original);
    }

    /** The text loop of main.cpp's `get_next_token`: `'\n'` is consumed but not kept. */
    method LegacyCollectText() returns (textContent: string)
      requires Valid()
      modifies this
      ensures Valid() && text == old(text)
      ensures pos == LegacyTextEnd(text, old(pos))
      ensures textContent == DropNewlines(text[old(pos)..pos])
    {
      textContent := "";
      while current != '\0' && !IsMarkdownChar(current)
        invariant Valid() && text == old(text)
        invariant old(pos) <= pos
        invariant LegacyTextEnd(text, pos) == LegacyTextEnd(text, old(pos))
        invariant textContent == DropNewlines(text[old(pos)..pos])
        decreases |text| - pos
      {
        assert text[old(pos)..pos + 1][..pos - old(pos)] == text[old(pos)..pos];
        if current == '\n' {
          Advance();
        } else {
          textContent := textContent + [current];
          Advance();
        }
      }
    }

    /** `get_next_token` of main.cpp, including its self-call after a blank run. */
    method LegacyGetNextToken() returns (tok: Token)
      requires Valid()
      modifies this
      ensures Valid() && text == old(text)
      ensures Step(tok, pos) == LegacyNextToken(text, old(pos))
      decreases |text| - pos
    {
      if current == '\0' {
        return Tok(Text, "");
      }
      if current == '#' {
        tok := LegacyHandleHeading();
      } else if current == '*' {
        tok := HandleEmphasis();
      } else if current == '[' {
        tok := HandleLink();
      } else if current == '!' {
        tok := HandleImage();
      } else if current == '-' {
        tok := HandleList();
      } else {
        var textContent := LegacyCollectText();
        if textContent == [] || AllBlank(textContent) {
          if current != '\0' {
            tok := LegacyGetNextToken();
          } else {
            tok := Tok(Text, "");
          }
        } else {
          tok := Tok(Text, textContent);
        }
      }
    }
  }
}
