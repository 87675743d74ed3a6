# notedown in Dafny

A model of the core of notedown, a small Markdown-to-HTML converter written
in C++, with proofs about it. The core has two parts:

- **parser/main.cpp**
  - A cursor-based `Lexer`. It keeps `text`, `pos` and `current_char`.
  - `get_next_token` skips blank lines, then dispatches on `#`, `*`, `[`, `!` and `-` to the heading, emphasis, link, image and list handlers. Any other character starts a plain-text run.
  - It returns an explicit EOF token at the end of input.
  - A `Parser`. `parse` pulls tokens until EOF. `tokensToHtml` writes them in one pass, tracking the `inList` and `inParagraph` flags: runs of text and inline tokens go inside `<p>`, runs of list items inside `<ul>`.
  - `tokenToHtml` fills in each token's template after `escapeHtml`.
- **main.cpp**
  - An older version of the same lexer. Its `handle_heading` keeps blanks that come before the `#` count.
  - Its `get_next_token` drops newlines from text runs and skips blank-only runs by calling itself again. It returns an empty TEXT token as the end-of-input sentinel.
  - An `Interpreter` that writes one token as HTML, with other tags and no escaping.

## Model layout

Modules, one per file:

- **`Chars`** (chars.dfy): character classes (`isspace` in the C locale, `is_markdown_char`) and the character at a position, which is `'\0'` past the end.
- **`Tokens`** (tokens.dfy): token types, the token record with its EOF flag, and the level switch of the heading handlers.
- **`Scan`** (scan.dfy): a specification function for every lexer operation. Each one maps the text and a start position to the token returned and the position where the cursor ends up. `Tokenize` is the token list that `parse` collects.
- **`Lexing`** (lexer.dfy): `class Lexer`.
  - Fields: `text`, `pos` and `current`.
  - Every method mirrors a C++ member's loops and branches. Each is proved to return the token and leave the cursor exactly as its `Scan` function says.
  - Where only the main.cpp version differs, it is the `Legacy*` method.
- **`ScanProps`** (scan_props.dfy) and **`LinkProps`** (link_props.dfy): what the handlers promise, proved about the `Scan` functions. This covers progress and EOF, heading levels and their fallbacks, and emphasis, lists and text runs. It also covers the link label's bracket depth (`DepthAfter`: the label ends at the first `]` that brings the depth to 0) and its `\[` escape, the four link outcomes, images, and the behaviour of main.cpp's heading and sentinel. Each construct is covered in both directions: what a result implies about the input, and which inputs give BOLD, ITALIC, LINK and IMAGE.
- **`SourceCases`** (source_cases.dfy): the source's bold and italic lexer tests, derived from the general lemmas.
- **`Html`** (html.dfy): specification functions for the HTML side.
  - `escapeHtml` is `Escaped`, with an inverse, `Unescape`. `tokenToHtml` is `TokenHtml`, with the `find('|')` split.
  - `tokensToHtml` is `Render`. It yields a list of pieces (`<p>`, `</p>`, `<ul>`, `</ul>`, and token fragments).
  - Lemmas on the pieces prove that every token is written once, in order, and that the tags nest correctly.
  - `Interpret` is `Interpreter::parse`.
- **`Parsing`** (parser.dfy): `class Parser`. `Parse` and `TokensToHtml` are loops proved to compute `Tokenize` and `Render`.
- **`Interpreting`** (interpreter.dfy): `class Interpreter`.

Inputs are strings of `char`, and the input may not contain `'\0'`. The lexer treats `'\0'` as the end of input, so a NUL in the middle would truncate it.

The known quirks are reproduced, not fixed:

- main.cpp never produces H1.
- The bold fallback adds a `*` to the value but leaves the cursor on that `*`.
- A `|` in a link label moves the rest of the label into the URL.
- A missing `|` makes both halves of the split the whole value, because `npos + 1` wraps to 0.

Where the code and a plain reading of the converter's documented behaviour part ways, the model follows the code:

- `**outer *inner* outer**` is not one bold token with the inner asterisks kept. Bold scanning stops at the first `*`, so the result is TEXT `**outer *`. The cursor is left on the inner `*`, which then starts an italic.
- A seventh `#` does not end up in the content of a level-6 heading. The character after the sixth `#` is not whitespace, so the whole line becomes TEXT.
- A fallback is not always the consumed characters verbatim:
  - `\[` in a label reads as `[`.
  - The bold fallback adds a `*` that it did not consume.
  - The list and heading fallbacks drop the `'\n'` that ends the line.

  `LinkFallbackVerbatim` and `ImageFallbackVerbatim` state the exact condition under which the fallback is verbatim: no backslash in what was consumed.

## Model

| member | source | states |
|---|---|---|
| Chars.IsSpace | parser/main.cpp:111-117 | `isspace` in the C locale holds only for ASCII blanks up to the space character, never for the end-of-input `'\0'` |
| Chars.IsMarkdownChar | parser/main.cpp:238-240 | the construct characters are neither blanks nor the end-of-input `'\0'`, so the text loop and the dispatch never compete with the blank skipping or the end test |
| Chars.Hashes | parser/main.cpp:114 | `std::string(level, '#')` is exactly `level` characters, all `#` |
| Tokens.Eof | parser/main.cpp:43-47 | `createEOF` gives an empty TEXT token marked as the end, which differs from every ordinary token |
| Tokens.KindClasses | parser/main.cpp:323-330 | `isInlineElement` and `isBlockElement` split the token types with TEXT: each type is exactly one of TEXT, inline or block, and no inline type is a heading or LIST |
| Tokens.HeadingKind | parser/main.cpp:124-130 | a level from 1 to 6 maps to a heading type; the type is H1 exactly for level 1 |
| Tokens.LevelToken | parser/main.cpp:124-132 | the level switch: levels 1 to 6 give that heading holding the content; any other level gives TEXT of the original prefix and the content |
| Scan.CollectEnd | parser/main.cpp:89-100 | `collect_until(d)` stops at the first `d`, `'\n'` or end of input, and nothing it passes over is one of those |
| Scan.SkipBlanks | parser/main.cpp:117-119 | the blank-skipping loop passes only whitespace other than `'\n'`, and stops on a non-space or on `'\n'` |
| Scan.SkipNewline | parser/main.cpp:113 | the cursor moves by one exactly when it is on `'\n'` |
| Scan.HashRun | parser/main.cpp:103-109 | the `#` count: the level is 1 plus the hashes consumed, never above 6, every consumed character is `#`, and the loop stops at level 6 or at a non-`#` |
| Scan.HeadingStep | parser/main.cpp:102-133 | `handle_heading` consumes at least the `#` and never returns EOF |
| Scan.EmphasisStep | parser/main.cpp:135-162 | `handle_emphasis` consumes at least the `*` and never returns EOF |
| Scan.LabelScan | parser/main.cpp:165-188 | the label loop stays in the text; a closed label ends just after a `]`; an unclosed one runs to the end of input |
| Scan.LinkStep | parser/main.cpp:164-206 | `handle_link` consumes at least the `[` and returns LINK or TEXT |
| Scan.ImageStep | parser/main.cpp:208-218 | `handle_image` consumes at least the `!` and returns IMAGE or TEXT |
| Scan.ListStep | parser/main.cpp:220-235 | `handle_list` consumes at least the `-` and returns LIST or TEXT |
| Scan.TextEnd | parser/main.cpp:280-289 | the text loop passes no NUL, no construct character and no blank line, and stops at the end, at a construct character, or at a `'\n'` followed by `'\n'` |
| Scan.TrimNewlines | parser/main.cpp:291-294 | the trim leaves a prefix that does not end in `'\n'`, and removes only `'\n'` |
| Scan.TextStep | parser/main.cpp:280-296 | the text path returns TEXT, and moves the cursor whenever it starts on an ordinary character |
| Scan.SkipNewlines | parser/main.cpp:252-258 | the newline-skipping loop passes only `'\n'` and stops on something else |
| Scan.NextToken | parser/main.cpp:247-297 | an EOF result is the EOF token with the cursor at the end of input; any other result moves the cursor strictly forward |
| Scan.Dispatch | parser/main.cpp:260-296 | the dispatch after the blank lines always consumes something and never returns EOF |
| Scan.Tokenize | parser/main.cpp:313-317 | the token list `parse` collects holds no EOF token |
| Scan.LegacyHeadingStep | main.cpp:77-120 | main.cpp's `handle_heading` consumes at least the `#` |
| Scan.LegacyTextEnd | main.cpp:259-268 | main.cpp's text loop passes no NUL or construct character, and stops at one of them |
| Scan.DropNewlines | main.cpp:261-268 | the kept text has no `'\n'`, is no longer than the run, and has only characters of the run (`DropNewlinesPlain` and `DropNewlinesAppend` say exactly what is kept) |
| Scan.LegacyNextToken | main.cpp:234-279 | main.cpp's `get_next_token` never returns EOF, and moves the cursor unless it is at the end |
| ScanProps.HashRunExact | parser/main.cpp:103-109 | exactly `k` more `#` before a non-`#` (or the cap) end the count `k` characters on, at level plus `k` |
| ScanProps.CollectedLacks | parser/main.cpp:89-100 | what `collect_until(d)` collects contains neither `d` nor `'\n'` |
| ScanProps.EofIsFinal | parser/main.cpp:247-258 | after an EOF result, every further call returns EOF without moving the cursor |
| ScanProps.EofExactlyAtEnd | parser/main.cpp:247-258 | EOF is returned if and only if only newlines remain, and it leaves the cursor at the end |
| ScanProps.HeadingRecognised | parser/main.cpp:102-132 | 1 to 6 `#` followed by whitespace give the heading of that level; its content is the rest of the line after the blanks, with no `'\n'`; the line's `'\n'` is consumed (so `"#\n"` is an empty H1) |
| ScanProps.HeadingRejected | parser/main.cpp:111-115 | when no whitespace follows the run (end of input, a 7th `#`, or text), the token is TEXT equal to the original line, and its `'\n'` is consumed |
| ScanProps.HeadingNeverDefault | parser/main.cpp:124-132 | the result is a heading or TEXT, and TEXT exactly when no whitespace follows the run: the `default` branch is never taken |
| ScanProps.EmphasisOutcomes | parser/main.cpp:135-162 | BOLD and ITALIC consume exactly their delimiters and content; the content has no `*`, `'\n'` or NUL; ITALIC content is non-empty; a failed emphasis reads past the opening `*` or `**` up to the first `*`, `'\n'` or NUL and no further, and its value is the consumed text, except that after `**` with a single closing `*` the value adds that `*` and the cursor stays on it (which inputs do give BOLD and ITALIC is `BoldRecognised` and `ItalicRecognised`) |
| ScanProps.EmphasisShapeExact | parser/main.cpp:135-162 | the converse: a step of that shape is the one `handle_emphasis` takes, so the shape fixes the outcome of every `*` input |
| ScanProps.BoldRecognised | parser/main.cpp:139-146 | `**`, content without `*`, `'\n'` or NUL, then `**` always gives BOLD of exactly that content, with the cursor after the closing pair; the content may be empty, so `****` is an empty BOLD |
| ScanProps.ItalicRecognised | parser/main.cpp:149-155 | `*`, non-empty content without `*`, `'\n'` or NUL, then `*` always gives ITALIC of exactly that content, with the cursor after the closing `*` |
| ScanProps.CollectEndAt | parser/main.cpp:89-100 | `collect_until` over a span free of the delimiter, `'\n'` and NUL stops exactly at the stopping character after it |
| ScanProps.ListOutcomes | parser/main.cpp:220-235 | `-` and whitespace give LIST holding the line after exactly one skipped character (the next line when that character is `'\n'`); otherwise TEXT equal to the original line; the ending `'\n'` is consumed |
| ScanProps.TextRunShape | parser/main.cpp:280-296 | a run started on an ordinary character is non-empty, has no construct character, no two `'\n'` in a row and no trailing `'\n'`, and is what was consumed minus trailing newlines |
| ScanProps.LegacyOriginalIsText | main.cpp:78-92 | `original` is exactly the characters consumed up to the end of the `#` run |
| ScanProps.LegacyLevelAtLeastTwo | main.cpp:83-99 | blanks after the `#` run are only left when the run has a second `#`, so the level is at least 2 |
| ScanProps.LegacyHeadingOutcomes | main.cpp:77-120 | main.cpp never produces H1; with no blank after the run the token is the original line as TEXT, otherwise the heading of the run's level holding the rest of the line; the `'\n'` is consumed and is in no value; `default` is never taken |
| ScanProps.FallbacksStartWithTrigger | parser/main.cpp:102-235 | every handler's TEXT fallback, in both files, is non-empty and starts with the character that triggered the handler |
| ScanProps.DropNewlinesPlain | main.cpp:261-267 | a run without `'\n'` is kept whole |
| ScanProps.DropNewlinesAppend | main.cpp:261-267 | dropping newlines works piece by piece, so every character other than `'\n'` is kept, in order |
| ScanProps.LegacyTextEndAt | main.cpp:261-268 | main.cpp's text loop over a span with no NUL or construct character stops exactly at the NUL, end or construct character after it |
| ScanProps.LegacyTextRun | main.cpp:259-278 | a text run with something other than blanks in it, ending at the end of input or a construct character, is one TEXT token holding the run without its newlines (the run itself when it has none), with the cursor after it |
| ScanProps.LegacyTokens | main.cpp:234-279 | main.cpp's tokens are never H1; an empty TEXT appears only at the end of input, so the sentinel is unambiguous; any other TEXT is a fallback starting with its construct character or a run with no `'\n'`, no construct character and some non-blank character |
| LinkProps.Unescaped | parser/main.cpp:170-174 | the label as read from its spelling, with `\[` read as `[`, is never longer than the spelling |
| LinkProps.LabelIsRawText | parser/main.cpp:165-188 | the label is the raw text between the brackets, closing `]` excluded and `\[` read as `[`; brackets inside the label are kept; an unclosed label runs to the end of input, across newlines (where the label ends is `LabelDepth`) |
| LinkProps.LabelDepth | parser/main.cpp:167-188 | the `bracket_count` rule, against `DepthAfter` (`\[` leaves the depth alone, other `[` add one, `]` take one away): every span shorter than the one scanned keeps the depth at 1 or more; a closed label's span brings it to 0, so its last `]` is the first to do so; an unclosed label never brought it to 0 |
| LinkProps.LabelCloses | parser/main.cpp:167-192 | on input without NUL, a label closes exactly when some span after the `[` brings the depth from 1 to 0 |
| LinkProps.PlainLabelScan | parser/main.cpp:169-188 | a label without brackets, backslashes or NUL followed by `]` is read as itself and closed by that `]` |
| LinkProps.LinkRecognised | parser/main.cpp:164-205 | `[label](url)` with a label free of brackets, backslashes and NUL and a url free of `)`, `'\n'` and NUL always gives LINK `label` bar `url`, with the cursor after the `)` |
| LinkProps.ImageRecognised | parser/main.cpp:208-218 | `!` followed by such a link always gives IMAGE with the same payload, with the cursor after the `)` |
| LinkProps.LinkUnclosed | parser/main.cpp:190-192 | a label never closed falls back to TEXT `"[" + label`, with the cursor at the end of input |
| LinkProps.LinkWithoutUrl | parser/main.cpp:194-196 | a closed label not followed by `(` falls back to TEXT `"[" + label + "]"`, with the cursor after the `]` |
| LinkProps.LinkWithUrl | parser/main.cpp:198-205 | `[label](url)` gives LINK with value label, a bar, then url; the url has no `)` and no `'\n'`; exactly those characters are consumed |
| LinkProps.LinkUnclosedUrl | parser/main.cpp:198-202 | `[label](url` cut short by `'\n'` or the end falls back to TEXT `"[" + label + "](" + url`, leaving the `'\n'` unread |
| LinkProps.LinkFallbackVerbatim | parser/main.cpp:164-206 | when no backslash was consumed, a failed link is exactly the consumed characters |
| LinkProps.ImageOutcomes | parser/main.cpp:208-218 | `!` without `[` is TEXT `"!"` and consumes one character; otherwise the link decides: IMAGE with the same payload, or `"!"` before the link's fallback, with the cursor where the link left it |
| LinkProps.ImageFallbackVerbatim | parser/main.cpp:208-218 | when no backslash was consumed, a failed image is exactly the consumed characters |
| SourceCases.OneToken | parser/main.cpp:247-317 | an input whose first construct runs to its end is lexed as exactly that one token |
| SourceCases.BoldCase | parser/main.cpp:474-477 | the "Basic Bold Test": `**bold**` is lexed as the single token BOLD `bold` |
| SourceCases.ItalicCase | parser/main.cpp:479-482 | the "Basic Italic Test": `*italic*` is lexed as the single token ITALIC `italic` |
| Html.EscapeChar | parser/main.cpp:415-420 | every character is replaced by a non-empty string |
| Html.Escaped | parser/main.cpp:412-424 | `escapeHtml` never shortens its input |
| Html.EscapedAppend | parser/main.cpp:414-422 | escaping goes character by character, so it distributes over concatenation |
| Html.UnescapeEscaped | parser/main.cpp:412-424 | reading the four entities back recovers the input: escaping loses nothing |
| Html.EscapedIsInert | parser/main.cpp:412-424 | escaped text contains no `<`, no `>` and no `"` |
| Html.EscapedPlain | parser/main.cpp:412-424 | text without `<`, `>`, `&` or `"` is left unchanged |
| Html.EscapedKeepsBar | parser/main.cpp:412-424 | escaping neither adds nor removes a bar character |
| Html.Find | parser/main.cpp:397 | `find` of the bar character returns the first index of a bar, or nothing (`npos`) exactly when there is none |
| Html.SplitFirstBar | parser/main.cpp:396-401 | a value of the form label, bar, url whose label has no bar splits back into the label and the url |
| Html.SplitAtBar | parser/main.cpp:396-401 | the split at the first bar: a value without a bar gives the whole value as both halves, because `npos + 1` wraps to 0; otherwise the two halves put back around a bar give the value, and the first half has no bar |
| Html.TokenHtmlMarkup | parser/main.cpp:382-409 | `tokenToHtml`: only a TEXT token is written without markup, every other token starts with a tag, and a heading or list item ends its line with `'\n'` |
| Html.TextIsInert | parser/main.cpp:383-386 | a TEXT token is written as its escaped value, contains no tag, and unescapes to the value |
| Html.EscapedPayload | parser/main.cpp:396-407 | escaping a value of the form label, bar, url whose label has no bar keeps the first bar between the escaped label and the escaped url |
| Html.LinkHtml | parser/main.cpp:396-400 | a LINK made by the lexer is written as an anchor around the escaped label, with the escaped url as `href` |
| Html.ImageHtml | parser/main.cpp:402-406 | an IMAGE made by the lexer is written with the escaped url as `src` and the escaped label as `alt` |
| Html.LinkLabelWithBar | parser/main.cpp:396-400 | a label that contains a bar loses everything after its first bar to the url |
| Html.Htmls | parser/main.cpp:367 | one HTML fragment per token |
| Html.Render | parser/main.cpp:333-380 | `tokensToHtml` as pieces writes every token exactly once, in order, and is well nested: every `<p>` and `<ul>` is closed and neither opens inside the other; each `<li>` is inside a list, each heading outside both, and every other token inside a paragraph |
| Html.FlattenAppend | parser/main.cpp:334-379 | the output stream (`Flatten` of the pieces) is append-only: writing one run of pieces and then another gives the first text followed by the second |
| Html.ListWrapFlags | parser/main.cpp:342-355 | after the list wrapping (`ListWrap`) the writer is in a list exactly for LIST, a paragraph stays open only before other types, `<ul>` opens exactly on entering a list and closes exactly on leaving one |
| Html.ParaWrapFlags | parser/main.cpp:357-364 | after the paragraph wrapping (`ParaWrap`) a paragraph is open exactly when the token is not a block; `<p>` opens only when none is open and the token is not a block, and `</p>` closes an open one only before a block |
| Html.CloseAfterFlags | parser/main.cpp:369-373 | after a token (`CloseAfter`) no paragraph stays open if that token is the last one or the next is a block, and `</p>` is written exactly then and only for an open paragraph |
| Html.BodyPieces | parser/main.cpp:338-374 | one iteration (`Body`) writes the list wrapping, the paragraph wrapping, the token's HTML and the paragraph closing, in that order |
| Html.BodyFlags | parser/main.cpp:338-374 | after one iteration the writer is in a list exactly after a LIST token, and in a paragraph exactly after a token that is neither a block nor the end of a paragraph, whatever the flags before |
| Html.ClosingTags | parser/main.cpp:376-377 | the closing after the loop (`Closing`) writes only closing tags, `</ul>` exactly when a list is open and `</p>` exactly when a paragraph is |
| Html.RenderKeepsTokens | parser/main.cpp:338-378 | from any token and any flags, the rest of the output (`RenderFrom`) writes each remaining token exactly once, in order, and nothing else but tags |
| Html.WrapWalk | parser/main.cpp:342-364 | the list and paragraph wrapping before a token leaves the writer where that token belongs |
| Html.WrapWalkList | parser/main.cpp:343-351 | before a list item, `<ul>` is opened unless a list is open, and the writer ends up in the list |
| Html.WrapWalkHeading | parser/main.cpp:352-364 | before a heading, an open list is closed and the writer ends up outside both blocks |
| Html.WrapWalkText | parser/main.cpp:352-360 | before text or an inline element, an open list is closed and a paragraph opened unless one is open |
| Html.BodyWalk | parser/main.cpp:338-374 | one iteration writes correctly placed pieces and keeps the flags never both set, with an open paragraph only before a text-like token |
| Html.RenderFromNested | parser/main.cpp:338-378 | from such flags, the rest of the output is correctly nested and ends outside every block |
| Html.RenderEmpty | parser/main.cpp:333-380 | no tokens give the empty string |
| Html.RenderTextFlat | parser/main.cpp:333-380 | the text written (`RenderText`) is the pieces of `Render` written out in order |
| Html.RenderTextStep | parser/main.cpp:338-374 | the text of one iteration is the list wrapping, the paragraph wrapping, the token's HTML and the paragraph closing, followed by the rest |
| Html.RenderTextEnd | parser/main.cpp:376-377 | after the loop, `</ul>` is written if a list is open, then `</p>` if a paragraph is open |
| Html.InterpretAgrees | main.cpp:289-345 | `Interpreter::parse` (`Interpret`): on a value with nothing to escape, the interpreter writes what `tokenToHtml` writes, minus the newline after a block; BOLD and ITALIC are the exception and get `<b>` and `<i>` |
| Html.InterpretLink | main.cpp:322-335 | the interpreter splits a value of the form label, bar, url at the first bar as the parser does, without escaping |
| Lexing.Lexer.constructor | parser/main.cpp:243-245 | a new lexer is at position 0 with `current` on the first character or `'\0'` |
| Lexing.Lexer.Copy | main.cpp:287 | the copy C++ makes of a lexer passed by value has the same text, position and current character |
| Lexing.Lexer.Advance | parser/main.cpp:72-79 | moves the position by one; `current` becomes the character there, or `'\0'` past the end |
| Lexing.Lexer.Peek | parser/main.cpp:81-87 | the character after the cursor, or `'\0'` |
| Lexing.Lexer.CollectUntil | parser/main.cpp:89-100 | returns the characters up to `CollectEnd` and leaves the cursor there |
| Lexing.Lexer.SkipLineEnd | parser/main.cpp:113 | consumes one `'\n'` if the cursor is on one |
| Lexing.Lexer.SkipSpaces | parser/main.cpp:117-119 | moves the cursor to `SkipBlanks` and returns how many characters it skipped |
| Lexing.Lexer.CountHashes | parser/main.cpp:103-109 | the `#` loop ends where `HashRun` says, at its level |
| Lexing.Lexer.HandleHeading | parser/main.cpp:102-133 | returns the token of `HeadingStep` and leaves the cursor at its position |
| Lexing.Lexer.HeadingLine | parser/main.cpp:111-132 | after the run: TEXT of the hashes and the rest of the line when no whitespace follows; otherwise the level switch on the line after the blanks; either way the `'\n'` is consumed |
| Lexing.Lexer.HandleEmphasis | parser/main.cpp:135-162 | returns the token of `EmphasisStep` and leaves the cursor at its position |
| Lexing.Lexer.CollectItalic | parser/main.cpp:151-160 | the italic loop collects up to the next `*`, `'\n'` or end, and consumes the `*` exactly when it stopped on one |
| Lexing.Lexer.ScanLabel | parser/main.cpp:165-188 | the label loop computes `LabelScan` from depth 1: the label, where the cursor stops, and whether the depth reached 0 |
| Lexing.Lexer.HandleLink | parser/main.cpp:164-206 | returns the token of `LinkStep` and leaves the cursor at its position |
| Lexing.Lexer.LinkTail | parser/main.cpp:190-205 | the three fallbacks and the LINK token after the label, each with its cursor position |
| Lexing.Lexer.HandleImage | parser/main.cpp:208-218 | returns the token of `ImageStep` and leaves the cursor at its position |
| Lexing.Lexer.HandleList | parser/main.cpp:220-235 | returns the token of `ListStep` and leaves the cursor at its position |
| Lexing.Lexer.CollectText | parser/main.cpp:280-296 | returns the token of `TextStep` and leaves the cursor at its position |
| Lexing.Lexer.GetNextToken | parser/main.cpp:247-297 | returns the token of `NextToken` and leaves the cursor at its position |
| Lexing.Lexer.KeepBlanks | main.cpp:83-86 | skips to `SkipBlanks` and returns exactly the characters skipped |
| Lexing.Lexer.LegacyHashes | main.cpp:88-92 | main.cpp's `#` loop ends where `HashRun` from level 1 says, and appends one `#` per step |
| Lexing.Lexer.LegacyHeadingRun | main.cpp:78-92 | after the first `#`, the blanks and the `#` run: `original` is `#`, the blanks, then one `#` per extra level |
| Lexing.Lexer.LegacyHeadingTail | main.cpp:95-119 | counts the blanks after the run; with none it returns TEXT `original` plus the rest of the line, otherwise the level switch; the `'\n'` is consumed |
| Lexing.Lexer.LegacyHandleHeading | main.cpp:77-120 | returns the token of `LegacyHeadingStep` and leaves the cursor at its position |
| Lexing.Lexer.LegacyCollectText | main.cpp:260-268 | stops at `LegacyTextEnd` and keeps the run without its newlines |
| Lexing.Lexer.LegacyGetNextToken | main.cpp:234-279 | returns the token of `LegacyNextToken` and leaves the cursor at its position, including through the self-call |
| Parsing.Parser.constructor | parser/main.cpp:302-308 | no lexer, no tokens, empty `html` |
| Parsing.Parser.Parse | parser/main.cpp:309-320 | `tokens` becomes every token of the input before EOF, the lexer is left at the end of input, and the result is the rendering of those tokens |
| Parsing.Parser.TokensToHtml | parser/main.cpp:333-380 | the output is `Render` of the tokens, written out |
| Parsing.Parser.EmitToken | parser/main.cpp:338-374 | one iteration's output, followed by the rest of the rendering from the new flags, is the rest of the rendering from the old flags |
| Parsing.Parser.CloseBlocks | parser/main.cpp:376-377 | writes the closing of whatever is still open |
| Parsing.Parser.ListWrapping | parser/main.cpp:342-355 | writes the list wrapping and returns the flags it leaves |
| Parsing.Parser.ParagraphWrapping | parser/main.cpp:357-364 | writes the paragraph wrapping and returns the flag it leaves |
| Parsing.Parser.CloseParagraph | parser/main.cpp:369-373 | closes the paragraph after the last token or before a block token |
| Parsing.Parser.TokenToHtml | parser/main.cpp:382-410 | returns `TokenHtml` of the token |
| Parsing.Parser.EscapeHtml | parser/main.cpp:412-424 | returns `Escaped` of the text |
| Interpreting.Interpreter.constructor | main.cpp:287 | the stored lexer is a fresh copy at the caller's position, so it does not move; the current token is main.cpp's first token from that position; the caller's lexer is unchanged |
| Interpreting.Interpreter.Parse | main.cpp:289-345 | returns `Interpret` of the current token |

## Left out

- The console test harnesses and demo entry points are not modelled: `tokenTypeToString`, `runTests`, `runParserTests` and `main` in parser/main.cpp, `main` in main.cpp, and `Token::repr`. They only print. Of the source's lexer tests, only the bold and italic cases are restated as concrete lemmas (`SourceCases`). The link and image tests are not restated; their inputs meet the preconditions of `LinkRecognised` and `ImageRecognised` (a bracket-free label, a url without `)`). The heading, text and list tests are not restated either; `HeadingRecognised`, `Scan.TextEnd` with `TextRunShape`, and `ListOutcomes` state the behaviour they check.
- `std::stringstream` output is modelled as a string that is appended to.
- `std::unique_ptr<Lexer>` is modelled as a nullable reference that `Parse` replaces with a fresh lexer.
- `isspace` is fixed to the C locale: space, `\t`, `\n`, `\v`, `\f` and `\r`. Locale-dependent classes and signed `char` values beyond ASCII are not modelled.
- Inputs containing `'\0'` are excluded by a precondition (`NoNul`). Both lexers read `'\0'` as the end of input.
- The `include_delimiter` path of `collect_until` is not modelled, because no caller passes `true`.
- Positions and counters are unbounded naturals. `pos` is a `size_t`, and `level` never exceeds 6 in parser/main.cpp. The `int` counters `bracket_count` (parser/main.cpp:167, main.cpp:154) and `spaces` (main.cpp:95) overflow only on inputs of more than 2^31 characters. The model's unbounded int does not capture that undefined behaviour.
- The `html` field of `Parser` is kept, but the source never writes it, and neither does the model.
- Some C++ functions are split into several methods that run the same statements in the same order. Each part has its own contract. The splits:
  - `handle_heading`: `HeadingLine`; in main.cpp, `LegacyHeadingRun`, `LegacyHashes` and `LegacyHeadingTail`.
  - `handle_emphasis`: `CollectItalic`.
  - `handle_link`: `ScanLabel` and `LinkTail`.
  - The plain-text loops: `CollectText` and `LegacyCollectText`.
  - The `tokensToHtml` loop body: `EmitToken`, `ListWrapping`, `ParagraphWrapping` and `CloseParagraph`.
  - The closing after the loop: `CloseBlocks`.
- Html.Render: `tokenToHtml` is passed to the rendering functions as the list of per-token fragments (`Htmls`). This lets the nesting lemmas hold for any fragments.
- The `Token` of main.cpp has no EOF flag. The model uses one token type for both files, and main.cpp's tokens always have the flag clear.
- `Interpreter` keeps its stored lexer, as the source does. The source never uses it again.
