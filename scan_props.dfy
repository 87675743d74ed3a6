/**
 * What the two lexers promise, proved about the `Scan` functions: progress,
 * the exact shape of every construct and of every fallback, and the
 * quirks of each variant.
 */
module ScanProps {
  import opened Chars
  import opened Tokens
  import opened Scan

  // ---------------------------------------------------------------
  // Helpers about the scanning loops
  // ---------------------------------------------------------------

  /** A run of exactly `k` further `#` (capped at level 6) ends `k` characters on. */
  lemma {:induction false} HashRunExact(t: string, p: nat, level: nat, k: nat)
    requires p + k <= |t| && 1 <= level && level + k <= 6
    requires forall i :: p <= i < p + k ==> t[i] == '#'
    requires level + k == 6 || At(t, p + k) != '#'
    ensures HashRun(t, p, level) == Run(p + k, level + k)
    decreases k
  {
    if k > 0 {
      HashRunExact(t, p + 1, level + 1, k - 1);
    }
  }

  /** `collect_until` from inside a line stops where it would have stopped from an earlier point of it. */
  lemma {:induction false} CollectEndSkip(t: string, p: nat, q: nat, d: char)
    requires p <= q <= |t|
    requires forall i :: p <= i < q ==> t[i] != d && t[i] != '\n' && t[i] != '\0'
    ensures CollectEnd(t, p, d) == CollectEnd(t, q, d)
    decreases q - p
  {
    if p < q {
      CollectEndSkip(t, p + 1, q, d);
    }
  }

  lemma {:induction false} HashesAreText(t: string, p: nat, k: nat)
    requires p + k <= |t|
    requires forall i :: p <= i < p + k ==> t[i] == '#'
    ensures Hashes(k) == t[p..p + k]
  {
  }

  // ---------------------------------------------------------------
  // get_next_token (parser/main.cpp): progress and end of input
  // ---------------------------------------------------------------

  /**
   * Once a call has returned EOF the cursor sits at the end and every
   * further call returns EOF without moving it.
   */
  lemma {:induction false} EofIsFinal(t: string, p: nat)
    requires p <= |t| && NextToken(t, p).tok.isEof
    ensures var q := NextToken(t, p).next; NextToken(t, q) == Step(Eof(), q)
  {
  }

  /** On an input without `'\0'`, EOF is returned exactly when only newlines are left. */
  lemma {:induction false} EofExactlyAtEnd(t: string, p: nat)
    requires NoNul(t) && p <= |t|
    ensures NextToken(t, p).tok.isEof <==> forall i :: p <= i < |t| ==> t[i] == '\n'
    ensures NextToken(t, p).tok.isEof ==> NextToken(t, p).next == |t|
  {
    var q := SkipNewlines(t, p);
    if At(t, p) != '\0' && At(t, q) != '\0' {
      assert q < |t| && t[q] != '\n';
    }
  }

  // ---------------------------------------------------------------
  // handle_heading (parser/main.cpp)
  // ---------------------------------------------------------------

  /**
   * 1 to 6 `#` followed by whitespace make a heading of that level; its
   * content is the rest of the line after the blanks, without the `'\n'`,
   * which is consumed.
   */
  lemma {:induction false} HeadingRecognised(t: string, p: nat, k: nat)
    requires p + k <= |t| && 1 <= k <= 6
    requires forall i :: p <= i < p + k ==> t[i] == '#'
    requires IsSpace(At(t, p + k))
    ensures var c := SkipBlanks(t, p + k); var e := CollectEnd(t, c, '\n');
      && HeadingStep(t, p) == Step(Tok(HeadingKind(k), t[c..e]), SkipNewline(t, e))
      && Lacks(t[c..e], '\n')
      && (At(t, e) == '\n' || At(t, e) == '\0')
  {
    HashRunExact(t, p + 1, 1, k - 1);
    HeadingAfterRun(t, p, k);
    var c := SkipBlanks(t, p + k);
    CollectedLacks(t, c, CollectEnd(t, c, '\n'), '\n');
  }

  /** `handle_heading` once the `#` run is known to reach level `k` and to end before whitespace. */
  lemma {:induction false} HeadingAfterRun(t: string, p: nat, k: nat)
    requires p + k <= |t| && 1 <= k <= 6 && t[p] == '#'
    requires HashRun(t, p + 1, 1) == Run(p + k, k) && IsSpace(At(t, p + k))
    ensures var c := SkipBlanks(t, p + k); var e := CollectEnd(t, c, '\n');
      HeadingStep(t, p) == Step(Tok(HeadingKind(k), t[c..e]), SkipNewline(t, e))
  {
    HeadingSwitch(t, p, Run(p + k, k));
  }

  /** `handle_heading` once the `#` run is known to end before whitespace: the level switch decides. */
  lemma {:induction false} HeadingSwitch(t: string, p: nat, run: Run)
    requires p < |t| && t[p] == '#'
    requires run == HashRun(t, p + 1, 1) && IsSpace(At(t, run.end))
    ensures var c := SkipBlanks(t, run.end); var e := CollectEnd(t, c, '\n');
      HeadingStep(t, p) == Step(LevelToken(run.level, t[c..e], Hashes(run.level)), SkipNewline(t, e))
  {
  }

  /** What `collect_until(d)` collects holds no `d` and no `'\n'`. */
  lemma {:induction false} CollectedLacks(t: string, c: nat, e: nat, d: char)
    requires c <= |t| && e == CollectEnd(t, c, d)
    ensures Lacks(t[c..e], d) && Lacks(t[c..e], '\n') && Lacks(t[c..e], '\0')
  {
    forall i | 0 <= i < e - c
      ensures t[c..e][i] != d && t[c..e][i] != '\n' && t[c..e][i] != '\0'
    {
      assert t[c..e][i] == t[c + i];
    }
  }

  /**
   * When the character after the `#` run (at most 6) is not whitespace, the
   * token is TEXT holding the original line, and the `'\n'` is consumed.
   */
  lemma {:induction false} HeadingRejected(t: string, p: nat, k: nat)
    requires p + k <= |t| && 1 <= k <= 6
    requires forall i :: p <= i < p + k ==> t[i] == '#'
    requires k == 6 || At(t, p + k) != '#'
    requires !IsSpace(At(t, p + k))
    ensures var e := CollectEnd(t, p + k, '\n');
      && HeadingStep(t, p) == Step(Tok(Text, t[p..e]), SkipNewline(t, e))
      && Lacks(t[p..e], '\n')
  {
    HashRunExact(t, p + 1, 1, k - 1);
    HashesAreText(t, p, k);
    var e := CollectEnd(t, p + k, '\n');
    assert t[p..p + k] + t[p + k..e] == t[p..e];
  }

  /** The `default` of the level switch is never taken: a TEXT result only comes from the non-whitespace branch. */
  lemma {:induction false} HeadingNeverDefault(t: string, p: nat)
    requires p < |t| && t[p] == '#'
    ensures var s := HeadingStep(t, p);
      && (IsHeading(s.tok.kind) || s.tok.kind == Text)
      && (s.tok.kind == Text <==> !IsSpace(At(t, HashRun(t, p + 1, 1).end)))
  {
  }

  // ---------------------------------------------------------------
  // handle_emphasis
  // ---------------------------------------------------------------

  /**
   * What `handle_emphasis` promises of its result `s`, where `k` is the
   * length of the opening run (2 for `**`, 1 for `*`): BOLD and ITALIC
   * consume exactly their delimiters and content, and the content has no
   * `*`, `'\n'` or NUL (and is non-empty for ITALIC). A TEXT fallback reads
   * past the opening run up to the first `*`, `'\n'` or NUL and no further;
   * its value is the consumed characters verbatim, except after `**` with a
   * single closing `*`, where the value adds that `*` but the cursor is left
   * on it. `EmphasisShapeExact` shows that this determines the result.
   */
  predicate EmphasisShape(t: string, p: nat, s: Step) {
    var v := s.tok.value;
    var k := if At(t, p + 1) == '*' then 2 else 1;
    && p + k <= s.next <= |t|
    && !s.tok.isEof
    && (s.tok.kind == Bold || s.tok.kind == Italic || s.tok.kind == Text)
    && (s.tok.kind == Bold ==>
          s.next == p + |v| + 4 && t[p..s.next] == "**" + v + "**"
          && Lacks(v, '*') && Lacks(v, '\n') && Lacks(v, '\0'))
    && (s.tok.kind == Italic ==>
          |v| > 0 && s.next == p + |v| + 2 && t[p..s.next] == "*" + v + "*"
          && Lacks(v, '*') && Lacks(v, '\n') && Lacks(v, '\0'))
    && (s.tok.kind == Text ==>
          && Lacks(t[p + k..s.next], '*') && Lacks(t[p + k..s.next], '\n') && Lacks(t[p + k..s.next], '\0')
          && ((v == t[p..s.next] && (At(t, s.next) == '\n' || At(t, s.next) == '\0'))
              || (k == 2 && v == t[p..s.next] + "*" && At(t, s.next) == '*' && At(t, s.next + 1) != '*')))
  }

  lemma {:induction false} EmphasisOutcomes(t: string, p: nat)
    requires p < |t| && t[p] == '*'
    ensures EmphasisShape(t, p, EmphasisStep(t, p))
  {
    if At(t, p + 1) == '*' {
      var e := CollectEnd(t, p + 2, '*');
      CollectedLacks(t, p + 2, e, '*');
      if At(t, e) == '*' && At(t, e + 1) == '*' {
        BoldShape(t, p, e, EmphasisStep(t, p));
      } else {
        BoldFallbackShape(t, p, e, EmphasisStep(t, p));
      }
    } else {
      var e := CollectEnd(t, p + 1, '*');
      CollectedLacks(t, p + 1, e, '*');
      if At(t, e) == '*' {
        ItalicShape(t, p, e, EmphasisStep(t, p));
      } else {
        ItalicFallbackShape(t, p, e, EmphasisStep(t, p));
      }
    }
  }

  /** The converse of `EmphasisOutcomes`: the only step of that shape is the one `handle_emphasis` takes. */
  lemma {:induction false} EmphasisShapeExact(t: string, p: nat, s: Step)
    requires p < |t| && t[p] == '*' && EmphasisShape(t, p, s)
    ensures s == EmphasisStep(t, p)
  {
    var v := s.tok.value;
    if s.tok.kind == Bold {
      BoldRecognised(t, p, v);
    } else if s.tok.kind == Italic {
      ItalicRecognised(t, p, v);
    } else {
      if At(t, p + 1) == '*' {
        BoldFallbackExact(t, p, s.next, v);
      } else {
        ItalicFallbackExact(t, p, s.next, v);
      }
    }
  }

  /** A failed `**` stopping at `e`, a `*`, `'\n'` or NUL, is the fallback `handle_emphasis` returns. */
  lemma {:induction false} BoldFallbackExact(t: string, p: nat, e: nat, v: string)
    requires p + 2 <= e <= |t| && t[p] == '*' && t[p + 1] == '*'
    requires Lacks(t[p + 2..e], '*') && Lacks(t[p + 2..e], '\n') && Lacks(t[p + 2..e], '\0')
    requires (v == t[p..e] && (At(t, e) == '\n' || At(t, e) == '\0'))
      || (v == t[p..e] + "*" && At(t, e) == '*' && At(t, e + 1) != '*')
    ensures EmphasisStep(t, p) == Step(Tok(Text, v), e)
  {
    CollectEndAt(t, p + 2, e, '*');
    assert t[p..e] == "**" + t[p + 2..e];
  }

  /** A failed `*` stopping at `e`, a `'\n'` or NUL, is the fallback `handle_emphasis` returns. */
  lemma {:induction false} ItalicFallbackExact(t: string, p: nat, e: nat, v: string)
    requires p + 1 <= e <= |t| && t[p] == '*' && At(t, p + 1) != '*'
    requires Lacks(t[p + 1..e], '*') && Lacks(t[p + 1..e], '\n') && Lacks(t[p + 1..e], '\0')
    requires v == t[p..e] && (At(t, e) == '\n' || At(t, e) == '\0')
    ensures EmphasisStep(t, p) == Step(Tok(Text, v), e)
  {
    CollectEndAt(t, p + 1, e, '*');
    assert t[p..e] == "*" + t[p + 1..e];
  }

  /**
   * The other direction: `**`, content without `*`, `'\n'` or NUL, then
   * `**` always gives BOLD of that content, with the cursor after the
   * closing pair. Empty content is allowed, so `****` is an empty BOLD.
   */
  lemma {:induction false} BoldRecognised(t: string, p: nat, c: string)
    requires p + |c| + 4 <= |t| && t[p..p + |c| + 4] == "**" + c + "**"
    requires Lacks(c, '*') && Lacks(c, '\n') && Lacks(c, '\0')
    ensures EmphasisStep(t, p) == Step(Tok(Bold, c), p + |c| + 4)
  {
    var q := p + 2 + |c|;
    DelimitedSpan(t, p, 2, c, "**");
    CollectEndAt(t, p + 2, q, '*');
  }

  /**
   * `*`, non-empty content without `*`, `'\n'` or NUL, then `*` always
   * gives ITALIC of that content, with the cursor after the closing `*`.
   */
  lemma {:induction false} ItalicRecognised(t: string, p: nat, c: string)
    requires |c| > 0 && p + |c| + 2 <= |t| && t[p..p + |c| + 2] == "*" + c + "*"
    requires Lacks(c, '*') && Lacks(c, '\n') && Lacks(c, '\0')
    ensures EmphasisStep(t, p) == Step(Tok(Italic, c), p + |c| + 2)
  {
    var q := p + 1 + |c|;
    DelimitedSpan(t, p, 1, c, "*");
    CollectEndAt(t, p + 1, q, '*');
  }

  /** Reading `t[p..]` as opening delimiter, content `c`, closing delimiter, character by character. */
  lemma {:induction false} DelimitedSpan(t: string, p: nat, k: nat, c: string, delim: string)
    requires |delim| == k && p + |c| + 2 * k <= |t| && t[p..p + |c| + 2 * k] == delim + c + delim
    ensures t[p..p + k] == delim && t[p + k..p + k + |c|] == c
    ensures forall i :: 0 <= i < k ==> t[p + i] == delim[i] && t[p + k + |c| + i] == delim[i]
  {
    var w := t[p..p + |c| + 2 * k];
    forall i | 0 <= i < k
      ensures t[p + i] == delim[i] && t[p + k + |c| + i] == delim[i]
    {
      assert w[i] == t[p + i] && w[k + |c| + i] == t[p + k + |c| + i];
    }
    forall i | 0 <= i < |c|
      ensures t[p + k + i] == c[i]
    {
      assert w[k + i] == t[p + k + i];
    }
    assert t[p..p + k] == delim;
    assert t[p + k..p + k + |c|] == c;
  }

  /** `collect_until` over a span free of the delimiter, `'\n'` and NUL stops exactly at the stopper after it. */
  lemma {:induction false} CollectEndAt(t: string, p: nat, q: nat, d: char)
    requires p <= q <= |t| && Lacks(t[p..q], d) && Lacks(t[p..q], '\n') && Lacks(t[p..q], '\0')
    requires At(t, q) == d || At(t, q) == '\n' || At(t, q) == '\0'
    ensures CollectEnd(t, p, d) == q
  {
    forall i | p <= i < q
      ensures t[i] != d && t[i] != '\n' && t[i] != '\0'
    {
      assert t[p..q][i - p] == t[i];
    }
    CollectEndSkip(t, p, q, d);
  }

  /** `**content**`. */
  lemma {:induction false} BoldShape(t: string, p: nat, e: nat, s: Step)
    requires p + 2 <= e && e + 2 <= |t| && t[p] == '*' && t[p + 1] == '*' && t[e] == '*' && t[e + 1] == '*'
    requires Lacks(t[p + 2..e], '*') && Lacks(t[p + 2..e], '\n') && Lacks(t[p + 2..e], '\0')
    requires s == Step(Tok(Bold, t[p + 2..e]), e + 2)
    ensures EmphasisShape(t, p, s)
  {
    assert t[p..e + 2] == "**" + t[p + 2..e] + "**";
  }

  /** `**content` ended by a single `*`, a `'\n'` or the end of input. */
  lemma {:induction false} BoldFallbackShape(t: string, p: nat, e: nat, s: Step)
    requires p + 2 <= e <= |t| && t[p] == '*' && t[p + 1] == '*'
    requires Lacks(t[p + 2..e], '*') && Lacks(t[p + 2..e], '\n') && Lacks(t[p + 2..e], '\0')
    requires At(t, e) == '*' || At(t, e) == '\n' || At(t, e) == '\0'
    requires !(At(t, e) == '*' && At(t, e + 1) == '*')
    requires s == Step(Tok(Text, "**" + t[p + 2..e] + (if At(t, e) == '*' then "*" else "")), e)
    ensures EmphasisShape(t, p, s)
  {
    assert t[p..e] == "**" + t[p + 2..e];
  }

  /** `*content*`. */
  lemma {:induction false} ItalicShape(t: string, p: nat, e: nat, s: Step)
    requires p + 1 <= e && e + 1 <= |t| && t[p] == '*' && t[p + 1] != '*' && t[e] == '*'
    requires Lacks(t[p + 1..e], '*') && Lacks(t[p + 1..e], '\n') && Lacks(t[p + 1..e], '\0')
    requires s == Step(Tok(Italic, t[p + 1..e]), e + 1)
    ensures EmphasisShape(t, p, s)
  {
    assert t[p..e + 1] == "*" + t[p + 1..e] + "*";
  }

  /** `*content` ended by a `'\n'` or the end of input. */
  lemma {:induction false} ItalicFallbackShape(t: string, p: nat, e: nat, s: Step)
    requires p + 1 <= e <= |t| && t[p] == '*' && At(t, p + 1) != '*'
    requires Lacks(t[p + 1..e], '*') && Lacks(t[p + 1..e], '\n') && Lacks(t[p + 1..e], '\0')
    requires At(t, e) == '\n' || At(t, e) == '\0'
    requires s == Step(Tok(Text, "*" + t[p + 1..e]), e)
    ensures EmphasisShape(t, p, s)
  {
    assert t[p..e] == "*" + t[p + 1..e];
  }

  // ---------------------------------------------------------------
  // handle_list
  // ---------------------------------------------------------------

  /**
   * `-` and a whitespace character give LIST with the rest of the line after
   * exactly that one character (the next line when it was `'\n'`); otherwise
   * TEXT holding the original line. Either way the `'\n'` ending it is consumed.
   */
  lemma {:induction false} ListOutcomes(t: string, p: nat)
    requires p < |t| && t[p] == '-'
    ensures var s := ListStep(t, p);
      && (IsSpace(At(t, p + 1)) ==>
            var e := CollectEnd(t, p + 2, '\n');
            s == Step(Tok(List, t[p + 2..e]), SkipNewline(t, e)) && Lacks(t[p + 2..e], '\n'))
      && (!IsSpace(At(t, p + 1)) ==>
            var e := CollectEnd(t, p + 1, '\n');
            s == Step(Tok(Text, t[p..e]), SkipNewline(t, e)) && Lacks(t[p..e], '\n'))
  {
    if !IsSpace(At(t, p + 1)) {
      var e := CollectEnd(t, p + 1, '\n');
      assert t[p..e] == "-" + t[p + 1..e];
    }
  }

  // ---------------------------------------------------------------
  // The plain-text run (parser/main.cpp)
  // ---------------------------------------------------------------

  /**
   * A text run started on an ordinary character is non-empty, holds no
   * construct character, never two `'\n'` in a row, and does not end in
   * `'\n'`; it is what was consumed minus trailing newlines.
   */
  lemma {:induction false} TextRunShape(t: string, q: nat)
    requires q < |t| && t[q] != '\0' && t[q] != '\n' && !IsMarkdownChar(t[q])
    ensures var s := TextStep(t, q); var v := s.tok.value;
      && s.tok.kind == Text && q < s.next
      && |v| > 0 && v[|v| - 1] != '\n'
      && (forall i :: 0 <= i < |v| ==> !IsMarkdownChar(v[i]))
      && (forall i :: 0 <= i < |v| - 1 ==> !(v[i] == '\n' && v[i + 1] == '\n'))
      && v <= t[q..s.next]
      && (forall i :: q + |v| <= i < s.next ==> t[i] == '\n')
  {
    var s := TextStep(t, q);
    var raw := t[q..s.next];
    var v := s.tok.value;
    assert raw[0] == t[q];
    forall i | 0 <= i < |v| - 1
      ensures !(v[i] == '\n' && v[i + 1] == '\n')
    {
      assert v[i] == t[q + i] && v[i + 1] == t[q + i + 1];
    }
    forall i | q + |v| <= i < s.next
      ensures t[i] == '\n'
    {
      assert t[i] == raw[i - q];
    }
  }

  // ---------------------------------------------------------------
  // handle_heading (main.cpp)
  // ---------------------------------------------------------------

  /** What main.cpp's `handle_heading` consumed before the count of spaces: `original`. */
  lemma {:induction false} LegacyOriginalIsText(t: string, p: nat)
    requires p < |t| && t[p] == '#'
    ensures var a := SkipBlanks(t, p + 1); var run := HashRun(t, a, 1);
      "#" + t[p + 1..a] + Hashes(run.level - 1) == t[p..run.end]
  {
    var a := SkipBlanks(t, p + 1);
    var run := HashRun(t, a, 1);
    HashesAreText(t, a, run.level - 1);
    assert t[p..run.end] == [t[p]] + t[p + 1..a] + t[a..run.end];
  }

  /**
   * main.cpp never produces H1: blanks after the first `#` are absorbed
   * before the count, so a level-1 run has no blanks left after it. With
   * no blank after the run the result is the original line as TEXT; with
   * blanks it is a heading of the run's level (the count stops at 6, so the
   * `default` branch is never taken) holding the rest of the line. The
   * `'\n'` ending the line is consumed and is in no value.
   */
  lemma {:induction false} LegacyHeadingOutcomes(t: string, p: nat)
    requires p < |t| && t[p] == '#'
    ensures var s := LegacyHeadingStep(t, p);
      var run := HashRun(t, SkipBlanks(t, p + 1), 1); var c := SkipBlanks(t, run.end);
      var e := CollectEnd(t, c, '\n');
      && s.tok.kind != H1
      && s.next == SkipNewline(t, e)
      && (c == run.end ==> s.tok == Tok(Text, t[p..e]))
      && (c > run.end ==> 2 <= run.level && s.tok == Tok(HeadingKind(run.level), t[c..e]))
      && e == CollectEnd(t, p, '\n')
      && Lacks(s.tok.value, '\n')
  {
    var a := SkipBlanks(t, p + 1);
    var run := HashRun(t, a, 1);
    var c := SkipBlanks(t, run.end);
    var e := CollectEnd(t, c, '\n');
    var original := "#" + t[p + 1..a] + Hashes(run.level - 1);
    var tok := if c == run.end then Tok(Text, original + t[c..e]) else LevelToken(run.level, t[c..e], original);
    LegacyHeadingParts(t, p, a, run, original, tok, SkipNewline(t, e));
    LegacyTokenShape(t, p, a, run, c, e, tok);
  }

  /** The token of main.cpp's `handle_heading` once its scans are known, in terms of the input. */
  lemma {:induction false} LegacyTokenShape(t: string, p: nat, a: nat, run: Run, c: nat, e: nat, tok: Token)
    requires p < |t| && t[p] == '#'
    requires a == SkipBlanks(t, p + 1) && run == HashRun(t, a, 1)
    requires c == SkipBlanks(t, run.end) && e == CollectEnd(t, c, '\n')
    requires var original := "#" + t[p + 1..a] + Hashes(run.level - 1);
      tok == if c == run.end then Tok(Text, original + t[c..e]) else LevelToken(run.level, t[c..e], original)
    ensures && tok.kind != H1
      && (c == run.end ==> tok == Tok(Text, t[p..e]))
      && (c > run.end ==> 2 <= run.level && tok == Tok(HeadingKind(run.level), t[c..e]))
      && e == CollectEnd(t, p, '\n')
      && Lacks(tok.value, '\n')
  {
    LegacyLineEnd(t, p, a, run, c);
    if c == run.end {
      LegacyOriginalIsText(t, p);
      assert t[p..run.end] + t[c..e] == t[p..e];
      CollectedLacks(t, p, e, '\n');
    } else {
      LegacyLevelAtLeastTwo(t, a, run, c);
      CollectedLacks(t, c, e, '\n');
    }
  }

  /** Nothing `handle_heading` of main.cpp skips before its content is a `'\n'`, so the line ends where it would from the `#`. */
  lemma {:induction false} LegacyLineEnd(t: string, p: nat, a: nat, run: Run, c: nat)
    requires p < |t| && t[p] == '#'
    requires a == SkipBlanks(t, p + 1) && run == HashRun(t, a, 1) && c == SkipBlanks(t, run.end)
    ensures CollectEnd(t, c, '\n') == CollectEnd(t, p, '\n')
  {
    CollectEndSkip(t, p, c, '\n');
  }

  /** Blanks after the run are only left when the run had a second `#`: a level-1 run starts where the blanks stopped. */
  lemma {:induction false} LegacyLevelAtLeastTwo(t: string, a: nat, run: Run, c: nat)
    requires a <= |t| && (!IsSpace(At(t, a)) || At(t, a) == '\n')
    requires a <= |t| && run == HashRun(t, a, 1) && c == SkipBlanks(t, run.end)
    requires c > run.end
    ensures 2 <= run.level
  {
  }

  // ---------------------------------------------------------------
  // get_next_token (main.cpp)
  // ---------------------------------------------------------------

  /** Every handler's TEXT fallback is non-empty and starts with the character that triggered it. */
  lemma {:induction false} FallbacksStartWithTrigger(t: string, p: nat)
    requires p < |t| && IsMarkdownChar(t[p])
    ensures t[p] == '#' ==> var s := HeadingStep(t, p); s.tok.kind == Text ==> |s.tok.value| > 0 && s.tok.value[0] == '#'
    ensures t[p] == '#' ==> var s := LegacyHeadingStep(t, p); s.tok.kind == Text ==> |s.tok.value| > 0 && s.tok.value[0] == '#'
    ensures t[p] == '*' ==> var s := EmphasisStep(t, p); s.tok.kind == Text ==> |s.tok.value| > 0 && s.tok.value[0] == '*'
    ensures t[p] == '[' ==> var s := LinkStep(t, p); s.tok.kind == Text ==> |s.tok.value| > 0 && s.tok.value[0] == '['
    ensures t[p] == '!' ==> var s := ImageStep(t, p); s.tok.kind == Text ==> |s.tok.value| > 0 && s.tok.value[0] == '!'
    ensures t[p] == '-' ==> var s := ListStep(t, p); s.tok.kind == Text ==> |s.tok.value| > 0 && s.tok.value[0] == '-'
  {
    if t[p] == '#' {
      HeadingFallback(t, p);
      LegacyHeadingFallback(t, p);
    }
  }

  /** The TEXT fallback of `handle_heading` (parser/main.cpp) starts with its `#` run. */
  lemma {:induction false} HeadingFallback(t: string, p: nat)
    requires p < |t| && t[p] == '#'
    ensures var s := HeadingStep(t, p); s.tok.kind == Text ==> |s.tok.value| > 0 && s.tok.value[0] == '#'
  {
    var run := HashRun(t, p + 1, 1);
    assert Hashes(run.level)[0] == '#';
  }

  /** The TEXT fallback of main.cpp's `handle_heading` starts with the `#` it was called on. */
  lemma {:induction false} LegacyHeadingFallback(t: string, p: nat)
    requires p < |t| && t[p] == '#'
    ensures var s := LegacyHeadingStep(t, p); s.tok.kind == Text ==> |s.tok.value| > 0 && s.tok.value[0] == '#'
  {
  }

  /** A run without `'\n'` is kept whole. */
  lemma {:induction false} DropNewlinesPlain(s: string)
    requires Lacks(s, '\n')
    ensures DropNewlines(s) == s
    decreases |s|
  {
    if s != [] {
      var s' := s[..|s| - 1];
      assert forall i :: 0 <= i < |s'| ==> s'[i] == s[i];
      DropNewlinesPlain(s');
      assert s == s' + [s[|s| - 1]];
    }
  }

  /** Dropping newlines works piece by piece, so every other character is kept, in order. */
  lemma {:induction false} DropNewlinesAppend(a: string, b: string)
    ensures DropNewlines(a + b) == DropNewlines(a) + DropNewlines(b)
    decreases |b|
  {
    if b == [] {
      assert a + b == a;
    } else {
      var b' := b[..|b| - 1];
      assert (a + b)[..|a + b| - 1] == a + b';
      DropNewlinesAppend(a, b');
    }
  }

  /** Where main.cpp's text loop stops, read off a span with no NUL or construct character. */
  lemma {:induction false} LegacyTextEndAt(t: string, p: nat, q: nat)
    requires p <= q <= |t|
    requires forall i :: p <= i < q ==> t[i] != '\0' && !IsMarkdownChar(t[i])
    requires At(t, q) == '\0' || IsMarkdownChar(At(t, q))
    ensures LegacyTextEnd(t, p) == q
    decreases q - p
  {
    if p < q {
      LegacyTextEndAt(t, p + 1, q);
    }
  }

  /**
   * A run `w` of main.cpp's text, with no NUL or construct character and
   * something other than blanks in it, that ends at the end of input or at a
   * construct character, is one TEXT token holding `w` without its newlines
   * (so `w` itself when it has none), with the cursor after the run.
   */
  lemma {:induction false} LegacyTextRun(t: string, p: nat, w: string)
    requires |w| > 0 && p + |w| <= |t| && t[p..p + |w|] == w
    requires forall i :: 0 <= i < |w| ==> w[i] != '\0' && !IsMarkdownChar(w[i])
    requires !AllBlank(DropNewlines(w))
    requires At(t, p + |w|) == '\0' || IsMarkdownChar(At(t, p + |w|))
    ensures LegacyNextToken(t, p) == Step(Tok(Text, DropNewlines(w)), p + |w|)
    ensures Lacks(w, '\n') ==> LegacyNextToken(t, p) == Step(Tok(Text, w), p + |w|)
  {
    forall i | p <= i < p + |w|
      ensures t[i] != '\0' && !IsMarkdownChar(t[i])
    {
      assert t[i] == w[i - p];
    }
    LegacyTextEndAt(t, p, p + |w|);
    assert At(t, p) == w[0];
    if Lacks(w, '\n') {
      DropNewlinesPlain(w);
    }
  }

  /**
   * The tokens main.cpp's `get_next_token` returns: never H1; an empty TEXT
   * only when the cursor ends at the end of input (so the empty sentinel is
   * unambiguous); every other TEXT is either a fallback starting with its
   * construct character or a text run with no `'\n'`, no construct
   * character and something other than blanks in it.
   */
  lemma {:induction false} LegacyTokens(t: string, p: nat)
    requires p <= |t|
    ensures var s := LegacyNextToken(t, p); var v := s.tok.value;
      && s.tok.kind != H1
      && (At(t, p) == '\0' ==> s == Step(Tok(Text, ""), p))
      && (s.tok.kind == Text && v == [] ==> At(t, s.next) == '\0')
      && (s.tok.kind == Text && v != [] ==>
            IsMarkdownChar(v[0])
            || (Lacks(v, '\n') && !AllBlank(v) && forall i :: 0 <= i < |v| ==> !IsMarkdownChar(v[i])))
    decreases |t| - p
  {
    var c := At(t, p);
    if c == '\0' {
    } else if IsMarkdownChar(c) {
      FallbacksStartWithTrigger(t, p);
      if c == '#' {
        LegacyHeadingOutcomes(t, p);
      }
    } else {
      var e := LegacyTextEnd(t, p);
      var content := DropNewlines(t[p..e]);
      if content == [] || AllBlank(content) {
        if At(t, e) != '\0' {
          LegacyTokens(t, e);
        }
      } else {
        forall i | 0 <= i < |content|
          ensures !IsMarkdownChar(content[i])
        {
          assert content[i] in t[p..e];
        }
      }
    }
  }
}
