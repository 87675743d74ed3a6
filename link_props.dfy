/**
 * What `handle_link` and `handle_image` promise, proved about the `Scan`
 * functions: the label as raw text, the four outcomes of a link, and the
 * fallbacks that give back what was consumed.
 */
module LinkProps {
  import opened Chars
  import opened Tokens
  import opened Scan
  import ScanProps

  /** The label text as the source spells it: `\[` stands for `[`, every other character for itself. */
  function Unescaped(s: string): (r: string)
    ensures |r| <= |s|
    decreases |s|
  {
    if |s| >= 2 && s[0] == '\\' && s[1] == '[' then "[" + Unescaped(s[2..])
    else if s == [] then []
    else [s[0]] + Unescaped(s[1..])
  }

  /** A string without backslashes is its own spelling. */
  lemma {:induction false} UnescapedPlain(s: string)
    requires Lacks(s, '\\')
    ensures Unescaped(s) == s
    decreases |s|
  {
    if s != [] {
      UnescapedPlain(s[1..]);
    }
  }

  /**
   * The label is the raw text between the brackets (the closing `]` left
   * out) with `\[` read as `[`; an unclosed label runs to the end of input.
   */
  lemma {:induction false} LabelIsRawText(t: string, p: nat, depth: nat)
    requires p <= |t| && depth >= 1
    ensures var l := LabelScan(t, p, depth);
      l.text == Unescaped(t[p..if l.closed then l.end - 1 else l.end])
    decreases |t| - p, 1
  {
    var c := At(t, p);
    if c == '\0' || (c == ']' && depth == 1) {
    } else if c == '\\' && At(t, p + 1) == '[' {
      RawEscape(t, p, depth);
    } else {
      var d := if c == '[' then depth + 1 else if c == ']' then depth - 1 else depth;
      LabelScanChar(t, p, depth, d);
      RawChar(t, p, d, LabelScan(t, p, depth));
    }
  }

  /** `LabelIsRawText` on `\[`, from the same two characters on. */
  lemma {:induction false} RawEscape(t: string, p: nat, depth: nat)
    requires p + 1 < |t| && depth >= 1 && t[p] == '\\' && t[p + 1] == '['
    ensures var l := LabelScan(t, p, depth);
      l.text == Unescaped(t[p..if l.closed then l.end - 1 else l.end])
    decreases |t| - p, 0
  {
    var rest := LabelScan(t, p + 2, depth);
    LabelIsRawText(t, p + 2, depth);
    var stop := if rest.closed then rest.end - 1 else rest.end;
    UnescapedEscape(t[p..stop]);
    assert t[p..stop][2..] == t[p + 2..stop];
  }

  /** `LabelIsRawText` on any other character that does not end the label, from the next one on at depth `d`. */
  lemma {:induction false} RawChar(t: string, p: nat, d: nat, l: Label)
    requires p < |t| && d >= 1 && !(t[p] == '\\' && At(t, p + 1) == '[')
    requires l == PrefixLabel([t[p]], LabelScan(t, p + 1, d))
    ensures l.text == Unescaped(t[p..if l.closed then l.end - 1 else l.end])
    decreases |t| - p, 0
  {
    LabelIsRawText(t, p + 1, d);
    RawCharStep(t, p, l, LabelScan(t, p + 1, d));
  }

  /** The text read so far: one plain character before a label whose text is its raw spelling. */
  lemma {:induction false} RawCharStep(t: string, p: nat, l: Label, rest: Label)
    requires p < |t| && !(t[p] == '\\' && At(t, p + 1) == '[')
    requires p + 1 <= (if rest.closed then rest.end - 1 else rest.end) <= |t|
    requires rest.text == Unescaped(t[p + 1..if rest.closed then rest.end - 1 else rest.end])
    requires l == PrefixLabel([t[p]], rest)
    ensures l.text == Unescaped(t[p..if l.closed then l.end - 1 else l.end])
  {
    var stop := if rest.closed then rest.end - 1 else rest.end;
    UnescapedCons(t[p..stop]);
    assert t[p..stop][1..] == t[p + 1..stop];
  }

  /** A spelling that starts with `\[` reads as `[` and the rest. */
  lemma {:induction false} UnescapedEscape(s: string)
    requires |s| >= 2 && s[0] == '\\' && s[1] == '['
    ensures Unescaped(s) == "[" + Unescaped(s[2..])
  {
  }

  /** A spelling that does not start with `\[` reads as its first character and the rest. */
  lemma {:induction false} UnescapedCons(s: string)
    requires |s| >= 1 && !(|s| >= 2 && s[0] == '\\' && s[1] == '[')
    ensures Unescaped(s) == [s[0]] + Unescaped(s[1..])
  {
  }

  // ---------------------------------------------------------------
  // The bracket depth of a label
  // ---------------------------------------------------------------

  /**
   * The bracket depth after reading `t[p..q]` from depth `d`, whatever the
   * label loop makes of it: `\[` leaves the depth alone, any other `[` adds
   * one, and every `]` takes one away.
   */
  function DepthAfter(t: string, p: nat, q: nat, d: int): int
    requires p <= q <= |t|
    decreases q - p
  {
    if p == q then d
    else if t[p] == '\\' && p + 1 < q && t[p + 1] == '[' then DepthAfter(t, p + 2, q, d)
    else if t[p] == '[' then DepthAfter(t, p + 1, q, d + 1)
    else if t[p] == ']' then DepthAfter(t, p + 1, q, d - 1)
    else DepthAfter(t, p + 1, q, d)
  }

  /**
   * The label loop stops at the first `]` that brings the depth to 0: every
   * shorter span keeps the depth at 1 or more, the span read has depth 0
   * when the label is closed, and an unclosed label (which stops only at
   * the end of input) never brought the depth to 0 at all.
   */
  lemma {:induction false} LabelDepth(t: string, p: nat, depth: nat)
    requires p <= |t| && depth >= 1
    ensures var l := LabelScan(t, p, depth);
      && (forall q :: p <= q < l.end ==> DepthAfter(t, p, q, depth) >= 1)
      && (l.closed ==> DepthAfter(t, p, l.end, depth) == 0)
      && (!l.closed ==> DepthAfter(t, p, l.end, depth) >= 1)
    decreases |t| - p, 1
  {
    var c := At(t, p);
    if c == '\0' {
    } else if c == ']' && depth == 1 {
      assert DepthAfter(t, p, p + 1, 1) == DepthAfter(t, p + 1, p + 1, 0);
    } else if c == '\\' && At(t, p + 1) == '[' {
      DepthEscape(t, p, depth);
    } else {
      var d := if c == '[' then depth + 1 else if c == ']' then depth - 1 else depth;
      DepthChar(t, p, depth, d);
    }
  }

  /** `LabelDepth` on `\[`, from the same two characters on. */
  lemma {:induction false} DepthEscape(t: string, p: nat, depth: nat)
    requires p + 1 < |t| && depth >= 1 && t[p] == '\\' && t[p + 1] == '['
    ensures var l := LabelScan(t, p, depth);
      && (forall q :: p <= q < l.end ==> DepthAfter(t, p, q, depth) >= 1)
      && (l.closed ==> DepthAfter(t, p, l.end, depth) == 0)
      && (!l.closed ==> DepthAfter(t, p, l.end, depth) >= 1)
    decreases |t| - p, 0
  {
    LabelScanEscape(t, p, depth);
    var rest := LabelScan(t, p + 2, depth);
    LabelDepth(t, p + 2, depth);
    forall q | p <= q < rest.end
      ensures DepthAfter(t, p, q, depth) >= 1
    {
      if q >= p + 2 {
        assert DepthAfter(t, p, q, depth) == DepthAfter(t, p + 2, q, depth);
      } else if q == p + 1 {
        assert DepthAfter(t, p, q, depth) == DepthAfter(t, p + 1, q, depth);
      }
    }
    assert DepthAfter(t, p, rest.end, depth) == DepthAfter(t, p + 2, rest.end, depth);
  }

  /** `LabelDepth` on a character that neither ends the label nor starts `\[`, from the next one on at depth `d`. */
  lemma {:induction false} DepthChar(t: string, p: nat, depth: nat, d: nat)
    requires p < |t| && depth >= 1 && t[p] != '\0' && !(t[p] == ']' && depth == 1)
    requires !(t[p] == '\\' && At(t, p + 1) == '[')
    requires d == if t[p] == '[' then depth + 1 else if t[p] == ']' then depth - 1 else depth
    ensures var l := LabelScan(t, p, depth);
      && (forall q :: p <= q < l.end ==> DepthAfter(t, p, q, depth) >= 1)
      && (l.closed ==> DepthAfter(t, p, l.end, depth) == 0)
      && (!l.closed ==> DepthAfter(t, p, l.end, depth) >= 1)
    decreases |t| - p, 0
  {
    LabelScanChar(t, p, depth, d);
    var rest := LabelScan(t, p + 1, d);
    LabelDepth(t, p + 1, d);
    forall q | p < q <= rest.end
      ensures DepthAfter(t, p, q, depth) == DepthAfter(t, p + 1, q, d)
    {
      assert !(p + 1 < q && t[p + 1] == '[') || t[p] != '\\';
    }
  }

  /**
   * On input without NUL a label closes exactly when some span after the
   * `[` brings the depth from 1 to 0.
   */
  lemma {:induction false} LabelCloses(t: string, p: nat)
    requires p <= |t| && NoNul(t)
    ensures LabelScan(t, p, 1).closed <==> exists q :: p <= q <= |t| && DepthAfter(t, p, q, 1) == 0
  {
    var l := LabelScan(t, p, 1);
    LabelDepth(t, p, 1);
    if l.closed {
      assert DepthAfter(t, p, l.end, 1) == 0;
    } else {
      assert l.end == |t|;
    }
  }

  /**
   * The success direction of `handle_link`: `[label](url)` with a label free
   * of brackets, backslashes and NUL and a url free of `)`, `'\n'` and NUL
   * always gives LINK `label|url`, with the cursor after the `)`.
   */
  lemma {:induction false} LinkRecognised(t: string, p: nat, a: string, u: string)
    requires p + |a| + |u| + 4 <= |t| && t[p..p + |a| + |u| + 4] == "[" + a + "](" + u + ")"
    requires Lacks(a, '[') && Lacks(a, ']') && Lacks(a, '\\') && Lacks(a, '\0')
    requires Lacks(u, ')') && Lacks(u, '\n') && Lacks(u, '\0')
    ensures LinkStep(t, p) == Step(Tok(Link, a + "|" + u), p + |a| + |u| + 4)
  {
    var m := p + 1 + |a|;
    var e := m + 2 + |u|;
    LinkLayout(t, p, a, u);
    PlainLabelScan(t, p + 1, a);
    var l := Label(a, m + 1, true);
    ScanProps.CollectEndAt(t, m + 2, e, ')');
    LinkPartsUrl(t, p, l, e);
  }

  /** The positions of `[label](url)` read off character by character. */
  lemma {:induction false} LinkLayout(t: string, p: nat, a: string, u: string)
    requires p + |a| + |u| + 4 <= |t| && t[p..p + |a| + |u| + 4] == "[" + a + "](" + u + ")"
    ensures var m := p + 1 + |a|;
      && t[p] == '[' && t[m] == ']' && t[m + 1] == '(' && t[m + 2 + |u|] == ')'
      && (forall i :: 0 <= i < |a| ==> t[p + 1 + i] == a[i])
      && t[m + 2..m + 2 + |u|] == u
  {
    var w := t[p..p + |a| + |u| + 4];
    var m := p + 1 + |a|;
    assert w[0] == t[p] && w[1 + |a|] == t[m] && w[2 + |a|] == t[m + 1] && w[3 + |a| + |u|] == t[m + 2 + |u|];
    forall i | 0 <= i < |a|
      ensures t[p + 1 + i] == a[i]
    {
      assert w[1 + i] == t[p + 1 + i];
    }
    forall i | 0 <= i < |u|
      ensures t[m + 2 + i] == u[i]
    {
      assert w[3 + |a| + i] == t[m + 2 + i];
    }
    assert t[m + 2..m + 2 + |u|] == u;
  }

  /** A label with no bracket, backslash or NUL, then `]`, is read as itself and closed by that `]`. */
  lemma {:induction false} PlainLabelScan(t: string, q: nat, a: string)
    requires q + |a| < |t| && t[q + |a|] == ']'
    requires forall i :: 0 <= i < |a| ==> t[q + i] == a[i]
    requires Lacks(a, '[') && Lacks(a, ']') && Lacks(a, '\\') && Lacks(a, '\0')
    ensures LabelScan(t, q, 1) == Label(a, q + |a| + 1, true)
    decreases |a|
  {
    if a == [] {
      LabelScanClose(t, q);
    } else {
      var a' := a[1..];
      forall i | 0 <= i < |a'|
        ensures t[q + 1 + i] == a'[i]
      {
        assert t[q + 1 + i] == a[i + 1];
      }
      assert forall i :: 0 <= i < |a'| ==> a'[i] == a[i + 1];
      PlainLabelScan(t, q + 1, a');
      assert t[q] == a[0] && a[0] != '[' && a[0] != ']' && a[0] != '\\' && a[0] != '\0';
      LabelScanChar(t, q, 1, 1);
      assert [a[0]] + a' == a;
    }
  }

  /** The success direction of `handle_image`: `!` then a recognised link gives IMAGE with the same payload. */
  lemma {:induction false} ImageRecognised(t: string, p: nat, a: string, u: string)
    requires p + |a| + |u| + 5 <= |t| && t[p] == '!'
    requires t[p + 1..p + |a| + |u| + 5] == "[" + a + "](" + u + ")"
    requires Lacks(a, '[') && Lacks(a, ']') && Lacks(a, '\\') && Lacks(a, '\0')
    requires Lacks(u, ')') && Lacks(u, '\n') && Lacks(u, '\0')
    ensures ImageStep(t, p) == Step(Tok(Image, a + "|" + u), p + |a| + |u| + 5)
  {
    LinkRecognised(t, p + 1, a, u);
    assert t[p + 1] == t[p + 1..p + |a| + |u| + 5][0];
    ImageOutcomes(t, p);
  }

  /** A label never closed by `]` runs to the end of input and falls back to TEXT `"[" + label`. */
  lemma {:induction false} LinkUnclosed(t: string, p: nat)
    requires p < |t| && t[p] == '['
    requires !LabelScan(t, p + 1, 1).closed
    ensures var l := LabelScan(t, p + 1, 1);
      LinkStep(t, p) == Step(Tok(Text, "[" + l.text), l.end) && At(t, l.end) == '\0'
  {
  }

  /** A closed label not followed by `(` falls back to TEXT `"[" + label + "]"`, the cursor after `]`. */
  lemma {:induction false} LinkWithoutUrl(t: string, p: nat)
    requires p < |t| && t[p] == '['
    requires var l := LabelScan(t, p + 1, 1); l.closed && At(t, l.end) != '('
    ensures var l := LabelScan(t, p + 1, 1);
      LinkStep(t, p) == Step(Tok(Text, "[" + l.text + "]"), l.end) && t[l.end - 1] == ']'
  {
  }

  /**
   * `[label](url)`: a LINK whose value is `label + "|" + url`, with a url
   * free of `)` and `'\n'`; exactly those characters are consumed.
   */
  lemma {:induction false} LinkWithUrl(t: string, p: nat)
    requires p < |t| && t[p] == '['
    requires var l := LabelScan(t, p + 1, 1);
      l.closed && At(t, l.end) == '(' && At(t, CollectEnd(t, l.end + 1, ')')) == ')'
    ensures var l := LabelScan(t, p + 1, 1); var e := CollectEnd(t, l.end + 1, ')');
      var url := t[l.end + 1..e];
      && LinkStep(t, p) == Step(Tok(Link, l.text + "|" + url), e + 1)
      && Lacks(url, ')') && Lacks(url, '\n')
      && t[p..e + 1] == "[" + t[p + 1..l.end - 1] + "](" + url + ")"
  {
    var l := LabelScan(t, p + 1, 1);
    var e := CollectEnd(t, l.end + 1, ')');
    LinkSpan(t, p, l.end - 1, e);
  }

  /** The characters of `[label](url)` laid out by the positions of `[`, `]` and `)`. */
  lemma {:induction false} LinkSpan(t: string, p: nat, m: nat, e: nat)
    requires p < m && m + 1 <= e < |t|
    requires t[p] == '[' && t[m] == ']' && t[m + 1] == '(' && t[e] == ')'
    ensures t[p..e + 1] == "[" + t[p + 1..m] + "](" + t[m + 2..e] + ")"
  {
    assert t[p..e + 1] == [t[p]] + t[p + 1..m] + [t[m], t[m + 1]] + t[m + 2..e] + [t[e]];
  }

  /** `[label](url` cut short by `'\n'` or the end falls back to TEXT `"[" + label + "](" + url`, the `'\n'` left unread. */
  lemma {:induction false} LinkUnclosedUrl(t: string, p: nat)
    requires p < |t| && t[p] == '['
    requires var l := LabelScan(t, p + 1, 1);
      l.closed && At(t, l.end) == '(' && At(t, CollectEnd(t, l.end + 1, ')')) != ')'
    ensures var l := LabelScan(t, p + 1, 1); var e := CollectEnd(t, l.end + 1, ')');
      var url := t[l.end + 1..e];
      && LinkStep(t, p) == Step(Tok(Text, "[" + l.text + "](" + url), e)
      && Lacks(url, ')') && Lacks(url, '\n')
      && (At(t, e) == '\n' || At(t, e) == '\0')
  {
  }

  /** Without a backslash in what it consumed, a failed link is those characters verbatim. */
  lemma {:induction false} LinkFallbackVerbatim(t: string, p: nat)
    requires p < |t| && t[p] == '['
    requires var s := LinkStep(t, p); s.tok.kind == Text && Lacks(t[p..s.next], '\\')
    ensures var s := LinkStep(t, p); s.tok.value == t[p..s.next]
  {
    var s := LinkStep(t, p);
    var l := LabelScan(t, p + 1, 1);
    PlainLabel(t, p, s.next);
    if !l.closed {
      LinkUnclosed(t, p);
      VerbatimUnclosed(t, p, l, s);
    } else if At(t, l.end) != '(' {
      LinkWithoutUrl(t, p);
      VerbatimWithoutUrl(t, p, l, s);
    } else {
      CutUrlVerbatim(t, p, l, CollectEnd(t, l.end + 1, ')'));
    }
  }

  /** `[label](url` cut short, with the label raw text: the fallback is what was consumed. */
  lemma {:induction false} CutUrlVerbatim(t: string, p: nat, l: Label, e: nat)
    requires p < |t| && t[p] == '['
    requires l == LabelScan(t, p + 1, 1) && l.closed && At(t, l.end) == '('
    requires e == CollectEnd(t, l.end + 1, ')') && At(t, e) != ')'
    requires l.text == t[p + 1..l.end - 1]
    ensures var s := LinkStep(t, p); s.tok.value == t[p..s.next]
  {
    LinkUnclosedUrl(t, p);
    VerbatimCutUrl(t, p, l, LinkStep(t, p), e);
  }

  /** The unclosed-label fallback `"[" + label` is what was consumed when the label is raw text. */
  lemma {:induction false} VerbatimUnclosed(t: string, p: nat, l: Label, s: Step)
    requires p < l.end <= |t| && t[p] == '['
    requires l.text == t[p + 1..l.end] && s == Step(Tok(Text, "[" + l.text), l.end)
    ensures s.tok.value == t[p..s.next]
  {
    Bracketed(t, p, l.end, l.end, "");
  }

  /** The fallback `"[" + label + "]"` is what was consumed when the label is raw text. */
  lemma {:induction false} VerbatimWithoutUrl(t: string, p: nat, l: Label, s: Step)
    requires p + 1 < l.end <= |t| && t[p] == '[' && t[l.end - 1] == ']'
    requires l.text == t[p + 1..l.end - 1] && s == Step(Tok(Text, "[" + l.text + "]"), l.end)
    ensures s.tok.value == t[p..s.next]
  {
    assert t[l.end - 1..l.end] == "]";
    Bracketed(t, p, l.end - 1, l.end, "]");
  }

  /** The fallback `"[" + label + "](" + url` is what was consumed when the label is raw text. */
  lemma {:induction false} VerbatimCutUrl(t: string, p: nat, l: Label, s: Step, e: nat)
    requires p + 1 < l.end < e <= |t| && t[p] == '[' && t[l.end - 1] == ']' && t[l.end] == '('
    requires l.text == t[p + 1..l.end - 1] && s == Step(Tok(Text, "[" + l.text + "](" + t[l.end + 1..e]), e)
    ensures s.tok.value == t[p..s.next]
  {
    assert t[l.end - 1..e] == "](" + t[l.end + 1..e];
    Bracketed(t, p, l.end - 1, e, "](" + t[l.end + 1..e]);
  }

  /** A label read from a backslash-free span is the raw text between the brackets. */
  lemma {:induction false} PlainLabel(t: string, p: nat, x: nat)
    requires p < |t| && LabelScan(t, p + 1, 1).end <= x <= |t| && Lacks(t[p..x], '\\')
    ensures var l := LabelScan(t, p + 1, 1);
      l.text == t[p + 1..if l.closed then l.end - 1 else l.end]
  {
    LabelIsRawText(t, p + 1, 1);
    PlainLabelText(t, p, x, LabelScan(t, p + 1, 1));
  }

  /** A label `l` scanned from `p + 1` whose text is the raw spelling of a backslash-free span is that span. */
  lemma {:induction false} PlainLabelText(t: string, p: nat, x: nat, l: Label)
    requires p < |t| && p + 1 <= l.end <= x <= |t| && Lacks(t[p..x], '\\')
    requires l.closed ==> p + 1 < l.end
    requires l.text == Unescaped(t[p + 1..if l.closed then l.end - 1 else l.end])
    ensures l.text == t[p + 1..if l.closed then l.end - 1 else l.end]
  {
    PlainSlice(t, p, if l.closed then l.end - 1 else l.end, x);
  }

  /** A span opened by `[`: the `[`, the characters up to `m`, then whatever follows from `m`. */
  lemma {:induction false} Bracketed(t: string, p: nat, m: nat, x: nat, tail: string)
    requires p < m <= x <= |t| && t[p] == '['
    requires t[m..x] == tail
    ensures t[p..x] == "[" + t[p + 1..m] + tail
  {
    assert t[p..x] == [t[p]] + t[p + 1..m] + t[m..x];
  }

  /** Inside a backslash-free span, the text after its first character reads as itself. */
  lemma {:induction false} PlainSlice(t: string, p: nat, stop: nat, x: nat)
    requires p < x <= |t| && p + 1 <= stop <= x && Lacks(t[p..x], '\\')
    ensures Unescaped(t[p + 1..stop]) == t[p + 1..stop]
  {
    var s := t[p + 1..stop];
    forall i | 0 <= i < |s|
      ensures s[i] != '\\'
    {
      assert s[i] == t[p..x][i + 1];
    }
    UnescapedPlain(s);
  }

  /**
   * `!` not followed by `[` is TEXT `"!"`, one character consumed; otherwise
   * the link at `p + 1` decides: an IMAGE with the identical payload, or
   * `"!"` before the link's fallback text, the cursor where the link left it.
   */
  lemma {:induction false} ImageOutcomes(t: string, p: nat)
    requires p < |t| && t[p] == '!'
    ensures var s := ImageStep(t, p);
      && (At(t, p + 1) != '[' ==> s == Step(Tok(Text, "!"), p + 1))
      && (At(t, p + 1) == '[' ==>
            var link := LinkStep(t, p + 1);
            && s.next == link.next
            && (s.tok.kind == Image <==> link.tok.kind == Link)
            && (s.tok.kind == Image ==> s.tok.value == link.tok.value)
            && (s.tok.kind == Text ==> s.tok.value == "!" + link.tok.value))
  {
  }

  /** Without a backslash in what it consumed, a failed image is those characters verbatim. */
  lemma {:induction false} ImageFallbackVerbatim(t: string, p: nat)
    requires p < |t| && t[p] == '!'
    requires var s := ImageStep(t, p); s.tok.kind == Text && Lacks(t[p..s.next], '\\')
    ensures var s := ImageStep(t, p); s.tok.value == t[p..s.next]
  {
    var s := ImageStep(t, p);
    if At(t, p + 1) == '[' {
      var link := LinkStep(t, p + 1);
      assert t[p + 1..link.next] == t[p..s.next][1..];
      LinkFallbackVerbatim(t, p + 1);
      assert t[p..s.next] == "!" + t[p + 1..link.next];
    }
  }
}
