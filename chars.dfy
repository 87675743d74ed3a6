/**
 * Character classes and the cursor view shared by both lexers.
 * The input text is a `seq<char>`; the character under the cursor is
 * `text[pos]`, or `'\0'` once the cursor has run past the end.
 */
module Chars {

  /** `isspace` in the C locale: space, tab, newline, vertical tab, form feed, carriage return. */
  predicate IsSpace(c: char)
    ensures IsSpace(c) ==> c != '\0' && c as int <= 32
  {
    c == ' ' || c == '\t' || c == '\n' || c == '\U{000B}' || c == '\U{000C}' || c == '\r'
  }

  /** The characters that start a construct: `# * [ ! -`. None is a blank or the end of input. */
  predicate IsMarkdownChar(c: char)
    ensures IsMarkdownChar(c) ==> c != '\0' && !IsSpace(c)
  {
    c == '#' || c == '*' || c == '[' || c == '!' || c == '-'
  }

  /** The character at `p`, `'\0'` past the end (what `current_char` and `peek` return). */
  function At(t: string, p: nat): char {
    if p < |t| then t[p] else '\0'
  }

  /** The lexer treats `'\0'` as the end of input, so inputs must not contain it. */
  predicate NoNul(t: string) {
    forall i :: 0 <= i < |t| ==> t[i] != '\0'
  }

  /** `std::string(n, '#')`. */
  function Hashes(n: nat): (r: string)
    ensures |r| == n
    ensures forall i :: 0 <= i < n ==> r[i] == '#'
  {
    if n == 0 then [] else Hashes(n - 1) + "#"
  }

  /** `s` contains no occurrence of `c`. */
  predicate Lacks(s: string, c: char) {
    forall i :: 0 <= i < |s| ==> s[i] != c
  }

  /** `c` is missing from a concatenation exactly when it is missing from both parts. */
  lemma {:induction false} LacksAppend(a: string, b: string, c: char)
    ensures Lacks(a + b, c) <==> Lacks(a, c) && Lacks(b, c)
  {
    if Lacks(a, c) && Lacks(b, c) {
      forall i | 0 <= i < |a + b|
        ensures (a + b)[i] != c
      {
        if i >= |a| {
          assert (a + b)[i] == b[i - |a|];
        }
      }
    }
    if Lacks(a + b, c) {
      forall i | 0 <= i < |a|
        ensures a[i] != c
      {
        assert a[i] == (a + b)[i];
      }
      forall i | 0 <= i < |b|
        ensures b[i] != c
      {
        assert b[i] == (a + b)[|a| + i];
      }
    }
  }

  /** Appending `a` and then `rest` is appending `a + rest`. */
  lemma {:induction false} Regroup2<T>(done: seq<T>, a: seq<T>, rest: seq<T>)
    ensures done + (a + rest) == done + a + rest
  {
  }
}
