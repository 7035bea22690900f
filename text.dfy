/**
 * The string conventions the reader relies on: Rust's `str::split_whitespace`
 * (what a "word" is), `str::lines` (how a text block becomes render lines),
 * `join(" ")` (how selected words become a snapshot) and `str::contains`
 * (the in-chapter search test).
 */
module Text {

  /** Rust's `char::is_whitespace`: the Unicode White_Space property. */
  predicate IsSpace(c: char) {
    || c == ' '
    || ('\t' <= c <= '\r')
    || c == '\U{85}'
    || c == '\U{A0}'
    || c == '\U{1680}'
    || ('\U{2000}' <= c <= '\U{200A}')
    || c == '\U{2028}'
    || c == '\U{2029}'
    || c == '\U{202F}'
    || c == '\U{205F}'
    || c == '\U{3000}'
  }

  /** A token produced by `split_whitespace`: non-empty, with no whitespace in it. */
  predicate IsWord(w: string) {
    |w| > 0 && forall i :: 0 <= i < |w| ==> !IsSpace(w[i])
  }

  /** Length of the run of non-whitespace characters at the start of `s`. */
  function WordLen(s: string): (n: nat)
    ensures n <= |s|
    ensures forall i :: 0 <= i < n ==> !IsSpace(s[i])
    ensures n < |s| ==> IsSpace(s[n])
  {
    if s == [] || IsSpace(s[0]) then 0 else 1 + WordLen(s[1..])
  }

  /** `s.split_whitespace()`: the maximal runs of non-whitespace characters, in order. */
  function Words(s: string): (ws: seq<string>)
    ensures forall k :: 0 <= k < |ws| ==> IsWord(ws[k])
    decreases |s|
  {
    if s == [] then []
    else if IsSpace(s[0]) then Words(s[1..])
    else
      var n := WordLen(s);
      [s[..n]] + Words(s[n..])
  }

  /** `words.join(" ")`. */
  function Join(ws: seq<string>): string {
    if ws == [] then ""
    else if |ws| == 1 then ws[0]
    else ws[0] + " " + Join(ws[1..])
  }

  /** A word followed by anything that starts with whitespace is read as one token. */
  lemma {:induction false} WordLenOfWord(w: string, rest: string)
    requires forall i :: 0 <= i < |w| ==> !IsSpace(w[i])
    requires rest == [] || IsSpace(rest[0])
    ensures WordLen(w + rest) == |w|
  {
    if w != [] {
      assert (w + rest)[1..] == w[1..] + rest;
      WordLenOfWord(w[1..], rest);
    }
  }

  /** A leading whitespace character, of any White_Space kind, is skipped. */
  lemma {:induction false} WordsSkipSpace(c: char, rest: string)
    requires IsSpace(c)
    ensures Words([c] + rest) == Words(rest)
  {
    assert ([c] + rest)[1..] == rest;
  }

  /** A word standing before whitespace (or the end) is the first token. */
  lemma {:induction false} WordsOfWordThen(w: string, rest: string)
    requires IsWord(w)
    requires rest == [] || IsSpace(rest[0])
    ensures Words(w + rest) == [w] + Words(rest)
  {
    WordLenOfWord(w, rest);
    var s := w + rest;
    assert s[..|w|] == w;
    assert s[|w|..] == rest;
  }

  /** Splitting the single-space join of some words gives those words back. */
  lemma {:induction false} WordsOfJoin(ws: seq<string>)
    requires forall k :: 0 <= k < |ws| ==> IsWord(ws[k])
    ensures Words(Join(ws)) == ws
  {
    if ws == [] {
    } else if |ws| == 1 {
      WordsOfWordThen(ws[0], "");
      assert ws[0] + "" == ws[0];
    } else {
      var rest := Join(ws[1..]);
      WordsOfJoin(ws[1..]);
      assert ws[0] + " " + rest == ws[0] + (" " + rest);
      WordsOfWordThen(ws[0], " " + rest);
      WordsSkipSpace(' ', rest);
    }
  }

  /** The number of words in `s`, `s.split_whitespace().count()`. */
  function WordCount(s: string): nat {
    |Words(s)|
  }

  /** Index of the first `'\n'` in `s`, or `|s|` when there is none. */
  function LineLen(s: string): (n: nat)
    ensures n <= |s|
    ensures forall i :: 0 <= i < n ==> s[i] != '\n'
    ensures n < |s| ==> s[n] == '\n'
  {
    if s == [] || s[0] == '\n' then 0 else 1 + LineLen(s[1..])
  }

  /** Drops one trailing carriage return. */
  function StripCr(t: string): (r: string)
    ensures r == t || (t == r + "\r")
  {
    if |t| > 0 && t[|t| - 1] == '\r' then t[..|t| - 1] else t
  }

  /**
   * `s.lines()`: the segments of `s` between `'\n'` characters, each with one
   * trailing `'\r'` removed when it stood before a `'\n'`; the final segment is
   * only produced when it is non-empty, so an empty string has no lines and a
   * terminating newline adds none.
   */
  function Lines(s: string): (ls: seq<string>)
    decreases |s|
  {
    if s == [] then []
    else
      var n := LineLen(s);
      if n == |s| then [s]
      else [StripCr(s[..n])] + Lines(s[n + 1..])
  }

  /** Number of `'\n'` characters in `s`. */
  function NewlineCount(s: string): nat {
    if s == [] then 0 else (if s[0] == '\n' then 1 else 0) + NewlineCount(s[1..])
  }

  lemma {:induction false} NewlineCountAppend(a: string, b: string)
    ensures NewlineCount(a + b) == NewlineCount(a) + NewlineCount(b)
  {
    if a != [] {
      var ab := a + b;
      assert ab[0] == a[0];
      assert ab[1..] == a[1..] + b;
      NewlineCountAppend(a[1..], b);
      assert NewlineCount(ab) == (if a[0] == '\n' then 1 else 0) + NewlineCount(ab[1..]);
    } else {
      assert a + b == b;
    }
  }

  lemma {:induction false} NewlineCountNone(s: string)
    requires forall i :: 0 <= i < |s| ==> s[i] != '\n'
    ensures NewlineCount(s) == 0
  {
    if s != [] {
      assert forall i :: 0 <= i < |s[1..]| ==> s[1..][i] == s[i + 1];
      NewlineCountNone(s[1..]);
    }
  }

  /** Splits `s` at its first newline, when it has one. */
  lemma SplitAtNewline(s: string, n: nat)
    requires n < |s| && s[n] == '\n'
    ensures s == s[..n] + ([s[n]] + s[n + 1..])
    ensures ([s[n]] + s[n + 1..])[1..] == s[n + 1..]
  {
  }

  /** No line holds a newline. */
  lemma {:induction false} LinesHaveNoNewline(s: string)
    ensures forall k :: 0 <= k < |Lines(s)| ==> '\n' !in Lines(s)[k]
    decreases |s|
  {
    if s != [] {
      var n := LineLen(s);
      if n < |s| {
        LinesHaveNoNewline(s[n + 1..]);
        var head := StripCr(s[..n]);
        assert forall i :: 0 <= i < |head| ==> head[i] == s[i];
        assert Lines(s) == [head] + Lines(s[n + 1..]);
      }
    }
  }

  /** There is one line per `'\n'`, plus one for an unterminated final segment. */
  lemma {:induction false} LinesCount(s: string)
    ensures |Lines(s)| == NewlineCount(s) + (if s != [] && s[|s| - 1] != '\n' then 1 else 0)
    decreases |s|
  {
    if s != [] {
      var n := LineLen(s);
      if n == |s| {
        NewlineCountNone(s);
      } else {
        var rest := s[n + 1..];
        LinesCount(rest);
        SplitAtNewline(s, n);
        NewlineCountAppend(s[..n], [s[n]] + rest);
        NewlineCountNone(s[..n]);
        if rest != [] {
          assert s[|s| - 1] == rest[|rest| - 1];
        }
      }
    }
  }

  /** A terminating newline adds no line: `"a\nb\n".lines()` equals `"a\nb".lines()`. */
  lemma {:induction false} LinesTrailingNewline(s: string)
    requires s != [] && s[|s| - 1] != '\n' && s[|s| - 1] != '\r'
    ensures Lines(s + "\n") == Lines(s)
    decreases |s|
  {
    var t := s + "\n";
    var n := LineLen(s);
    if n == |s| {
      LineLenStops(s, "\n");
      assert t[..n] == s;
      assert t[n + 1..] == [];
    } else {
      LineLenStops(s, "\n");
      assert t[..n] == s[..n];
      var rest := s[n + 1..];
      assert t[n + 1..] == rest + "\n";
      assert rest != [];
      assert rest[|rest| - 1] == s[|s| - 1];
      LinesTrailingNewline(rest);
    }
  }

  /** Appending text does not move the first newline once there is one. */
  lemma {:induction false} LineLenStops(s: string, tail: string)
    requires tail != [] && tail[0] == '\n'
    ensures LineLen(s + tail) == LineLen(s)
  {
    if s != [] {
      if s[0] != '\n' {
        assert (s + tail)[1..] == s[1..] + tail;
        LineLenStops(s[1..], tail);
      }
    }
  }

  /** The first newline of `a + "\n" + b` is the one after `a` when `a` has none. */
  lemma {:induction false} LineLenOfLine(a: string, b: string)
    requires '\n' !in a
    ensures LineLen(a + "\n" + b) == |a|
  {
    if a != [] {
      assert a[0] in a;
      assert (a + "\n" + b)[1..] == a[1..] + "\n" + b;
      assert forall c :: c in a[1..] ==> c in a;
      LineLenOfLine(a[1..], b);
    }
  }

  /**
   * The first line of a text is what precedes its first newline, less one
   * carriage return, and the lines after it are the lines of the rest.
   */
  lemma LinesCons(a: string, b: string)
    requires '\n' !in a
    ensures Lines(a + "\n" + b) == [StripCr(a)] + Lines(b)
  {
    var s := a + "\n" + b;
    LineLenOfLine(a, b);
    assert s[..|a|] == a;
    assert s[|a| + 1..] == b;
  }

  /** A non-empty text without a newline is a single line, `\r` included. */
  lemma LinesOfLine(a: string)
    requires a != [] && '\n' !in a
    ensures Lines(a) == [a]
  {
  }

  /** Lines joined back with `'\n'`. */
  function JoinLines(ls: seq<string>): string {
    if ls == [] then ""
    else if |ls| == 1 then ls[0]
    else ls[0] + "\n" + JoinLines(ls[1..])
  }

  /**
   * Without carriage returns and a terminating newline, joining the lines
   * with `'\n'` gives the text back: `lines()` drops no other character.
   */
  lemma {:induction false} LinesRejoin(s: string)
    requires '\r' !in s
    requires s == [] || s[|s| - 1] != '\n'
    ensures JoinLines(Lines(s)) == s
    decreases |s|
  {
    if s != [] {
      var n := LineLen(s);
      if n < |s| {
        var a, b := s[..n], s[n + 1..];
        assert s == a + "\n" + b;
        assert '\n' !in a by {
          forall i | 0 <= i < |a| ensures a[i] != '\n' {
            assert a[i] == s[i];
          }
        }
        assert '\r' !in b by {
          forall i | 0 <= i < |b| ensures b[i] != '\r' {
            assert b[i] == s[n + 1 + i];
          }
        }
        if |a| > 0 {
          assert a[|a| - 1] == s[n - 1];
        }
        assert StripCr(a) == a;
        assert b != [] && b[|b| - 1] == s[|s| - 1];
        LinesRejoin(b);
        assert Lines(s) == [a] + Lines(b);
        assert Lines(b) != [] by {
          LinesCount(b);
        }
      }
    }
  }

  /** `query` occurs in `text` starting at index `i`. */
  predicate OccursAt(text: string, query: string, i: nat) {
    i + |query| <= |text| && text[i..i + |query|] == query
  }

  /** `text.contains(query)`; the empty query is contained in every text. */
  predicate Contains(text: string, query: string) {
    exists i: nat :: i <= |text| && OccursAt(text, query, i)
  }
}
