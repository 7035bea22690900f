/**
 * The integer logic of the event loop: the height of the reader viewport,
 * the wrap-around selection in list views, the target of an in-chapter
 * search, the RSVP speed keys, and the `[ ]` / `{ }` layout clamps.
 */
module Controls {
  import opened Wrappers
  import opened Numeric
  import opened Text
  import opened Layout
  import opened Views

  /** Rows of the top bar: none in focus mode. */
  function TopBarRows(focusMode: bool): nat { if focusMode then 0 else 1 }

  /** Rows of the status bar: one when it is shown. */
  function StatusBarRows(showStatus: bool): nat { if showStatus then 1 else 0 }

  /** Rows of the search bar: three in the search view only. */
  function SearchBarRows(view: AppView): nat { if view == Search then 3 else 0 }

  /** All rows the bars take. */
  function BarRows(view: AppView, focusMode: bool, showStatus: bool): nat {
    TopBarRows(focusMode) + StatusBarRows(showStatus) + SearchBarRows(view)
  }

  /**
   * `reader_content_height`: the terminal height less the bars and a margin
   * above and below the text, 0 once those take the whole terminal. The
   * multiplication saturating at `u16::MAX` does not change the result.
   */
  function ReaderContentHeight(termHeight: U16, margin: U16, view: AppView, focusMode: bool,
                               showStatus: bool): (n: nat)
    ensures n <= termHeight
    ensures n == if termHeight >= BarRows(view, focusMode, showStatus) + 2 * margin
                 then termHeight - BarRows(view, focusMode, showStatus) - 2 * margin
                 else 0
  {
    var content := SatSub(termHeight, TopBarRows(focusMode) + StatusBarRows(showStatus) + SearchBarRows(view));
    SatSub(content, SatMulU16(margin, 2))
  }

  /** The bar rows are 0 or 1 for the top bar (0 only in focus mode), 0 or 1 for the status bar, 0 or 3 for the search bar. */
  lemma BarRowsCases(view: AppView, focusMode: bool, showStatus: bool)
    ensures TopBarRows(focusMode) == 0 <==> focusMode
    ensures StatusBarRows(showStatus) == 1 <==> showStatus
    ensures SearchBarRows(view) == 3 <==> view == Search
    ensures BarRows(view, focusMode, showStatus) <= 5
  {
  }

  /** The reader height the event loop uses: never below one row. */
  function ReaderHeight(termHeight: U16, margin: U16, view: AppView, focusMode: bool,
                        showStatus: bool): (n: nat)
    ensures n >= 1
    ensures n == ReaderContentHeight(termHeight, margin, view, focusMode, showStatus) ||
            (n == 1 && ReaderContentHeight(termHeight, margin, view, focusMode, showStatus) == 0)
  {
    var h := ReaderContentHeight(termHeight, margin, view, focusMode, showStatus);
    if h >= 1 then h else 1
  }

  /** The viewport height used for the search jump: the terminal less its bottom row. */
  function ViewportHeight(termHeight: U16): (n: nat)
    ensures n + 1 == termHeight || (n == 0 && termHeight == 0)
  {
    SatSub(termHeight, 1)
  }

  /**
   * The index after Down in a list view: the next entry, wrapping from the
   * last to the first; an empty list leaves the index alone.
   */
  function WrapDown(i: nat, len: nat): (j: nat)
    ensures len == 0 ==> j == i
    ensures len > 0 ==> j < len
    ensures i + 1 < len ==> j == i + 1
    ensures len > 0 && i + 1 == len ==> j == 0
  {
    if len > 0 then (i + 1) % len else i
  }

  /**
   * The index after Up in a list view: the previous entry, wrapping from the
   * first to the last; an empty list leaves the index alone.
   */
  function WrapUp(i: nat, len: nat): (j: nat)
    ensures len == 0 ==> j == i
    ensures len > 0 && i <= len ==> j < len
    ensures len > 0 && i > 0 ==> j == i - 1
    ensures len > 0 && i == 0 ==> j == len - 1
  {
    if len > 0 then (if i > 0 then i - 1 else len - 1) else i
  }

  /** On a valid index Up undoes Down and Down undoes Up. */
  lemma WrapInverse(i: nat, len: nat)
    requires i < len
    ensures WrapUp(WrapDown(i, len), len) == i
    ensures WrapDown(WrapUp(i, len), len) == i
  {
  }

  /**
   * An index past the end, as the table of contents can start with, moves as
   * its remainder does.
   */
  lemma WrapDownRemainder(i: nat, len: nat)
    requires len > 0
    ensures WrapDown(i, len) == WrapDown(i % len, len)
  {
    var q, m := i / len, i % len;
    assert i == q * len + m;
    assert i + 1 == q * len + (m + 1);
    ModuloShift(q, len, m + 1);
  }

  /** Adding whole multiples of `len` leaves a remainder alone. */
  lemma {:induction false} ModuloShift(q: nat, len: nat, x: nat)
    requires len > 0
    ensures (q * len + x) % len == x % len
    decreases q
  {
    if q > 0 {
      var y := (q - 1) * len + x;
      ModuloShift(q - 1, len, x);
      assert q * len + x == y + len;
      ModuloAddLen(y, len);
    }
  }

  /** One more `len` leaves a remainder alone. */
  lemma ModuloAddLen(y: nat, len: nat)
    requires len > 0
    ensures (y + len) % len == y % len
  {
    var m, d := y % len, y / len;
    var m', d' := (y + len) % len, (y + len) / len;
    var k := d' - d - 1;
    assert k * len == m - m' by {
      assert y == d * len + m;
      assert y + len == d' * len + m';
      assert d' * len == (d + 1) * len + k * len;
    }
    MultipleInOpenRange(k, len);
  }

  /** The only multiple of `len` strictly between `-len` and `len` is 0. */
  lemma MultipleInOpenRange(k: int, len: nat)
    requires -(len as int) < k * len < len
    ensures k == 0
  {
    if k >= 1 {
      ProductAtLeast(k, len);
    } else if k <= -1 {
      ProductAtLeast(-k, len);
    }
  }

  /** A positive multiple of `len` is at least `len`. */
  lemma {:induction false} ProductAtLeast(k: int, len: nat)
    requires k >= 1
    ensures k * len >= len
    decreases k
  {
    if k > 1 {
      ProductAtLeast(k - 1, len);
      assert k * len == (k - 1) * len + len;
    }
  }

  /** Down `n` times. */
  function WrapDownTimes(i: nat, len: nat, n: nat): nat
    decreases n
  {
    if n == 0 then i else WrapDownTimes(WrapDown(i, len), len, n - 1)
  }

  /**
   * Down at most `len` times from a valid index moves that many entries
   * further on, going round past the last entry at most once; `len` times
   * comes back to the start.
   */
  lemma {:induction false} WrapDownTimesRound(i: nat, len: nat, n: nat)
    requires i < len && n <= len
    ensures WrapDownTimes(i, len, n) == if i + n < len then i + n else i + n - len
    ensures n == len ==> WrapDownTimes(i, len, n) == i
    decreases n
  {
    if n > 0 {
      var j := WrapDown(i, len);
      if i + 1 < len {
        WrapDownTimesRound(j, len, n - 1);
      } else {
        WrapDownTimesShift(0, len, n - 1);
      }
    }
  }

  /** Starting `k` entries on, `n` steps that stay below the end add `n`. */
  lemma {:induction false} WrapDownTimesShift(k: nat, len: nat, n: nat)
    requires k + n < len
    ensures WrapDownTimes(k, len, n) == k + n
    decreases n
  {
    if n > 0 {
      WrapDownTimesShift(k + 1, len, n - 1);
    }
  }

  /** A buffer line the search for `query` stops at: a text line containing it. */
  predicate IsMatch(l: RenderLine, query: string) {
    l.Text? && Contains(l.text, query)
  }

  /**
   * The search on Enter: the offset, counted from line `from`, of the first
   * text line at or after `from` that contains the query.
   */
  function FindMatch(content: seq<RenderLine>, from: nat, query: string): (r: Option<nat>)
    ensures r.Some? ==> from + r.value < |content| && IsMatch(content[from + r.value], query)
    ensures r.Some? ==> forall k :: from <= k < from + r.value ==> !IsMatch(content[k], query)
    ensures r.None? <==> forall k :: from <= k < |content| ==> !IsMatch(content[k], query)
    decreases |content| - from
  {
    if from >= |content| then None
    else if IsMatch(content[from], query) then Some(0)
    else match FindMatch(content, from + 1, query)
      case None => None
      case Some(p) => Some(p + 1)
  }

  /** `+` in RSVP mode speeds up by 50 words per minute. */
  function WpmFaster(wpm: nat): (r: nat)
    ensures r > wpm
  {
    wpm + 50
  }

  /** `-` in RSVP mode slows down by 50 words per minute, but never to 50 or below by itself. */
  function WpmSlower(wpm: nat): (r: nat)
    ensures wpm > 50 ==> r + 50 == wpm
    ensures wpm <= 50 ==> r == wpm
    ensures wpm > 0 ==> r > 0
  {
    if wpm > 50 then wpm - 50 else wpm
  }

  /**
   * Slowing down undoes speeding up from any positive speed; speeding up
   * undoes slowing down when that took effect.
   */
  lemma WpmInverse(wpm: nat)
    ensures wpm > 0 ==> WpmSlower(WpmFaster(wpm)) == wpm
    ensures wpm > 50 ==> WpmFaster(WpmSlower(wpm)) == wpm
  {
  }

  /** The initial speed of 300 only moves over the multiples of 50 from 50 up. */
  const InitialWpm := 300

  /** Both keys keep the speed a positive multiple of 50. */
  lemma WpmStaysOnGrid(wpm: nat)
    requires wpm >= 50 && wpm % 50 == 0
    ensures WpmFaster(wpm) >= 50 && WpmFaster(wpm) % 50 == 0
    ensures WpmSlower(wpm) >= 50 && WpmSlower(wpm) % 50 == 0
  {
  }

  /**
   * `adjust_margin` / `adjust_spacing`: the value read as `i16`, moved by
   * `delta`, then clamped to `0..=hi`.
   */
  function Adjusted(value: U16, delta: I16, hi: nat): (r: nat)
    requires hi < 0x8000
    ensures r <= hi
    ensures value + delta < 0x8000 ==> r == Clamp(value + delta, 0, hi)
  {
    var moved := AddI16(AsI16(value), delta);
    Clamp(moved, 0, hi)
  }

  /** The widest margin, in columns. */
  const MaxMargin := 20

  /** The widest line spacing, in blank rows. */
  const MaxSpacing := 5

  /** One step wider and one step narrower restore a margin that had room to grow, and the reverse. */
  lemma MarginStepsInverse(margin: U16)
    ensures margin < MaxMargin ==> Adjusted(Adjusted(margin, 1, MaxMargin), -1, MaxMargin) == margin
    ensures 0 < margin <= MaxMargin ==> Adjusted(Adjusted(margin, -1, MaxMargin), 1, MaxMargin) == margin
  {
  }

  /** A value with the `i16` sign bit set reads as negative, so any small step clamps it to 0. */
  lemma LargeValueClampsToZero(value: U16, delta: I16, hi: nat)
    requires hi < 0x8000 && value >= 0x8000 && -0x8000 <= AsI16(value) + delta < 0
    ensures Adjusted(value, delta, hi) == 0
  {
  }
}
