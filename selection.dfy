/**
 * Visual-mode selection: the ordered word range between the anchor and the
 * cursor (`get_selection_range`) and the words it covers, joined into the
 * snapshot text stored with an annotation (`get_selected_text`).
 */
module Selection {
  import opened Wrappers
  import opened Numeric
  import opened Text
  import opened Layout
  import opened Navigation

  /** A selection from word `startWord` of `startLine` to word `endWord` of `endLine`, both included. */
  datatype Range = Range(startLine: nat, startWord: nat, endLine: nat, endWord: nat)

  /**
   * `get_selection_range`: no range outside visual mode; otherwise the anchor
   * and the cursor, whichever comes first in reading order first.
   */
  function SelectionRange(anchor: Option<(nat, nat)>, line: nat, word: nat): (r: Option<Range>)
    ensures r.None? <==> anchor.None?
    ensures r.Some? ==> LexLe(r.value.startLine, r.value.startWord, r.value.endLine, r.value.endWord)
    ensures r.Some? ==>
              || ((r.value.startLine, r.value.startWord) == anchor.value &&
                  (r.value.endLine, r.value.endWord) == (line, word))
              || ((r.value.startLine, r.value.startWord) == (line, word) &&
                  (r.value.endLine, r.value.endWord) == anchor.value)
  {
    match anchor
    case None => None
    case Some((al, aw)) =>
      if al < line || (al == line && aw <= word) then Some(Range(al, aw, line, word))
      else Some(Range(line, word, al, aw))
  }

  /** Exchanging the anchor and the cursor selects the same range. */
  lemma SelectionRangeSymmetric(al: nat, aw: nat, line: nat, word: nat)
    ensures SelectionRange(Some((al, aw)), line, word) == SelectionRange(Some((line, word)), al, aw)
  {
  }

  /**
   * The words `ws[lo]`, ..., `ws[stop - 1]` that exist, in order: the inner
   * loop of `get_selected_text`, which skips indices past the end of the line.
   */
  function Picked(ws: seq<string>, lo: nat, stop: nat): seq<string>
    decreases stop
  {
    if stop <= lo then []
    else Picked(ws, lo, stop - 1) + (if stop - 1 < |ws| then [ws[stop - 1]] else [])
  }

  /** The picked words are a slice of the line's words. */
  lemma {:induction false} PickedIsSlice(ws: seq<string>, lo: nat, stop: nat)
    ensures Picked(ws, lo, stop) == if lo < Min(stop, |ws|) then ws[lo..Min(stop, |ws|)] else []
    decreases stop
  {
    if stop > lo {
      PickedIsSlice(ws, lo, stop - 1);
    }
  }

  /** The last word index `get_selected_text` takes from line `li` (inclusive). */
  function LastPick(r: Range, li: nat, count: nat): nat {
    if li == r.endLine then Min(r.endWord, SatSub(count, 1)) else SatSub(count, 1)
  }

  /** The first word index taken from line `li`. */
  function FirstPick(r: Range, li: nat): nat {
    if li == r.startLine then r.startWord else 0
  }

  /** The words line `li` contributes to the selection: none from an image row or past the buffer. */
  function LineSelection(content: seq<RenderLine>, r: Range, li: nat): seq<string> {
    if li < |content| && content[li].Text? then
      var ws := Words(content[li].text);
      Picked(ws, FirstPick(r, li), LastPick(r, li, |ws|) + 1)
    else []
  }

  /** The words of lines `r.startLine` up to `stop - 1`, in reading order. */
  function SelectedUpTo(content: seq<RenderLine>, r: Range, stop: nat): seq<string>
    decreases stop
  {
    if stop <= r.startLine then []
    else SelectedUpTo(content, r, stop - 1) + LineSelection(content, r, stop - 1)
  }

  /** Every word of the range, in reading order. */
  function SelectedWords(content: seq<RenderLine>, r: Range): seq<string> {
    SelectedUpTo(content, r, r.endLine + 1)
  }

  /**
   * `get_selected_text` once the range is known: the covered words joined by
   * single spaces; the words are exactly `SelectedWords`, which `Words` reads
   * back from the text.
   */
  method SelectedText(content: seq<RenderLine>, r: Range) returns (text: string)
    ensures text == Join(SelectedWords(content, r))
    ensures Words(text) == SelectedWords(content, r)
  {
    var selected: seq<string> := [];
    var li := r.startLine;
    while li <= r.endLine
      invariant li == r.startLine || r.startLine <= li <= r.endLine + 1
      invariant selected == SelectedUpTo(content, r, li)
    {
      var picked: seq<string> := [];
      if li < |content| {
        match content[li] {
          case Text(line) =>
            var words := Words(line);
            var wStart := if li == r.startLine then r.startWord else 0;
            var wEnd := if li == r.endLine then Min(r.endWord, SatSub(|words|, 1)) else SatSub(|words|, 1);
            picked := PickWords(words, wStart, wEnd);
          case Image(_, _) =>
        }
      }
      assert picked == LineSelection(content, r, li);
      selected := selected + picked;
      li := li + 1;
    }
    assert selected == SelectedWords(content, r);
    text := Join(selected);
    SnapshotReadsBack(content, r);
  }

  /** Splitting the snapshot text at whitespace gives back exactly the selected words. */
  lemma SnapshotReadsBack(content: seq<RenderLine>, r: Range)
    ensures Words(Join(SelectedWords(content, r))) == SelectedWords(content, r)
  {
    SelectedAreWords(content, r, r.endLine + 1);
    WordsOfJoin(SelectedWords(content, r));
  }

  /** The inner loop of `get_selected_text`: the words with indices `lo` to `hi` that exist. */
  method PickWords(words: seq<string>, lo: nat, hi: nat) returns (picked: seq<string>)
    ensures picked == Picked(words, lo, hi + 1)
  {
    picked := [];
    if lo <= hi {
      var wi := lo;
      while wi <= hi
        invariant lo <= wi <= hi + 1
        invariant picked == Picked(words, lo, wi)
      {
        if wi < |words| {
          picked := picked + [words[wi]];
        }
        wi := wi + 1;
      }
    }
  }

  /** Every selected entry is a word. */
  lemma {:induction false} SelectedAreWords(content: seq<RenderLine>, r: Range, stop: nat)
    ensures forall k :: 0 <= k < |SelectedUpTo(content, r, stop)| ==> IsWord(SelectedUpTo(content, r, stop)[k])
    decreases stop
  {
    if stop > r.startLine {
      SelectedAreWords(content, r, stop - 1);
      var li := stop - 1;
      if li < |content| && content[li].Text? {
        var ws := Words(content[li].text);
        PickedIsSlice(ws, FirstPick(r, li), LastPick(r, li, |ws|) + 1);
      }
    }
  }

  /**
   * A selection within one text line takes the words from `startWord` to
   * `endWord`, the end cut back to the line's last word; a start past that
   * takes nothing.
   */
  lemma SingleLineSelection(content: seq<RenderLine>, r: Range)
    requires r.startLine == r.endLine < |content| && content[r.startLine].Text?
    ensures var ws := Words(content[r.startLine].text);
            var stop := Min(r.endWord + 1, |ws|);
            SelectedWords(content, r) == if r.startWord < stop then ws[r.startWord..stop] else []
  {
    var ws := Words(content[r.startLine].text);
    assert SelectedUpTo(content, r, r.startLine) == [];
    assert SelectedWords(content, r) == [] + LineSelection(content, r, r.startLine);
    PickedIsSlice(ws, r.startWord, LastPick(r, r.startLine, |ws|) + 1);
    assert Min(LastPick(r, r.startLine, |ws|) + 1, |ws|) == Min(r.endWord + 1, |ws|);
  }

  /** A line strictly inside the range contributes all its words. */
  lemma InnerLineContributesAll(content: seq<RenderLine>, r: Range, li: nat)
    requires r.startLine < li < r.endLine && li < |content| && content[li].Text?
    ensures LineSelection(content, r, li) == Words(content[li].text)
  {
    var ws := Words(content[li].text);
    PickedIsSlice(ws, 0, LastPick(r, li, |ws|) + 1);
    assert ws[0..|ws|] == ws;
  }

  /** The first line of a multi-line range contributes its words from `startWord` on. */
  lemma FirstLineContributesFrom(content: seq<RenderLine>, r: Range)
    requires r.startLine < r.endLine && r.startLine < |content| && content[r.startLine].Text?
    ensures var ws := Words(content[r.startLine].text);
            LineSelection(content, r, r.startLine) == if r.startWord < |ws| then ws[r.startWord..] else []
  {
    var ws := Words(content[r.startLine].text);
    PickedIsSlice(ws, r.startWord, LastPick(r, r.startLine, |ws|) + 1);
    assert Min(LastPick(r, r.startLine, |ws|) + 1, |ws|) == |ws|;
  }

  /** The last line of a multi-line range contributes its words up to `endWord`, cut at the line's end. */
  lemma LastLineContributesUpTo(content: seq<RenderLine>, r: Range)
    requires r.startLine < r.endLine && r.endLine < |content| && content[r.endLine].Text?
    ensures var ws := Words(content[r.endLine].text);
            LineSelection(content, r, r.endLine) == ws[..Min(r.endWord + 1, |ws|)]
  {
    var ws := Words(content[r.endLine].text);
    PickedIsSlice(ws, 0, LastPick(r, r.endLine, |ws|) + 1);
    assert Min(LastPick(r, r.endLine, |ws|) + 1, |ws|) == Min(r.endWord + 1, |ws|);
  }

  /** Image rows and lines past the end of the buffer contribute nothing. */
  lemma {:induction false} NonTextContributesNothing(content: seq<RenderLine>, r: Range, stop: nat)
    requires forall li :: r.startLine <= li < stop && li < |content| ==> content[li].Image?
    ensures SelectedUpTo(content, r, stop) == []
    decreases stop
  {
    if stop > r.startLine {
      NonTextContributesNothing(content, r, stop - 1);
    }
  }
}
