/**
 * The cursor and viewport engine of an open chapter (`LoadedBook` and the
 * scroll / cursor methods of `App`). The state is a value, `NavState`, and each
 * operation is a function on it; `LoadedBook` holds the same state in fields
 * and its methods update them in place, each proved to compute its function.
 */
module Navigation {
  import opened Wrappers
  import opened Numeric
  import opened Text
  import opened Layout
  import opened Annotations

  /** Words on a buffer line: those of a text line, none on an image row. */
  function LineWordCount(l: RenderLine): nat {
    match l
    case Text(t) => WordCount(t)
    case Image(_, _) => 0
  }

  /** `(l1, w1)` comes before or is `(l2, w2)` in reading order. */
  predicate LexLe(l1: nat, w1: nat, l2: nat, w2: nat) {
    l1 < l2 || (l1 == l2 && w1 <= w2)
  }

  /**
   * The navigation state of an open chapter: its render buffer, the cursor
   * (line and word), the first visible line, the visual-mode anchor and the
   * number of words scrolled past.
   */
  datatype NavState = NavState(
    content: seq<RenderLine>,
    line: nat,
    word: nat,
    top: nat,
    anchor: Option<(nat, nat)>,
    wordsRead: nat)

  /** The cursor is on a line of the buffer and not above the viewport. */
  predicate Valid(s: NavState) {
    s.line < |s.content| && s.top <= s.line
  }

  /** The cursor's word index names a word of its line, or is 0 when the line has none. */
  predicate WordIndexOk(s: NavState) {
    s.line < |s.content| &&
    var n := LineWordCount(s.content[s.line]);
    if n > 0 then s.word < n else s.word == 0
  }

  /** The cursor stands above the 2-line scroll margin at the bottom of a `height`-line viewport. */
  predicate InView(s: NavState, height: nat) {
    s.line < s.top + SatSub(height, 2)
  }

  /** The new viewport top after the cursor moved down to `line`. */
  function FollowDown(line: nat, top: nat, height: nat): nat {
    if line >= top + SatSub(height, 2) then top + 1 else top
  }

  /** The new viewport top after the cursor moved up to `line`. */
  function FollowUp(line: nat, top: nat): nat {
    if line < top then line else top
  }

  /**
   * `sync_word_index`: after a vertical move the word index is lowered to the
   * last word of the new line when it is past it, and is 0 on a line without
   * words or an image row; it is never raised.
   */
  function Synced(s: NavState): (r: NavState)
    ensures r == s.(word := r.word)
    ensures r.word <= s.word
    ensures s.line < |s.content| ==> WordIndexOk(r)
    ensures WordIndexOk(s) ==> r == s
    ensures s.line < |s.content| && LineWordCount(s.content[s.line]) > 0 ==>
              r.word == (if s.word < LineWordCount(s.content[s.line]) then s.word
                         else LineWordCount(s.content[s.line]) - 1)
  {
    if s.line < |s.content| then
      match s.content[s.line]
      case Text(t) =>
        var words := WordCount(t);
        if s.word >= words && words > 0 then s.(word := words - 1)
        else if words == 0 then s.(word := 0)
        else s
      case Image(_, _) => s.(word := 0)
    else s
  }

  /**
   * `scroll_viewport_down`: while a line remains below the top, the top moves
   * down one line, the words of the line that left the top are counted as
   * read, and a cursor left above the new top is pulled down to it.
   */
  function ScrolledDown(s: NavState): (r: NavState)
    ensures r.content == s.content && r.word == s.word && r.anchor == s.anchor
    ensures s.top + 1 < |s.content| ==>
              && r.top == s.top + 1
              && r.wordsRead == s.wordsRead + LineWordCount(s.content[s.top])
              && r.line == (if s.line < r.top then r.top else s.line)
    ensures s.top + 1 >= |s.content| ==> r == s
    ensures r.top <= r.line || r.line == s.line
    ensures Valid(s) ==> Valid(r)
  {
    if s.top + 1 < |s.content| then
      var top := s.top + 1;
      s.(top := top,
         wordsRead := s.wordsRead + LineWordCount(s.content[top - 1]),
         line := if s.line < top then top else s.line)
    else s
  }

  /** `scroll_viewport_up`: the top moves up one line, stopping at the first. */
  function ScrolledUp(s: NavState): (r: NavState)
    ensures r == s.(top := r.top)
    ensures r.top == SatSub(s.top, 1)
    ensures Valid(s) ==> Valid(r)
  {
    if s.top > 0 then s.(top := s.top - 1) else s
  }

  /**
   * `move_cursor_down`: the cursor goes to the next line when there is one,
   * the viewport follows once the cursor reaches its 2-line bottom margin, and
   * the word index is re-clamped to the new line.
   */
  function MovedDown(s: NavState, height: nat): (r: NavState)
    ensures r.content == s.content && r.anchor == s.anchor && r.wordsRead == s.wordsRead
    ensures r.line == (if s.line + 1 < |s.content| then s.line + 1 else s.line)
    ensures s.line + 1 >= |s.content| ==> r == s
    ensures s.line + 1 < |s.content| ==>
              WordIndexOk(r) && r.word <= s.word && (r.top == s.top || r.top == s.top + 1)
    ensures Valid(s) ==> Valid(r)
    ensures Valid(s) && InView(s, height) ==> InView(r, height)
  {
    if s.line + 1 < |s.content| then
      var line := s.line + 1;
      Synced(s.(line := line, top := FollowDown(line, s.top, height)))
    else s
  }

  /** The cursor goes up one line, the viewport follows it, and the word index is re-clamped. */
  function StepUp(s: NavState): (r: NavState)
    requires s.line > 0
  {
    var line := s.line - 1;
    Synced(s.(line := line, top := FollowUp(line, s.top)))
  }

  /**
   * `move_cursor_up`: the cursor goes to the previous line when there is one,
   * the viewport top follows it up if it left the viewport, and the word index
   * is re-clamped to the new line.
   */
  function MovedUp(s: NavState): (r: NavState)
    ensures r.content == s.content && r.anchor == s.anchor && r.wordsRead == s.wordsRead
    ensures r.line == SatSub(s.line, 1)
    ensures s.line == 0 ==> r == s
    ensures 0 < s.line <= |s.content| ==> WordIndexOk(r) && r.word <= s.word
    ensures Valid(s) ==> Valid(r)
    ensures forall height: nat :: Valid(s) && height > 2 && InView(s, height) ==> InView(r, height)
  {
    if s.line > 0 then StepUp(s) else s
  }

  /** The cursor goes down one line to its first word, and the viewport follows it. */
  function StepDownToLineStart(s: NavState, height: nat): NavState {
    var line := s.line + 1;
    s.(line := line, top := FollowDown(line, s.top, height), word := 0)
  }

  /**
   * `cursor_right`: the next word of a text line; past its last word, or from
   * an image row, the first word of the next line; nothing at the end of the
   * buffer. The cursor never moves backwards in reading order.
   */
  function SteppedRight(s: NavState, height: nat): (r: NavState)
    ensures r.content == s.content && r.anchor == s.anchor && r.wordsRead == s.wordsRead
    ensures (s.line < |s.content| && s.content[s.line].Text? &&
             s.word + 1 < LineWordCount(s.content[s.line])) ==> r == s.(word := s.word + 1)
    ensures (s.line + 1 < |s.content| &&
             s.word + 1 >= LineWordCount(s.content[s.line])) ==> r.line == s.line + 1 && r.word == 0
    ensures (s.line + 1 == |s.content| &&
             s.word + 1 >= LineWordCount(s.content[s.line])) ==> r == s
    ensures LexLe(s.line, s.word, r.line, r.word)
    ensures Valid(s) ==> Valid(r)
    ensures WordIndexOk(s) ==> WordIndexOk(r)
    ensures Valid(s) && InView(s, height) ==> InView(r, height)
  {
    if s.line < |s.content| then
      match s.content[s.line]
      case Text(t) =>
        if s.word + 1 < WordCount(t) then s.(word := s.word + 1)
        else if s.line + 1 < |s.content| then StepDownToLineStart(s, height)
        else s
      case Image(_, _) =>
        if s.line + 1 < |s.content| then StepDownToLineStart(s, height) else s
    else s
  }

  /**
   * `cursor_left`: the previous word of a text line; from its first word, or
   * from an image row, the previous line with the word index re-clamped;
   * nothing at the start of the buffer. The cursor never moves forwards.
   */
  function SteppedLeft(s: NavState): (r: NavState)
    ensures r.content == s.content && r.anchor == s.anchor && r.wordsRead == s.wordsRead
    ensures s.line < |s.content| && s.content[s.line].Text? && s.word > 0 ==> r == s.(word := s.word - 1)
    ensures 0 < s.line < |s.content| && (s.content[s.line].Image? || s.word == 0) ==>
              r.line == s.line - 1 && WordIndexOk(r) && r.word <= s.word
    ensures s.line == 0 && |s.content| > 0 && (s.content[0].Image? || s.word == 0) ==> r == s
    ensures LexLe(r.line, r.word, s.line, s.word)
    ensures Valid(s) ==> Valid(r)
    ensures WordIndexOk(s) ==> WordIndexOk(r)
  {
    if s.line < |s.content| then
      match s.content[s.line]
      case Text(_) =>
        if s.word > 0 then s.(word := s.word - 1)
        else if s.line > 0 then StepUp(s)
        else s
      case Image(_, _) =>
        if s.line > 0 then StepUp(s) else s
    else s
  }

  /** `move_cursor_down` applied `n` times. */
  function MovedDownTimes(s: NavState, height: nat, n: nat): NavState
    decreases n
  {
    if n == 0 then s else MovedDown(MovedDownTimes(s, height, n - 1), height)
  }

  /** `n` moves down from a line at least `n` lines above the end land exactly `n` lines lower. */
  lemma {:induction false} MovedDownTimesReaches(s: NavState, height: nat, n: nat)
    requires s.line + n < |s.content|
    ensures MovedDownTimes(s, height, n).line == s.line + n
    ensures MovedDownTimes(s, height, n).content == s.content
    ensures Valid(s) ==> Valid(MovedDownTimes(s, height, n))
    decreases n
  {
    if n > 0 {
      MovedDownTimesReaches(s, height, n - 1);
    }
  }

  /** Away from the last line, moving down and then up brings the cursor back to its line. */
  lemma DownThenUpReturns(s: NavState, height: nat)
    requires s.line + 1 < |s.content|
    ensures MovedUp(MovedDown(s, height)).line == s.line
  {
  }

  /** Within a text line, a step right and a step left cancel out. */
  lemma RightThenLeftWithinLine(s: NavState, height: nat)
    requires s.line < |s.content| && s.content[s.line].Text?
    requires s.word + 1 < LineWordCount(s.content[s.line])
    ensures SteppedLeft(SteppedRight(s, height)) == s
  {
  }

  /**
   * Stepping left from the first word of a text line lands on the first word
   * of the previous line, not its last: the re-clamping only lowers the index.
   */
  lemma LeftFromLineStartLandsOnWordZero(s: NavState)
    requires 0 < s.line < |s.content| && s.content[s.line].Text? && s.word == 0
    ensures SteppedLeft(s).line == s.line - 1 && SteppedLeft(s).word == 0
  {
  }

  /**
   * So a step right past the last word of a line and a step left do not undo
   * each other when the line has more than one word: the cursor comes back to
   * word 0 of the line it left.
   */
  lemma RightThenLeftAcrossLines(s: NavState, height: nat)
    requires s.line + 1 < |s.content| && s.content[s.line].Text? && s.content[s.line + 1].Text?
    requires LineWordCount(s.content[s.line]) >= 2 && s.word + 1 == LineWordCount(s.content[s.line])
    ensures SteppedLeft(SteppedRight(s, height)).line == s.line
    ensures SteppedLeft(SteppedRight(s, height)).word == 0 != s.word
  {
    var r := SteppedRight(s, height);
    assert r.line == s.line + 1 && r.word == 0;
    LeftFromLineStartLandsOnWordZero(r);
  }

  /** Scrolling never moves the cursor back, and a top pulled below the cursor drags it along. */
  lemma ScrollDownKeepsCursorVisible(s: NavState)
    requires Valid(s)
    ensures ScrolledDown(s).top <= ScrolledDown(s).line
    ensures ScrolledDown(s).line >= s.line
  {
  }

  /** A text of single-space separated words has as many words as were joined. */
  lemma WordCountOfJoin(ws: seq<string>)
    requires forall k :: 0 <= k < |ws| ==> IsWord(ws[k])
    ensures WordCount(Join(ws)) == |ws|
  {
    WordsOfJoin(ws);
  }

  /**
   * In the buffer `["a b c", "", "d"]` a step right from the last word of the
   * first line lands on the empty second line, which is not skipped.
   */
  lemma EmptyLineIsAddressable(height: nat)
    ensures var s := NavState([Text("a b c"), Text(""), Text("d")], 0, 2, 0, None, 0);
            var r := SteppedRight(s, height);
            r.line == 1 && r.word == 0
  {
    assert IsWord("a") && IsWord("b") && IsWord("c");
    assert Join(["a", "b", "c"]) == "a b c";
    WordCountOfJoin(["a", "b", "c"]);
  }

  /**
   * Scrolling down does not re-clamp the word index: a cursor on the last of
   * four words, pulled down onto a one-word line, keeps index 3.
   */
  lemma ScrollDownLeavesWordIndexUnclamped()
    ensures var s := NavState([Text("a b c d"), Text("x"), Text("y")], 0, 3, 0, None, 0);
            WordIndexOk(s) && !WordIndexOk(ScrolledDown(s))
  {
    assert IsWord("a") && IsWord("b") && IsWord("c") && IsWord("d") && IsWord("x");
    assert Join(["a", "b", "c", "d"]) == "a b c d";
    WordCountOfJoin(["a", "b", "c", "d"]);
    assert Join(["x"]) == "x";
    WordCountOfJoin(["x"]);
  }

  /** The library entry of a book (`BookRecord`): where reading stopped, among others. */
  datatype BookRecord = BookRecord(
    id: int,
    title: string,
    author: string,
    path: string,
    currentChapter: nat,
    currentLine: nat)

  /** An open book (`LoadedBook`): the render buffer of its current chapter and the cursor over it. */
  class LoadedBook {
    var id: int
    var path: string
    var currentChapter: nat
    var currentLine: nat
    var viewportTop: nat
    var chapterContent: seq<RenderLine>
    var imageProtocols: seq<Picture>
    var wordIndex: nat
    var selectionAnchor: Option<(nat, nat)>
    var chapterAnnotations: seq<AnnotationRecord>
    var wordsRead: nat
    var sessionWordsLogged: nat

    /** The navigation state these fields hold. */
    function State(): NavState
      reads this
    {
      NavState(chapterContent, currentLine, wordIndex, viewportTop, selectionAnchor, wordsRead)
    }

    /**
     * The book `load_book` opens, given the content the parser extracted for
     * the stored chapter and the stored annotations: the buffer is that
     * content flattened, cursor and viewport top are the stored line (not
     * clamped to the buffer), and only the chapter's annotations are kept.
     */
    constructor Load(record: BookRecord, content: seq<PageContent>, stored: seq<AnnotationRecord>)
      ensures (chapterContent, imageProtocols) == Flatten(content)
      ensures id == record.id && path == record.path && currentChapter == record.currentChapter
      ensures currentLine == record.currentLine && viewportTop == record.currentLine
      ensures wordIndex == 0 && selectionAnchor == None
      ensures chapterAnnotations == ChapterAnnotations(stored, record.currentChapter)
      ensures wordsRead == 0 && sessionWordsLogged == 0
    {
      var lines, protocols := FlattenContent(content);
      id := record.id;
      path := record.path;
      currentChapter := record.currentChapter;
      currentLine := record.currentLine;
      viewportTop := record.currentLine;
      chapterContent := lines;
      imageProtocols := protocols;
      wordIndex := 0;
      selectionAnchor := None;
      chapterAnnotations := ChapterAnnotations(stored, record.currentChapter);
      wordsRead := 0;
      sessionWordsLogged := 0;
    }

    method ScrollViewportDown()
      modifies this`viewportTop, this`wordsRead, this`currentLine
      ensures State() == ScrolledDown(old(State()))
    {
      if viewportTop + 1 < |chapterContent| {
        viewportTop := viewportTop + 1;
        match chapterContent[viewportTop - 1] {
          case Text(line) => wordsRead := wordsRead + WordCount(line);
          case Image(_, _) =>
        }
        if currentLine < viewportTop {
          currentLine := viewportTop;
        }
      }
    }

    method ScrollViewportUp()
      modifies this`viewportTop
      ensures State() == ScrolledUp(old(State()))
    {
      if viewportTop > 0 {
        viewportTop := viewportTop - 1;
      }
    }

    method SyncWordIndex()
      modifies this`wordIndex
      ensures State() == Synced(old(State()))
    {
      if currentLine < |chapterContent| {
        match chapterContent[currentLine] {
          case Text(line) =>
            var words := WordCount(line);
            if wordIndex >= words && words > 0 {
              wordIndex := SatSub(words, 1);
            } else if words == 0 {
              wordIndex := 0;
            }
          case Image(_, _) =>
            wordIndex := 0;
        }
      }
    }

    method MoveCursorDown(height: nat)
      modifies this`currentLine, this`viewportTop, this`wordIndex
      ensures State() == MovedDown(old(State()), height)
    {
      if currentLine + 1 < |chapterContent| {
        currentLine := currentLine + 1;
        if currentLine >= viewportTop + SatSub(height, 2) {
          viewportTop := viewportTop + 1;
        }
        SyncWordIndex();
      }
    }

    /** `move_cursor_down` called `n` times in a row, as the search jump does. */
    method MoveCursorDownTimes(height: nat, n: nat)
      modifies this`currentLine, this`viewportTop, this`wordIndex
      ensures State() == MovedDownTimes(old(State()), height, n)
    {
      var i := 0;
      while i < n
        invariant 0 <= i <= n
        invariant State() == MovedDownTimes(old(State()), height, i)
      {
        MoveCursorDown(height);
        i := i + 1;
      }
    }

    method MoveCursorUp()
      modifies this`currentLine, this`viewportTop, this`wordIndex
      ensures State() == MovedUp(old(State()))
    {
      if currentLine > 0 {
        currentLine := currentLine - 1;
        if currentLine < viewportTop {
          viewportTop := currentLine;
        }
        SyncWordIndex();
      }
    }

    method CursorRight(height: nat)
      modifies this`currentLine, this`viewportTop, this`wordIndex
      ensures State() == SteppedRight(old(State()), height)
    {
      if currentLine < |chapterContent| {
        match chapterContent[currentLine] {
          case Text(line) =>
            var words := Words(line);
            if wordIndex + 1 < |words| {
              wordIndex := wordIndex + 1;
            } else if currentLine + 1 < |chapterContent| {
              currentLine := currentLine + 1;
              if currentLine >= viewportTop + SatSub(height, 2) {
                viewportTop := viewportTop + 1;
              }
              wordIndex := 0;
            }
          case Image(_, _) =>
            if currentLine + 1 < |chapterContent| {
              currentLine := currentLine + 1;
              if currentLine >= viewportTop + SatSub(height, 2) {
                viewportTop := viewportTop + 1;
              }
              wordIndex := 0;
            }
        }
      }
    }

    method CursorLeft()
      modifies this`currentLine, this`viewportTop, this`wordIndex
      ensures State() == SteppedLeft(old(State()))
    {
      if currentLine < |chapterContent| {
        match chapterContent[currentLine] {
          case Text(_) =>
            if wordIndex > 0 {
              wordIndex := wordIndex - 1;
            } else if currentLine > 0 {
              currentLine := currentLine - 1;
              if currentLine < viewportTop {
                viewportTop := currentLine;
              }
              SyncWordIndex();
            }
          case Image(_, _) =>
            if currentLine > 0 {
              currentLine := currentLine - 1;
              if currentLine < viewportTop {
                viewportTop := currentLine;
              }
              SyncWordIndex();
            }
        }
      }
    }
  }
}
