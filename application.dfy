/**
 * The application state (`App`) as far as the reader engine uses it: the
 * current view, the open book, the annotation list, the layout settings, the
 * list selections and the library cover cache, with the operations of
 * `app.rs` and of the key handlers that change them.
 */
module Application {
  import opened Wrappers
  import opened Numeric
  import opened Text
  import opened Layout
  import opened Annotations
  import opened Navigation
  import opened Selection
  import opened Views
  import opened Controls

  /** A cover to load in the background (`CoverRequest`). */
  datatype CoverRequest = CoverRequest(bookId: int, path: string)

  /** What the loader sends back (`CoverResponse`): the decoded cover, or none when the book has none. */
  datatype CoverResponse = CoverResponse(bookId: int, image: Option<Picture>)

  class App {
    var view: AppView
    var previousView: Option<AppView>
    var books: seq<BookRecord>
    var selectedBookIndex: nat
    var currentBook: LoadedBook?
    var searchQuery: string
    var tocItems: seq<string>
    var selectedTocIndex: nat
    var theme: Theme
    var rsvpWpm: nat
    var allAnnotations: seq<AnnotationRecord>
    var currentAnnotations: seq<AnnotationRecord>
    var selectedAnnotationIndex: nat
    var annotationFilter: AnnotationFilter
    var vocabulary: seq<string>
    var selectedVocabIndex: nat
    var explorerResults: seq<string>
    var selectedExplorerIndex: nat
    var margin: U16
    var lineSpacing: U16
    var currentLibraryCover: Option<Picture>
    var coverCache: map<int, Picture>
    var coverMissing: set<int>
    var pendingCoverRequests: set<int>
    var lastLibrarySelection: Option<int>

    /** The open book, as a set so that frames can name it when there is one. */
    function Open(): set<LoadedBook>
      reads this
    {
      if currentBook != null then {currentBook} else {}
    }

    /**
     * The cover bookkeeping is consistent: no book is both cached and known to
     * have no cover, and no book with a known outcome has a request in flight.
     */
    predicate CoverProtocol()
      reads this
    {
      && coverCache.Keys !! coverMissing
      && pendingCoverRequests !! coverCache.Keys
      && pendingCoverRequests !! coverMissing
    }

    /** The state `App::new` starts in, given the books the library holds. */
    constructor (library: seq<BookRecord>)
      ensures books == library && selectedBookIndex == 0 && currentBook == null
      ensures view == Library && previousView == None
      ensures theme == Default && rsvpWpm == InitialWpm && margin == 2 && lineSpacing == 0
      ensures annotationFilter == All && allAnnotations == [] && currentAnnotations == []
      ensures coverCache == map[] && coverMissing == {} && pendingCoverRequests == {}
      ensures lastLibrarySelection == None && currentLibraryCover == None
      ensures searchQuery == "" && tocItems == [] && selectedTocIndex == 0 && selectedAnnotationIndex == 0
      ensures vocabulary == [] && selectedVocabIndex == 0 && explorerResults == [] && selectedExplorerIndex == 0
      ensures CoverProtocol()
    {
      view := Library;
      previousView := None;
      books := library;
      selectedBookIndex := 0;
      currentBook := null;
      searchQuery := "";
      tocItems := [];
      selectedTocIndex := 0;
      theme := Default;
      rsvpWpm := InitialWpm;
      allAnnotations := [];
      currentAnnotations := [];
      selectedAnnotationIndex := 0;
      annotationFilter := All;
      vocabulary := [];
      selectedVocabIndex := 0;
      explorerResults := [];
      selectedExplorerIndex := 0;
      margin := 2;
      lineSpacing := 0;
      currentLibraryCover := None;
      coverCache := map[];
      coverMissing := {};
      pendingCoverRequests := {};
      lastLibrarySelection := None;
    }

    // ---------------------------------------------------------------- visual mode

    /** `enter_visual_mode`: on a text line, anchor the selection at the cursor and show the visual view. */
    method EnterVisualMode()
      modifies this`view, Open()`selectionAnchor
      ensures currentBook == old(currentBook)
      ensures currentBook != null && currentBook.currentLine < |currentBook.chapterContent| &&
              currentBook.chapterContent[currentBook.currentLine].Text? ==>
                currentBook.selectionAnchor == Some((currentBook.currentLine, currentBook.wordIndex)) &&
                view == Visual
      ensures !(currentBook != null && currentBook.currentLine < |currentBook.chapterContent| &&
                currentBook.chapterContent[currentBook.currentLine].Text?) ==>
                view == old(view) && (currentBook != null ==> currentBook.selectionAnchor == old(currentBook.selectionAnchor))
    {
      if currentBook != null && currentBook.currentLine < |currentBook.chapterContent| {
        match currentBook.chapterContent[currentBook.currentLine] {
          case Text(_) =>
            currentBook.selectionAnchor := Some((currentBook.currentLine, currentBook.wordIndex));
            view := Visual;
          case Image(_, _) =>
        }
      }
    }

    /** `exit_visual_mode`: drop the anchor and fall back from the visual to the select view. */
    method ExitVisualMode()
      modifies this`view, Open()`selectionAnchor
      ensures currentBook == old(currentBook)
      ensures currentBook != null ==>
                currentBook.selectionAnchor == None &&
                view == (if old(view) == Visual then Select else old(view))
      ensures currentBook == null ==> view == old(view)
    {
      if currentBook != null {
        currentBook.selectionAnchor := None;
        if view == Visual {
          view := Select;
        }
      }
    }

    /** `get_selection_range` of the open book; none without a book or an anchor. */
    function CurrentSelection(): (r: Option<Range>)
      reads this, Open()
      ensures r.Some? <==> currentBook != null && currentBook.selectionAnchor.Some?
      ensures r.Some? ==> LexLe(r.value.startLine, r.value.startWord, r.value.endLine, r.value.endWord)
      ensures r.Some? ==>
                || ((r.value.startLine, r.value.startWord) == currentBook.selectionAnchor.value &&
                    (r.value.endLine, r.value.endWord) == (currentBook.currentLine, currentBook.wordIndex))
                || ((r.value.startLine, r.value.startWord) == (currentBook.currentLine, currentBook.wordIndex) &&
                    (r.value.endLine, r.value.endWord) == currentBook.selectionAnchor.value)
    {
      if currentBook == null then None
      else SelectionRange(currentBook.selectionAnchor, currentBook.currentLine, currentBook.wordIndex)
    }

    /** `get_selected_text`: the selected words joined by spaces, the empty string without a selection. */
    method GetSelectedText() returns (text: string)
      ensures CurrentSelection().Some? ==>
                text == Join(SelectedWords(currentBook.chapterContent, CurrentSelection().value)) &&
                Words(text) == SelectedWords(currentBook.chapterContent, CurrentSelection().value)
      ensures CurrentSelection().None? ==> text == ""
    {
      var range := CurrentSelection();
      if range.Some? {
        text := SelectedText(currentBook.chapterContent, range.value);
      } else {
        text := "";
      }
    }

    // ----------------------------------------------------------- annotation list

    /** `apply_annotation_filter`: list the stored records the filter admits and select the first. */
    method ApplyAnnotationFilter()
      modifies this`currentAnnotations, this`selectedAnnotationIndex
      ensures currentAnnotations == Filtered(allAnnotations, annotationFilter)
      ensures selectedAnnotationIndex == 0
    {
      currentAnnotations := Filtered(allAnnotations, annotationFilter);
      selectedAnnotationIndex := 0;
    }

    /** `set_annotation_filter`. */
    method SetAnnotationFilter(filter: AnnotationFilter)
      modifies this`annotationFilter, this`currentAnnotations, this`selectedAnnotationIndex
      ensures annotationFilter == filter
      ensures currentAnnotations == Filtered(allAnnotations, filter)
      ensures selectedAnnotationIndex == 0
    {
      annotationFilter := filter;
      ApplyAnnotationFilter();
    }

    /**
     * `load_annotations`, given what reading the records stored for the open
     * book gave (`None` when the read failed): list them under the current
     * filter and show the list; nothing without a book or after a failed read.
     */
    method LoadAnnotations(stored: Option<seq<AnnotationRecord>>)
      modifies this`allAnnotations, this`currentAnnotations, this`selectedAnnotationIndex, this`view
      ensures currentBook != null && stored.Some? ==>
                && allAnnotations == stored.value
                && currentAnnotations == Filtered(stored.value, annotationFilter)
                && selectedAnnotationIndex == 0
                && view == AnnotationList
      ensures currentBook == null || stored.None? ==>
                && allAnnotations == old(allAnnotations)
                && currentAnnotations == old(currentAnnotations)
                && selectedAnnotationIndex == old(selectedAnnotationIndex)
                && view == old(view)
    {
      if currentBook != null && stored.Some? {
        allAnnotations := stored.value;
        ApplyAnnotationFilter();
        view := AnnotationList;
      }
    }

    /**
     * `jump_to_annotation`. Within the open chapter the cursor and the viewport
     * top move to the start of the selected annotation and any selection is
     * dropped. For another chapter the book first switches to it; `reread` is
     * what reading that chapter and the stored annotations gave, `None` when
     * either failed, which leaves the old buffer in place and the view as it
     * was. Whenever the list is non-empty and nothing failed, the reader is shown.
     */
    method JumpToAnnotation(reread: Option<(seq<PageContent>, seq<AnnotationRecord>)>)
      modifies this`view
      modifies Open()`currentChapter, Open()`currentLine, Open()`viewportTop, Open()`wordIndex
      modifies Open()`selectionAnchor, Open()`chapterContent, Open()`imageProtocols
      modifies Open()`chapterAnnotations, Open()`sessionWordsLogged
      ensures currentBook == old(currentBook)
      ensures currentBook != null && selectedAnnotationIndex < |currentAnnotations| ==>
                var a := currentAnnotations[selectedAnnotationIndex];
                && currentBook.currentChapter == a.chapter
                && currentBook.currentLine == a.startLine
                && currentBook.viewportTop == a.startLine
                && currentBook.wordIndex == a.startWord
                && currentBook.selectionAnchor == None
                && (a.chapter == old(currentBook.currentChapter) || reread.None? ==>
                      && currentBook.chapterContent == old(currentBook.chapterContent)
                      && currentBook.imageProtocols == old(currentBook.imageProtocols)
                      && currentBook.chapterAnnotations == old(currentBook.chapterAnnotations))
                && (a.chapter != old(currentBook.currentChapter) && reread.Some? ==>
                      && (currentBook.chapterContent, currentBook.imageProtocols) == Flatten(reread.value.0)
                      && currentBook.chapterAnnotations == ChapterAnnotations(reread.value.1, a.chapter)
                      && currentBook.sessionWordsLogged ==
                           (if old(currentBook.wordsRead) > old(currentBook.sessionWordsLogged)
                            then old(currentBook.wordsRead) else old(currentBook.sessionWordsLogged)))
                && (a.chapter == old(currentBook.currentChapter) || reread.None? ==>
                      currentBook.sessionWordsLogged == old(currentBook.sessionWordsLogged))
                && view == (if a.chapter != old(currentBook.currentChapter) && reread.None?
                            then old(view) else Reader)
      ensures currentBook != null && selectedAnnotationIndex >= |currentAnnotations| ==>
                && currentBook.State() == old(currentBook.State())
                && currentBook.currentChapter == old(currentBook.currentChapter)
                && currentBook.imageProtocols == old(currentBook.imageProtocols)
                && currentBook.chapterAnnotations == old(currentBook.chapterAnnotations)
                && currentBook.sessionWordsLogged == old(currentBook.sessionWordsLogged)
                && view == (if currentAnnotations != [] then Reader else old(view))
      ensures currentBook == null ==> view == old(view)
    {
      var book := currentBook;
      if book != null && selectedAnnotationIndex < |currentAnnotations| {
        var a := currentAnnotations[selectedAnnotationIndex];
        if book.currentChapter != a.chapter {
          book.currentChapter := a.chapter;
          book.currentLine := a.startLine;
          book.viewportTop := a.startLine;
          book.wordIndex := a.startWord;
          book.selectionAnchor := None;
          match reread {
            case None =>
              return;
            case Some((content, stored)) =>
              var lines, protocols := FlattenContent(content);
              book.chapterContent := lines;
              book.imageProtocols := protocols;
              book.chapterAnnotations := ChapterAnnotations(stored, a.chapter);
              // the session bookkeeping of `save_progress`
              if book.wordsRead > book.sessionWordsLogged {
                book.sessionWordsLogged := book.wordsRead;
              }
          }
        } else {
          book.currentLine := a.startLine;
          book.viewportTop := a.startLine;
          book.wordIndex := a.startWord;
          book.selectionAnchor := None;
        }
      }
      if currentBook != null && currentAnnotations != [] {
        view := Reader;
      }
    }

    // ------------------------------------------------------------------- layout

    /** `adjust_margin`: move the margin by `delta` columns within `0..=20`. */
    method AdjustMargin(delta: I16)
      modifies this`margin
      ensures margin == Adjusted(old(margin), delta, MaxMargin)
      ensures margin <= MaxMargin
    {
      margin := Adjusted(margin, delta, MaxMargin);
    }

    /** `adjust_spacing`: move the line spacing by `delta` rows within `0..=5`. */
    method AdjustSpacing(delta: I16)
      modifies this`lineSpacing
      ensures lineSpacing == Adjusted(old(lineSpacing), delta, MaxSpacing)
      ensures lineSpacing <= MaxSpacing
    {
      lineSpacing := Adjusted(lineSpacing, delta, MaxSpacing);
    }

    /** `toggle_theme`. */
    method ToggleTheme()
      modifies this`theme
      ensures theme == NextTheme(old(theme))
    {
      theme := NextTheme(theme);
    }

    // -------------------------------------------------------------- cover cache

    /**
     * What asking for the selected book's cover leaves behind, from the
     * selection and cover shown before: without books no cover and no request;
     * otherwise the selected book is remembered, its cover is shown when it is
     * cached (a newly selected book shows none until then), and a request for
     * it is made exactly when it is neither cached, known to have none, nor
     * already asked for.
     */
    predicate CoverScheduled(request: Option<CoverRequest>, priorSelection: Option<int>, priorCover: Option<Picture>)
      reads this
    {
      if books == [] then
        request == None && currentLibraryCover == None && lastLibrarySelection == priorSelection
      else
        && selectedBookIndex < |books|
        && var b := books[selectedBookIndex];
           && lastLibrarySelection == Some(b.id)
           && (request.Some? <==>
                 b.id !in coverCache && b.id !in coverMissing && b.id !in pendingCoverRequests)
           && (request.Some? ==> request.value == CoverRequest(b.id, b.path))
           && (b.id in coverCache ==> currentLibraryCover == Some(coverCache[b.id]))
           && (b.id !in coverCache ==>
                 currentLibraryCover == (if priorSelection != Some(b.id) then None else priorCover))
    }

    /**
     * `cover_request_for_selected`: remember the selected book, show its cover
     * when it is cached, and ask for it only when it is neither cached, known
     * to have none, nor already asked for.
     */
    method CoverRequestForSelected() returns (request: Option<CoverRequest>)
      requires books != [] ==> selectedBookIndex < |books|
      modifies this`lastLibrarySelection, this`currentLibraryCover
      ensures CoverScheduled(request, old(lastLibrarySelection), old(currentLibraryCover))
    {
      if books == [] {
        currentLibraryCover := None;
        return None;
      }
      var b := books[selectedBookIndex];
      if lastLibrarySelection != Some(b.id) {
        lastLibrarySelection := Some(b.id);
        currentLibraryCover := None;
      }
      if b.id in coverCache {
        currentLibraryCover := Some(coverCache[b.id]);
        return None;
      }
      if b.id in coverMissing {
        return None;
      }
      if b.id in pendingCoverRequests {
        return None;
      }
      return Some(CoverRequest(b.id, b.path));
    }

    /** `mark_cover_request_in_flight`. */
    method MarkCoverRequestInFlight(bookId: int)
      modifies this`pendingCoverRequests
      ensures pendingCoverRequests == old(pendingCoverRequests) + {bookId}
      ensures old(CoverProtocol()) && bookId !in coverCache && bookId !in coverMissing ==> CoverProtocol()
    {
      pendingCoverRequests := pendingCoverRequests + {bookId};
    }

    /**
     * `apply_cover_response`: the book leaves the in-flight set and is recorded
     * as cached (and no longer missing) or as missing; a cover for the book
     * the library has selected is shown at once.
     */
    method ApplyCoverResponse(response: CoverResponse)
      modifies this`pendingCoverRequests, this`coverCache, this`coverMissing, this`currentLibraryCover
      ensures pendingCoverRequests == old(pendingCoverRequests) - {response.bookId}
      ensures response.image.None? ==>
                && coverMissing == old(coverMissing) + {response.bookId}
                && coverCache == old(coverCache)
                && currentLibraryCover == old(currentLibraryCover)
      ensures response.image.Some? ==>
                && coverCache == old(coverCache)[response.bookId := response.image.value]
                && coverMissing == old(coverMissing) - {response.bookId}
                && currentLibraryCover ==
                     (if lastLibrarySelection == Some(response.bookId) then response.image
                      else old(currentLibraryCover))
      ensures old(CoverProtocol()) && response.bookId in old(pendingCoverRequests) ==>
                && CoverProtocol()
                && (response.bookId in coverCache <==> response.image.Some?)
                && (response.bookId in coverMissing <==> response.image.None?)
    {
      pendingCoverRequests := pendingCoverRequests - {response.bookId};
      match response.image {
        case None =>
          coverMissing := coverMissing + {response.bookId};
        case Some(image) =>
          coverCache := coverCache[response.bookId := image];
          coverMissing := coverMissing - {response.bookId};
          if lastLibrarySelection == Some(response.bookId) {
            currentLibraryCover := Some(image);
          }
      }
    }

    // -------------------------------------------------------------- list views

    /** Down in the library: select the next book, wrapping, and schedule its cover. */
    method LibraryDown() returns (request: Option<CoverRequest>)
      requires books != [] ==> selectedBookIndex < |books|
      modifies this`selectedBookIndex, this`lastLibrarySelection, this`currentLibraryCover
      ensures selectedBookIndex == WrapDown(old(selectedBookIndex), |books|)
      ensures books == [] ==> request == None && unchanged(this`lastLibrarySelection, this`currentLibraryCover)
      ensures books != [] ==> CoverScheduled(request, old(lastLibrarySelection), old(currentLibraryCover))
    {
      request := None;
      if books != [] {
        selectedBookIndex := (selectedBookIndex + 1) % |books|;
        request := CoverRequestForSelected();
      }
    }

    /** Up in the library: select the previous book, wrapping, and schedule its cover. */
    method LibraryUp() returns (request: Option<CoverRequest>)
      requires books != [] ==> selectedBookIndex < |books|
      modifies this`selectedBookIndex, this`lastLibrarySelection, this`currentLibraryCover
      ensures selectedBookIndex == WrapUp(old(selectedBookIndex), |books|)
      ensures books == [] ==> request == None && unchanged(this`lastLibrarySelection, this`currentLibraryCover)
      ensures books != [] ==> CoverScheduled(request, old(lastLibrarySelection), old(currentLibraryCover))
    {
      request := None;
      if books != [] {
        if selectedBookIndex > 0 {
          selectedBookIndex := selectedBookIndex - 1;
        } else {
          selectedBookIndex := |books| - 1;
        }
        request := CoverRequestForSelected();
      }
    }

    /** Down in the table of contents. */
    method TocDown()
      modifies this`selectedTocIndex
      ensures selectedTocIndex == WrapDown(old(selectedTocIndex), |tocItems|)
    {
      if tocItems != [] {
        selectedTocIndex := (selectedTocIndex + 1) % |tocItems|;
      }
    }

    /** Up in the table of contents. */
    method TocUp()
      modifies this`selectedTocIndex
      ensures selectedTocIndex == WrapUp(old(selectedTocIndex), |tocItems|)
    {
      if tocItems != [] {
        if selectedTocIndex > 0 {
          selectedTocIndex := selectedTocIndex - 1;
        } else {
          selectedTocIndex := |tocItems| - 1;
        }
      }
    }

    /** Down in the annotation list. */
    method AnnotationListDown()
      modifies this`selectedAnnotationIndex
      ensures selectedAnnotationIndex == WrapDown(old(selectedAnnotationIndex), |currentAnnotations|)
    {
      if currentAnnotations != [] {
        selectedAnnotationIndex := (selectedAnnotationIndex + 1) % |currentAnnotations|;
      }
    }

    /** Up in the annotation list. */
    method AnnotationListUp()
      modifies this`selectedAnnotationIndex
      ensures selectedAnnotationIndex == WrapUp(old(selectedAnnotationIndex), |currentAnnotations|)
    {
      if currentAnnotations != [] {
        if selectedAnnotationIndex > 0 {
          selectedAnnotationIndex := selectedAnnotationIndex - 1;
        } else {
          selectedAnnotationIndex := |currentAnnotations| - 1;
        }
      }
    }

    /** Down in the vocabulary list. */
    method VocabularyDown()
      modifies this`selectedVocabIndex
      ensures selectedVocabIndex == WrapDown(old(selectedVocabIndex), |vocabulary|)
    {
      if vocabulary != [] {
        selectedVocabIndex := (selectedVocabIndex + 1) % |vocabulary|;
      }
    }

    /** Up in the vocabulary list. */
    method VocabularyUp()
      modifies this`selectedVocabIndex
      ensures selectedVocabIndex == WrapUp(old(selectedVocabIndex), |vocabulary|)
    {
      if vocabulary != [] {
        if selectedVocabIndex > 0 {
          selectedVocabIndex := selectedVocabIndex - 1;
        } else {
          selectedVocabIndex := |vocabulary| - 1;
        }
      }
    }

    /** Down in the file explorer. */
    method ExplorerDown()
      modifies this`selectedExplorerIndex
      ensures selectedExplorerIndex == WrapDown(old(selectedExplorerIndex), |explorerResults|)
    {
      if explorerResults != [] {
        selectedExplorerIndex := (selectedExplorerIndex + 1) % |explorerResults|;
      }
    }

    /** Up in the file explorer. */
    method ExplorerUp()
      modifies this`selectedExplorerIndex
      ensures selectedExplorerIndex == WrapUp(old(selectedExplorerIndex), |explorerResults|)
    {
      if explorerResults != [] {
        if selectedExplorerIndex > 0 {
          selectedExplorerIndex := selectedExplorerIndex - 1;
        } else {
          selectedExplorerIndex := |explorerResults| - 1;
        }
      }
    }

    // --------------------------------------------------------- keys of the views

    /**
     * Enter in the search view: move the cursor down line by line onto the
     * first text line below it that contains the query, then show the reader;
     * without a match the cursor stays.
     */
    method SearchEnter(viewportHeight: nat)
      modifies this`view, Open()`currentLine, Open()`viewportTop, Open()`wordIndex
      ensures currentBook == old(currentBook) && view == Reader
      ensures currentBook != null ==>
                match FindMatch(old(currentBook.chapterContent), old(currentBook.currentLine) + 1, searchQuery)
                case None => currentBook.State() == old(currentBook.State())
                case Some(pos) =>
                  && currentBook.State() == MovedDownTimes(old(currentBook.State()), viewportHeight, pos + 1)
                  && currentBook.currentLine == old(currentBook.currentLine) + pos + 1
                  && IsMatch(currentBook.chapterContent[currentBook.currentLine], searchQuery)
    {
      var book := currentBook;
      if book != null {
        var found := FindMatch(book.chapterContent, book.currentLine + 1, searchQuery);
        match found {
          case None =>
          case Some(pos) =>
            ghost var start := book.State();
            MovedDownTimesReaches(start, viewportHeight, pos + 1);
            book.MoveCursorDownTimes(viewportHeight, pos + 1);
            assert book.State() == MovedDownTimes(start, viewportHeight, pos + 1);
            assert book.chapterContent == start.content && book.currentLine == start.line + pos + 1;
        }
      }
      view := Reader;
    }

    /** `+` in the RSVP view. */
    method RsvpFaster()
      modifies this`rsvpWpm
      ensures rsvpWpm == WpmFaster(old(rsvpWpm))
    {
      rsvpWpm := WpmFaster(rsvpWpm);
    }

    /** `-` in the RSVP view. */
    method RsvpSlower()
      modifies this`rsvpWpm
      ensures rsvpWpm == WpmSlower(old(rsvpWpm))
    {
      rsvpWpm := WpmSlower(rsvpWpm);
    }

    /**
     * `?` in any view, and Esc or `q` in the help view; going back to the
     * library asks for the selected book's cover at once.
     */
    method ToggleHelp() returns (request: Option<CoverRequest>)
      requires books != [] ==> selectedBookIndex < |books|
      modifies this`view, this`previousView, this`lastLibrarySelection, this`currentLibraryCover
      ensures (view, previousView) == HelpKey(old(view), old(previousView))
      ensures old(view) == Help && view == Library ==>
                CoverScheduled(request, old(lastLibrarySelection), old(currentLibraryCover))
      ensures !(old(view) == Help && view == Library) ==>
                request == None && unchanged(this`lastLibrarySelection, this`currentLibraryCover)
    {
      request := None;
      var (next, saved) := HelpKey(view, previousView);
      var leaving := view == Help;
      view, previousView := next, saved;
      if leaving && view == Library {
        request := CoverRequestForSelected();
      }
    }
  }
}
