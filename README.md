# tbook reader engine in Dafny

This project models the engine of **tbook**, a terminal e-book reader. The
engine turns a chapter into a line-addressable render buffer and moves a
word cursor and a viewport over that buffer. It also holds:

- the visual-mode word selection;
- the annotation list with its kind filter;
- the library cover cache;
- the small integer rules of the key handlers.

The model states what these operations compute and proves properties about them.

Modules, in dependency order:

- `Wrappers`: `Option`.
- `Numeric`: the `u16`/`i16` widths; saturating subtraction and multiplication; `clamp`; the `u16 as i16` cast; wrapping `i16` addition.
- `Text`: Rust's string conventions the engine relies on.
  - `Words` is `split_whitespace` over the Unicode White_Space set.
  - `Lines` is `str::lines`.
  - `Join` is `join(" ")`.
  - `Contains` is `str::contains`.
- `Layout`: `flatten_content`. Content items become `RenderLine`s plus an image table.
  - `Flatten` is the specification function.
  - `FlattenContent` is the nested loop that computes it.
- `Annotations`: `AnnotationKind`, `AnnotationFilter`, the stored annotation record, the kind filter and the per-chapter selection.
- `Navigation`: the cursor and viewport engine.
  - `NavState` is the state value (buffer, cursor line and word, viewport top, anchor, words read). Each operation is a function on it.
  - `class LoadedBook` holds the same state in fields. Its methods update the fields in place and are proved to compute the functions.
- `Selection`: `get_selection_range` and `get_selected_text`.
- `Views`: `AppView`, `Theme`, the theme cycle and the `?` help toggle.
- `Controls`: the integer logic of `main.rs`. This is the reader height, the wrap-around list index, the search target, the RSVP speed step and the margin/spacing clamps.
- `Application`: `class App`. It holds the view, the open book, the annotation list, the layout settings, the list selections and the cover cache.

Inputs the engine reads from the outside are parameters of the model:

- the content the parser extracts for a chapter;
- the annotation records the database returns;
- the decoded cover of a book;
- the terminal height.

Behaviour of the code a reader may not expect:

- An image's row count is *truncated* from `80 * (h / w) * 0.5`, not rounded.
- Stepping left from word 0 of a line lands on word **0** of the previous line, not on its last word. `sync_word_index` only ever lowers the index (`Navigation.LeftFromLineStartLandsOnWordZero`).
- Scrolling the viewport may pull the cursor down onto a new line without re-clamping the word index (`Navigation.ScrollDownLeavesWordIndexUnclamped`).
- The annotation records carry a stored `kind` string, because `app.rs` reads and writes one.
- The parser returns the content items `Text | Image`, as `app.rs` uses them.

## Model

| member | source | states |
|---|---|---|
| Numeric.Clamp | src/app.rs:523 | the result lies in `lo..=hi`; it is `x` inside the range and the nearer bound outside it |
| Numeric.SatMulU16 | src/main.rs:121 | the product, or `u16::MAX` when the product does not fit |
| Numeric.AsI16 | src/app.rs:1168 | a `u16` below `0x8000` keeps its value; a larger one reads as the negative two's-complement value `value - 0x10000` |
| Numeric.AddI16 | src/app.rs:1168 | the sum whenever it fits in `i16`; otherwise the `i16` value equal to the sum modulo `0x10000` |
| Text.Words | src/app.rs:817 | every token is non-empty and has no whitespace |
| Text.WordsOfJoin | src/app.rs:832 | splitting the single-space join of words gives those words back |
| Text.WordsSkipSpace | src/app.rs:817 | any leading White_Space character, not only `' '`, is skipped by `split_whitespace` |
| Text.WordsOfWordThen | src/app.rs:817 | a word followed by whitespace or the end is the first token, and the rest is split the same way |
| Text.LinesHaveNoNewline | src/app.rs:504 | no line produced by `lines()` contains `'\n'` |
| Text.LinesCount | src/app.rs:504 | there is one line per `'\n'`, plus one for a non-empty unterminated tail; an empty text has no lines |
| Text.LinesTrailingNewline | src/app.rs:504 | a terminating newline adds no line |
| Text.LinesCons | src/app.rs:504 | the first line is the text before the first `'\n'`, less one trailing `'\r'`, and the remaining lines are the lines of what follows |
| Text.LinesOfLine | src/app.rs:504 | a non-empty text without `'\n'` is one line, unchanged |
| Text.LinesRejoin | src/app.rs:504 | for a text without `'\r'` or a terminating newline, joining its lines with `'\n'` gives the text back |
| Layout.ImageRowCount | src/app.rs:509-523 | an image takes between 5 and 30 rows |
| Layout.ImageRowCountFormula | src/app.rs:515-523 | the row count is `40*h/w` truncated and clamped to 5..30; the zero-width float cases saturate to 30, or to 5 for a 0x0 image |
| Layout.ImageRowCountExample | src/app.rs:515-523 | a 200x100 image takes 20 rows |
| Layout.FlattenContent | src/app.rs:495-542 | the nested loop returns exactly `Flatten(content)`, buffer and image table |
| Layout.PushTextRows | src/app.rs:504-506 | the text loop appends one `Text` row per line, in order |
| Layout.PushImageRows | src/app.rs:529-534 | the image loop appends rows `0..n`, each tagged with the image's table index |
| Layout.FlattenNeverEmpty | src/app.rs:538-541 | the buffer has at least one line; it is the placeholder exactly when no item adds a row |
| Layout.RawLinesEmptyIff | src/app.rs:501-540 | no item adds a row if and only if every item is an empty text block |
| Layout.FlattenOnlyEmptyText | src/app.rs:538-541 | with no items or only empty text, the result is exactly `([Text(" [ Empty ] ")], [])` |
| Layout.ImageTableCount | src/app.rs:527-528 | the image table has exactly one entry per image item |
| Layout.PrefixLayout | src/app.rs:501-537 | the rows and table entries of a prefix of the items are a prefix of the full result |
| Layout.ItemSegment | src/app.rs:501-537 | item `j` occupies a contiguous segment right after item `j-1`; an image's table entry sits at the count of earlier images |
| Layout.TextItemRows | src/app.rs:503-507 | a text item contributes one `Text` row per `lines()` segment, in order |
| Layout.ImageItemRows | src/app.rs:508-535 | an image contributes 5..30 consecutive rows tagged with its own table index, with `row_idx` running from 0; its table entry is the image |
| Annotations.AsStr | src/app.rs:66-72 | `FromStr` reads the stored name back as the same kind |
| Annotations.Label | src/app.rs:74-80 | the label is one character |
| Annotations.FromStr | src/app.rs:82-88 | `"question"` and `"summary"` are read as those kinds, each in both directions |
| Annotations.KindNamesDistinct | src/app.rs:65-80 | two kinds have the same name, or the same label, only if they are the same kind |
| Annotations.UnknownIsHighlight | src/app.rs:82-88 | a string is read as a highlight exactly when it is not the name of another kind |
| Annotations.Filtered | src/app.rs:1040-1059 | the result is no longer than the input, and the filter admits every record in it |
| Annotations.FilteredAll | src/app.rs:1041 | the `All` filter keeps every record, in order |
| Annotations.FilteredMembership | src/app.rs:1042-1059 | a record is listed if and only if it is stored and its parsed kind matches the filter |
| Annotations.FilteredAppend | src/app.rs:1042-1059 | filtering keeps the stored order: filtering a concatenation filters each part |
| Annotations.FilteredIdempotent | src/app.rs:1039-1064 | re-filtering the list changes nothing |
| Annotations.ChapterAnnotations | src/app.rs:461-466 | it keeps exactly the stored records of the chapter |
| Annotations.ChapterAnnotationsAppend | src/app.rs:461-466 | the selection keeps the stored order and repeated records: selecting from a concatenation selects from each part |
| Annotations.FilterLabelsDistinct | src/app.rs:99-107 | two filters have the same title only if they are the same filter |
| Navigation.Synced | src/app.rs:703-718 | the word index is never raised; afterwards it names a word of the line, or is 0 on a line without words or an image row; an index that was already valid stays; nothing else changes |
| Navigation.ScrolledDown | src/app.rs:655-669 | while a line remains below the top, the top advances by one, the left line's words are added to `words_read` and the cursor is raised to the top; otherwise nothing changes; cursor validity is preserved |
| Navigation.ScrolledUp | src/app.rs:671-677 | the top decreases by one, saturating at 0; only the top changes; validity is preserved |
| Navigation.MovedDown | src/app.rs:679-689 | the line grows by exactly one, or not at all on the last line; it stays in the buffer; `top <= line` and the bottom scroll margin are kept; the word index is re-clamped |
| Navigation.MovedUp | src/app.rs:691-701 | the line drops by exactly one, or not at all at line 0; `top <= line` and the scroll margin are kept; the word index is re-clamped |
| Navigation.SteppedRight | src/app.rs:720-748 | the next word within a text line; past the last word or from an image row, word 0 of the next line; a no-op at the end; the cursor never moves backwards; validity is kept |
| Navigation.SteppedLeft | src/app.rs:750-776 | the previous word when the index is positive; from word 0 or an image row, the previous line with the index re-clamped; a no-op at the start; the cursor never moves forwards |
| Navigation.MovedDownTimesReaches | src/main.rs:758-760 | `n` moves down from a line at least `n` lines above the end land exactly `n` lines lower |
| Navigation.DownThenUpReturns | src/app.rs:679-701 | away from the last line, down then up returns to the same line |
| Navigation.RightThenLeftWithinLine | src/app.rs:720-776 | within a text line, a step right and a step left cancel out |
| Navigation.LeftFromLineStartLandsOnWordZero | src/app.rs:753-760 | left from word 0 of a text line lands on word 0 of the previous line |
| Navigation.RightThenLeftAcrossLines | src/app.rs:720-776 | across a line break, right then left lands on word 0 of a multi-word line, not on the word it left |
| Navigation.ScrollDownKeepsCursorVisible | src/app.rs:655-669 | after scrolling, the cursor is not above the top and has not moved up |
| Navigation.WordCountOfJoin | src/app.rs:817 | a single-space join of `n` words has `n` words |
| Navigation.EmptyLineIsAddressable | src/app.rs:720-741 | in `["a b c", "", "d"]`, right from the last word of line 0 lands on the empty line 1 |
| Navigation.ScrollDownLeavesWordIndexUnclamped | src/app.rs:655-669 | a concrete buffer where scrolling leaves the word index past the end of its new line |
| Navigation.LoadedBook.Load | src/app.rs:449-493 | the buffer and image table are the flattened content; cursor and top are the stored line; word 0, no anchor, 0 words read; only the chapter's annotations are kept |
| Navigation.LoadedBook.ScrollViewportDown | src/app.rs:655-669 | updates the fields to `ScrolledDown` of the old state |
| Navigation.LoadedBook.ScrollViewportUp | src/app.rs:671-677 | updates the fields to `ScrolledUp` of the old state |
| Navigation.LoadedBook.SyncWordIndex | src/app.rs:703-718 | updates the word index to `Synced` of the old state |
| Navigation.LoadedBook.MoveCursorDown | src/app.rs:679-689 | updates the fields to `MovedDown` of the old state |
| Navigation.LoadedBook.MoveCursorDownTimes | src/main.rs:758-760 | `n` calls of `MoveCursorDown` give `n` applications of `MovedDown` |
| Navigation.LoadedBook.MoveCursorUp | src/app.rs:691-701 | updates the fields to `MovedUp` of the old state |
| Navigation.LoadedBook.CursorRight | src/app.rs:720-748 | updates the fields to `SteppedRight` of the old state |
| Navigation.LoadedBook.CursorLeft | src/app.rs:750-776 | updates the fields to `SteppedLeft` of the old state |
| Selection.SelectionRange | src/app.rs:796-809 | `None` if and only if there is no anchor; the start is at or before the end in reading order; the endpoints are the anchor and the cursor |
| Selection.SelectionRangeSymmetric | src/app.rs:796-809 | exchanging the anchor and the cursor gives the same range |
| Selection.PickedIsSlice | src/app.rs:825-829 | the inner loop picks a contiguous slice of the line's words, cut at the line's end |
| Selection.SelectedText | src/app.rs:811-836 | the text is the selected words joined by single spaces, and splitting it gives back exactly those words |
| Selection.SnapshotReadsBack | src/app.rs:832 | splitting the snapshot text of any range gives back exactly the selected words |
| Selection.PickWords | src/app.rs:825-829 | the inner loop takes the words `lo..=hi` that exist |
| Selection.SelectedAreWords | src/app.rs:815-831 | every picked entry is a whitespace-free word |
| Selection.SingleLineSelection | src/app.rs:818-829 | a one-line range on a text line takes words `sw..=min(ew, count-1)`, or nothing when `sw` is past that |
| Selection.InnerLineContributesAll | src/app.rs:818-823 | a line strictly inside the range contributes all its words |
| Selection.FirstLineContributesFrom | src/app.rs:818-829 | the first line of a multi-line range contributes its words from `startWord` to its end |
| Selection.LastLineContributesUpTo | src/app.rs:818-829 | the last line of a multi-line range contributes its words from the first up to `endWord`, cut at the line's end |
| Selection.NonTextContributesNothing | src/app.rs:816 | image rows and lines past the buffer contribute nothing |
| Views.LowerChar | src/app.rs:49 | ASCII capitals map to their lower-case letter; other characters are kept |
| Views.Lower | src/app.rs:49 | the lower-cased string has the same length and maps character by character |
| Views.ThemeFromStr | src/app.rs:48-56 | Gruvbox, Nord and Sepia are chosen exactly for their lower-cased names; anything else gives Default |
| Views.ThemeFromStrIgnoresCase | src/app.rs:48-56 | a name and its lower-cased form pick the same theme |
| Views.NextTheme | src/app.rs:890-897 | a toggle always changes the theme |
| Views.ThemeCycle | src/app.rs:890-897 | four toggles return to the start, and two or three never do |
| Views.HelpKey | src/main.rs:282-298 | from any other view, Help opens and the view is saved; in Help, the saved view (Library by default) returns and is forgotten |
| Views.HelpRoundTrip | src/main.rs:282-315 | opening Help and leaving it again returns to the view it was opened from, with nothing saved |
| Views.LeavingHelpLeavesIt | src/main.rs:282-315 | leaving Help never lands in Help when no saved view is Help |
| Controls.ReaderContentHeight | src/main.rs:110-123 | the height is the terminal height less the bars and twice the margin, or 0 when those do not fit; the saturating multiplication does not change it |
| Controls.BarRowsCases | src/main.rs:117-119 | the top bar takes 0 rows only in focus mode, the status bar 1 row only when shown, the search bar 3 rows only in the Search view |
| Controls.ReaderHeight | src/main.rs:197-204 | at least 1; the content height when that is positive |
| Controls.ViewportHeight | src/main.rs:195 | the terminal height less one row, saturating |
| Controls.WrapDown | src/main.rs:345-357 | an empty list leaves the index alone; otherwise the index stays below the length, moves to `i+1` and wraps from the last entry to 0 |
| Controls.WrapUp | src/main.rs:359-371 | an empty list leaves the index alone; otherwise `i-1`, wrapping from 0 to the last entry, and stays below the length |
| Controls.WrapInverse | src/main.rs:345-371 | on a valid index Up undoes Down and Down undoes Up |
| Controls.WrapDownTimesRound | src/main.rs:345-357 | `n <= len` presses of Down move `n` entries on, going round at most once; `len` presses return to the start |
| Controls.WrapDownTimesShift | src/main.rs:345-357 | presses that stay below the end each add one |
| Controls.WrapDownRemainder | src/main.rs:656-662 | an index past the end, as the table of contents can start with, moves as its remainder does |
| Controls.FindMatch | src/main.rs:745-757 | an offset is found if and only if a later text line contains the query; it points at the first such line |
| Controls.WpmFaster | src/main.rs:780 | the speed increases |
| Controls.WpmSlower | src/main.rs:781-785 | the speed drops by 50 only when it is above 50, and stays positive |
| Controls.WpmInverse | src/main.rs:780-785 | slowing down undoes speeding up from a positive speed, and the converse holds above 50 |
| Controls.WpmStaysOnGrid | src/main.rs:780-785 | both keys keep the speed a positive multiple of 50 |
| Controls.Adjusted | src/app.rs:1167-1175 | the result is within `0..=hi`; for a value that fits in `i16` it is the clamped sum |
| Controls.MarginStepsInverse | src/app.rs:1167-1170 | one step wider and one step narrower restore a margin with room to move, in either order |
| Controls.LargeValueClampsToZero | src/app.rs:1167-1175 | a value with the `i16` sign bit set, moved by a small step, clamps to 0 |
| Application.App.constructor | src/app.rs:194-247 | the initial state: Library view, no book, Default theme, 300 wpm, margin 2, spacing 0, empty caches, an empty search query, empty table of contents, vocabulary and explorer lists, and every list selection at 0; the cover protocol holds |
| Application.App.EnterVisualMode | src/app.rs:778-785 | on a text line, the anchor is the cursor and the view is Visual; otherwise nothing changes |
| Application.App.ExitVisualMode | src/app.rs:787-794 | with a book, the anchor is dropped and Visual falls back to Select |
| Application.App.CurrentSelection | src/app.rs:796-809 | a range exists if and only if a book is open with an anchor; its endpoints are the anchor and the cursor, the earlier in reading order first |
| Application.App.GetSelectedText | src/app.rs:811-836 | the joined selected words when there is a selection, which split back into those words; otherwise the empty string |
| Application.App.ApplyAnnotationFilter | src/app.rs:1039-1064 | the list is the filtered records and the selection is reset to 0 |
| Application.App.SetAnnotationFilter | src/app.rs:1034-1037 | stores the filter and applies it |
| Application.App.LoadAnnotations | src/app.rs:1025-1032 | with a book and a successful read, stores the records, applies the filter and shows the list; without a book or after a failed read nothing changes |
| Application.App.JumpToAnnotation | src/app.rs:1066-1122 | the cursor and the top move to the annotation's start, with no anchor; a chapter switch reloads the buffer and the chapter annotations; a failed read leaves the old buffer and the view; after a successful switch the logged session words catch up with `words_read`, as `save_progress` records them; otherwise the reader is shown; with no annotation at the selected index the book, its image table and its chapter annotations are unchanged and the reader is shown only for a non-empty list |
| Application.App.AdjustMargin | src/app.rs:1167-1170 | the margin becomes `Adjusted(margin, delta, 20)` |
| Application.App.AdjustSpacing | src/app.rs:1172-1175 | the spacing becomes `Adjusted(spacing, delta, 5)` |
| Application.App.ToggleTheme | src/app.rs:890-897 | the theme becomes the next in the cycle |
| Application.App.CoverRequestForSelected | src/app.rs:354-386 | `CoverScheduled`: remembers the selected book; shows its cached cover, or none for a newly selected uncached book; the request is `CoverRequest(id, path)` of that book and exists exactly when it is neither cached, known missing, nor in flight; without books, no cover and no request |
| Application.App.MarkCoverRequestInFlight | src/app.rs:388-390 | adds the book to the in-flight set; the cover protocol is kept for a book with no known outcome |
| Application.App.ApplyCoverResponse | src/app.rs:392-408 | the book leaves the in-flight set and lands in exactly one of cache or missing; the cover protocol is kept; a cover for the selected book is shown |
| Application.App.LibraryDown | src/main.rs:345-357 | the index wraps down, and the selection, the shown cover and the returned request are as `CoverRequestForSelected` leaves them for the new book; an empty library changes nothing |
| Application.App.LibraryUp | src/main.rs:359-371 | the index wraps up, and the selection, the shown cover and the returned request are as `CoverRequestForSelected` leaves them for the new book; an empty library changes nothing |
| Application.App.TocDown | src/main.rs:656-662 | `WrapDown` on the table of contents |
| Application.App.TocUp | src/main.rs:663-670 | `WrapUp` on the table of contents |
| Application.App.AnnotationListDown | src/main.rs:699-704 | `WrapDown` on the annotation list |
| Application.App.AnnotationListUp | src/main.rs:705-714 | `WrapUp` on the annotation list |
| Application.App.VocabularyDown | src/main.rs:726-731 | `WrapDown` on the vocabulary list |
| Application.App.VocabularyUp | src/main.rs:732-740 | `WrapUp` on the vocabulary list |
| Application.App.ExplorerDown | src/main.rs:457-461 | `WrapDown` on the explorer results |
| Application.App.ExplorerUp | src/main.rs:463-471 | `WrapUp` on the explorer results |
| Application.App.SearchEnter | src/main.rs:744-764 | with a match, the cursor lands on the first later text line containing the query after `pos+1` moves down; without one the cursor stays; the reader is shown |
| Application.App.RsvpFaster | src/main.rs:780 | the speed becomes `WpmFaster` of the old speed |
| Application.App.RsvpSlower | src/main.rs:781-785 | the speed becomes `WpmSlower` of the old speed |
| Application.App.ToggleHelp | src/main.rs:282-315 | view and saved view become `HelpKey` of the old ones; leaving Help for the library asks for the selected book's cover as `CoverRequestForSelected` does, and no other key touches the cover state |

## Left out

- Database, parser, network and file system. `Db`, the EPUB/PDF parsers, `perform_lookup`, `scan_for_books_sync`, `export_annotations`, `refresh_library`, `import_paths`, `global_search` and `save_progress` are I/O. Their results enter the model as parameters (content items, annotation records, covers) or not at all.
- Chapter switches. `next_chapter`, `prev_chapter`, `open_toc` and `jump_to_toc` read a chapter through the parser; they are not modelled. `JumpToAnnotation` models the chapter read with the parameter `reread`.
- `JumpToAnnotation`: does not model a failure of `save_progress` after a successful chapter switch. In that case the source returns before it shows the reader. The database writes of `save_progress` are not modelled; its `session_words_logged` update is.
- Creating annotations. `add_annotation_with_note` and `add_quick_highlight_kind` write to the database and re-read from it. The text they store is `get_selected_text`, which is modelled by `GetSelectedText`; they are not.
- The `App`-level scroll and cursor methods only unwrap `current_book`. Their behaviour is modelled on `LoadedBook`, whose methods hold the cursor arithmetic. A missing book makes each of them a no-op.
- `ImageRowCount`: does not model the `f32` rounding of `80 * (h / w) * 0.5` for large or non-terminating ratios. The model uses the exact `(40 * h) / w`, with the zero-width cases written out.
- Integer widths of `usize` and `u64`. Line indices, word counts, `words_read` and the RSVP speed are unbounded. `u16` and `i16` are modelled where the source narrows to them: `reader_content_height`, `adjust_margin` and `adjust_spacing`.
- `Adjusted`: `i16` overflow is modelled as wrap-around, as in an optimised build. A debug build would panic instead.
- `LowerChar`, `Lower`, `ThemeFromStr`: only ASCII letters are lower-cased. `to_lowercase` on other characters is not modelled.
- Cover timing and concurrency. The cover debounce, the worker task and the channels are time and concurrency. `schedule_cover_request` is modelled only as the `CoverRequestForSelected` call that it makes and whose result it keeps. `LibraryDown`, `LibraryUp` and `ToggleHelp` return that result.
- Terminal rendering. Image protocols (`StatefulProtocol`) are modelled as the decoded picture, and pixels are opaque.
- Reading statistics, the pomodoro timer, auto-scroll timing, focus mode and the dictionary view. These are clock, `f64` or network work.
- `load_book` and `jump_to_annotation` take the cursor line from stored values without clamping it. `LoadedBook.Load` therefore makes no claim that the cursor is inside the buffer. The navigation proofs assume the `Valid` predicate wherever they need it.
