/**
 * Annotation kinds, the kind filter of the annotation list, and the records
 * the reader keeps for a chapter (`AnnotationKind`, `AnnotationFilter`,
 * `apply_annotation_filter`, and the per-chapter selection done on load).
 */
module Annotations {
  import opened Wrappers

  datatype AnnotationKind = Highlight | Question | Summary

  /** The name a kind is stored under (`AnnotationKind::as_str`); `FromStr` reads it back. */
  function AsStr(k: AnnotationKind): (s: string)
    ensures FromStr(s) == k
  {
    match k
    case Highlight => "highlight"
    case Question => "question"
    case Summary => "summary"
  }

  /** The one-letter tag shown beside an annotation (`AnnotationKind::label`). */
  function Label(k: AnnotationKind): (s: string)
    ensures |s| == 1
  {
    match k
    case Highlight => "H"
    case Question => "Q"
    case Summary => "S"
  }

  /**
   * `AnnotationKind::from_str`: a stored name is read back as its kind; any
   * other string, including the empty one, is read as a highlight.
   */
  function FromStr(value: string): (k: AnnotationKind)
    ensures value == "question" <==> k == Question
    ensures value == "summary" <==> k == Summary
  {
    if value == "question" then Question
    else if value == "summary" then Summary
    else Highlight
  }

  /** Distinct kinds have distinct names and distinct labels. */
  lemma KindNamesDistinct(a: AnnotationKind, b: AnnotationKind)
    ensures AsStr(a) == AsStr(b) <==> a == b
    ensures Label(a) == Label(b) <==> a == b
  {
    if AsStr(a) == AsStr(b) {
      assert FromStr(AsStr(a)) == FromStr(AsStr(b));
    }
  }

  /** A string is read as a highlight exactly when it is not the name of another kind. */
  lemma UnknownIsHighlight(value: string)
    ensures FromStr(value) == Highlight <==> value != AsStr(Question) && value != AsStr(Summary)
  {
  }

  /** The selector of the annotation list (`AnnotationFilter`). */
  datatype AnnotationFilter = All | Highlights | Questions | Summaries

  /** The title shown for a filter (`AnnotationFilter::label`). */
  function FilterLabel(f: AnnotationFilter): string {
    match f
    case All => "All"
    case Highlights => "Highlights"
    case Questions => "Questions"
    case Summaries => "Summaries"
  }

  /** Each filter has its own title. */
  lemma FilterLabelsDistinct(f: AnnotationFilter, g: AnnotationFilter)
    ensures FilterLabel(f) == FilterLabel(g) <==> f == g
  {
  }

  /** The kind a filter selects; `All` selects every kind. */
  function FilterKind(f: AnnotationFilter): Option<AnnotationKind> {
    match f
    case All => None
    case Highlights => Some(Highlight)
    case Questions => Some(Question)
    case Summaries => Some(Summary)
  }

  /**
   * A stored annotation: the chapter it belongs to, the word range it covers,
   * the text of that range, an optional note and the stored kind name.
   */
  datatype AnnotationRecord = AnnotationRecord(
    id: int,
    chapter: nat,
    startLine: nat,
    startWord: nat,
    endLine: nat,
    endWord: nat,
    content: string,
    note: Option<string>,
    kind: string)

  /** Whether the list shows `a` under filter `f`. */
  predicate Admits(f: AnnotationFilter, a: AnnotationRecord) {
    match FilterKind(f)
    case None => true
    case Some(k) => FromStr(a.kind) == k
  }

  /** The records of `all` that `f` admits, in their stored order. */
  function Filtered(all: seq<AnnotationRecord>, f: AnnotationFilter): (r: seq<AnnotationRecord>)
    ensures |r| <= |all|
    ensures forall k :: 0 <= k < |r| ==> Admits(f, r[k])
  {
    if all == [] then []
    else (if Admits(f, all[0]) then [all[0]] else []) + Filtered(all[1..], f)
  }

  /** `All` keeps every record, in order. */
  lemma {:induction false} FilteredAll(all: seq<AnnotationRecord>)
    ensures Filtered(all, All) == all
  {
    if all != [] {
      FilteredAll(all[1..]);
    }
  }

  /** A record is listed exactly when it is stored and the filter admits it. */
  lemma {:induction false} FilteredMembership(all: seq<AnnotationRecord>, f: AnnotationFilter, x: AnnotationRecord)
    ensures x in Filtered(all, f) <==> x in all && Admits(f, x)
  {
    if all != [] {
      FilteredMembership(all[1..], f, x);
      assert x in all <==> x == all[0] || x in all[1..];
    }
  }

  /**
   * Filtering a concatenation filters each part; with the singleton case this
   * says that the list is the admitted records in their stored order.
   */
  lemma {:induction false} FilteredAppend(a: seq<AnnotationRecord>, b: seq<AnnotationRecord>, f: AnnotationFilter)
    ensures Filtered(a + b, f) == Filtered(a, f) + Filtered(b, f)
  {
    if a == [] {
      assert a + b == b;
    } else {
      assert (a + b)[0] == a[0];
      assert (a + b)[1..] == a[1..] + b;
      FilteredAppend(a[1..], b, f);
    }
  }

  /** Filtering what is already filtered changes nothing. */
  lemma {:induction false} FilteredIdempotent(all: seq<AnnotationRecord>, f: AnnotationFilter)
    ensures Filtered(Filtered(all, f), f) == Filtered(all, f)
  {
    if all != [] {
      FilteredIdempotent(all[1..], f);
      var head := if Admits(f, all[0]) then [all[0]] else [];
      FilteredAppend(head, Filtered(all[1..], f), f);
      if Admits(f, all[0]) {
        assert Filtered(head, f) == [all[0]] + Filtered([], f);
      }
    }
  }

  /** The records of one chapter, in stored order (the selection made whenever a chapter is entered). */
  function ChapterAnnotations(all: seq<AnnotationRecord>, chapter: nat): (r: seq<AnnotationRecord>)
    ensures |r| <= |all|
    ensures forall k :: 0 <= k < |r| ==> r[k].chapter == chapter && r[k] in all
    ensures forall k :: 0 <= k < |all| && all[k].chapter == chapter ==> all[k] in r
  {
    if all == [] then []
    else (if all[0].chapter == chapter then [all[0]] else []) + ChapterAnnotations(all[1..], chapter)
  }

  /**
   * Selecting a chapter's records from a concatenation selects from each part;
   * with the singleton case this says the stored order and any repeated
   * records are kept.
   */
  lemma {:induction false} ChapterAnnotationsAppend(a: seq<AnnotationRecord>, b: seq<AnnotationRecord>, chapter: nat)
    ensures ChapterAnnotations(a + b, chapter) == ChapterAnnotations(a, chapter) + ChapterAnnotations(b, chapter)
  {
    if a == [] {
      assert a + b == b;
    } else {
      assert (a + b)[0] == a[0];
      assert (a + b)[1..] == a[1..] + b;
      ChapterAnnotationsAppend(a[1..], b, chapter);
    }
  }
}
