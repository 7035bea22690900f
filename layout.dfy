/**
 * The layout flattener (`App::flatten_content`): the content items of one
 * chapter become a flat, line-addressable render buffer plus a side table of
 * images, one table entry per image and several buffer rows per image.
 */
module Layout {
  import opened Numeric
  import opened Text

  /** A decoded image; only its dimensions matter to the layout, the pixels are opaque. */
  datatype Picture = Picture(width: nat, height: nat, pixels: seq<bv8>)

  /** One item of extracted chapter content (`PageContent`). */
  datatype PageContent = TextContent(text: string) | ImageContent(picture: Picture)

  /** One addressable line of the render buffer (`RenderLine`). */
  datatype RenderLine = Text(text: string) | Image(protocolIdx: nat, rowIdx: nat)

  /** The layout assumes a reader 80 columns wide, with cells twice as tall as wide. */
  const TargetWidthChars: nat := 80
  const MinImageRows: nat := 5
  const MaxImageRows: nat := 30

  /** The single line that stands in for a chapter with nothing to show. */
  const EmptyPlaceholder: string := " [ Empty ] "

  /**
   * Number of buffer rows an image of `width` x `height` pixels occupies:
   * `((80 * h/w) * 0.5) as usize` clamped to 5..30. The float expression is
   * 40*h/w and the cast truncates, which is integer division for w > 0. For
   * w == 0 the float is +inf (h > 0), which the cast saturates to the largest
   * integer, or NaN (h == 0), which the cast turns into 0.
   */
  function ImageRowCount(width: nat, height: nat): (n: nat)
    ensures MinImageRows <= n <= MaxImageRows
  {
    if width == 0 then
      if height == 0 then MinImageRows else MaxImageRows
    else
      // 80 columns times h/w times the 0.5 cell ratio
      Clamp((40 * height) / width, MinImageRows, MaxImageRows)
  }

  /**
   * An image is as many rows tall as 80 columns times its aspect ratio times
   * the 0.5 cell ratio, truncated, whenever that lies within 5..30, and is cut
   * to the nearer bound otherwise; a zero-width image is 30 rows tall, or 5
   * when it also has zero height.
   */
  lemma ImageRowCountFormula(width: nat, height: nat)
    ensures var rows := (40 * height) / (if width == 0 then 1 else width);
            && (width > 0 && MinImageRows <= rows <= MaxImageRows ==> ImageRowCount(width, height) == rows)
            && (width > 0 && rows < MinImageRows ==> ImageRowCount(width, height) == MinImageRows)
            && (width > 0 && rows > MaxImageRows ==> ImageRowCount(width, height) == MaxImageRows)
            && (width == 0 && height > 0 ==> ImageRowCount(width, height) == MaxImageRows)
            && (width == 0 && height == 0 ==> ImageRowCount(width, height) == MinImageRows)
  {
  }

  /** One `Text` row per line of a text block. */
  function TextRows(ls: seq<string>): (rows: seq<RenderLine>)
    ensures |rows| == |ls|
  {
    seq(|ls|, k requires 0 <= k < |ls| => Text(ls[k]))
  }

  /** The rows `0..n` of the image at table index `idx`. */
  function ImageRows(idx: nat, n: nat): (rows: seq<RenderLine>)
    ensures |rows| == n
  {
    seq(n, r requires 0 <= r < n => Image(idx, r))
  }

  /** The rows one content item adds when the image table already holds `idx` entries. */
  function Contribution(item: PageContent, idx: nat): seq<RenderLine> {
    match item
    case TextContent(s) => TextRows(Lines(s))
    case ImageContent(p) => ImageRows(idx, ImageRowCount(p.width, p.height))
  }

  /** The rows of `items` before the empty-chapter placeholder is considered. */
  function RawLines(items: seq<PageContent>): seq<RenderLine>
    decreases |items|
  {
    if items == [] then []
    else
      var init := items[..|items| - 1];
      RawLines(init) + Contribution(items[|items| - 1], |ImageTable(init)|)
  }

  /** The image table: every image of `items`, in order. */
  function ImageTable(items: seq<PageContent>): seq<Picture>
    decreases |items|
  {
    if items == [] then []
    else
      var init := items[..|items| - 1];
      ImageTable(init) + (match items[|items| - 1]
                          case ImageContent(p) => [p]
                          case TextContent(_) => [])
  }

  /** The number of image items in `items`. */
  function ImageCount(items: seq<PageContent>): nat {
    if items == [] then 0
    else (if items[0].ImageContent? then 1 else 0) + ImageCount(items[1..])
  }

  /** The render buffer and image table that `flatten_content` returns. */
  function Flatten(items: seq<PageContent>): (r: (seq<RenderLine>, seq<Picture>)) {
    var raw := RawLines(items);
    (if raw == [] then [Text(EmptyPlaceholder)] else raw, ImageTable(items))
  }

  /**
   * `flatten_content`: walks the items, pushing one `Text` row per line of a
   * text block and, for an image, one table entry and `ImageRowCount` rows
   * tagged with that entry's index; an empty result becomes the placeholder.
   */
  method FlattenContent(content: seq<PageContent>) returns (lines: seq<RenderLine>, protocols: seq<Picture>)
    ensures (lines, protocols) == Flatten(content)
  {
    lines, protocols := [], [];
    for i := 0 to |content|
      invariant lines == RawLines(content[..i])
      invariant protocols == ImageTable(content[..i])
    {
      assert content[..i + 1][..i] == content[..i];
      assert RawLines(content[..i + 1]) == RawLines(content[..i]) + Contribution(content[i], |protocols|);
      match content[i]
      case TextContent(s) =>
        lines := PushTextRows(lines, Lines(s));
      case ImageContent(img) =>
        var height := ImageRowCount(img.width, img.height);
        var protocolIdx := |protocols|;
        protocols := protocols + [img];
        lines := PushImageRows(lines, protocolIdx, height);
    }
    assert content[..|content|] == content;
    if lines == [] {
      lines := [Text(EmptyPlaceholder)];
    }
  }

  /** The inner loop for a text block: one `Text` row per line, pushed in order. */
  method PushTextRows(lines: seq<RenderLine>, ls: seq<string>) returns (out: seq<RenderLine>)
    ensures out == lines + TextRows(ls)
  {
    out := lines;
    for j := 0 to |ls|
      invariant out == lines + TextRows(ls[..j])
    {
      assert TextRows(ls[..j + 1]) == TextRows(ls[..j]) + [Text(ls[j])];
      out := out + [Text(ls[j])];
    }
    assert ls[..|ls|] == ls;
  }

  /** The inner loop for an image: rows `0..n`, each tagged with the image's table index. */
  method PushImageRows(lines: seq<RenderLine>, protocolIdx: nat, n: nat) returns (out: seq<RenderLine>)
    ensures out == lines + ImageRows(protocolIdx, n)
  {
    out := lines;
    for r := 0 to n
      invariant out == lines + ImageRows(protocolIdx, r)
    {
      assert ImageRows(protocolIdx, r + 1) == ImageRows(protocolIdx, r) + [Image(protocolIdx, r)];
      out := out + [Image(protocolIdx, r)];
    }
  }

  /** The buffer is never empty, and it is the placeholder exactly when no item adds a row. */
  lemma FlattenNeverEmpty(items: seq<PageContent>)
    ensures |Flatten(items).0| >= 1
    ensures RawLines(items) == [] ==> Flatten(items).0 == [Text(EmptyPlaceholder)]
    ensures RawLines(items) != [] ==> Flatten(items).0 == RawLines(items)
  {
  }

  /** No item adds a row exactly when every item is an empty text block. */
  lemma {:induction false} RawLinesEmptyIff(items: seq<PageContent>)
    ensures RawLines(items) == [] <==> forall i :: 0 <= i < |items| ==> items[i] == TextContent("")
    decreases |items|
  {
    if items != [] {
      var init := items[..|items| - 1];
      var last := items[|items| - 1];
      RawLinesEmptyIff(init);
      assert forall i :: 0 <= i < |init| ==> init[i] == items[i];
      match last
      case TextContent(s) =>
        if s != [] {
          assert |Lines(s)| >= 1;
        }
      case ImageContent(p) =>
    }
  }

  /** With no items, or only empty text, the buffer is exactly the placeholder and no image is kept. */
  lemma {:induction false} FlattenOnlyEmptyText(items: seq<PageContent>)
    requires forall i :: 0 <= i < |items| ==> items[i] == TextContent("")
    ensures Flatten(items) == ([Text(EmptyPlaceholder)], [])
    decreases |items|
  {
    RawLinesEmptyIff(items);
    if items != [] {
      var init := items[..|items| - 1];
      assert forall i :: 0 <= i < |init| ==> init[i] == items[i];
      FlattenOnlyEmptyText(init);
    }
  }

  /** The image table has exactly one entry per image item. */
  lemma {:induction false} ImageTableCount(items: seq<PageContent>)
    ensures |ImageTable(items)| == ImageCount(items)
    decreases |items|
  {
    if items != [] {
      var init := items[..|items| - 1];
      ImageTableCount(init);
      ImageCountAppend(init, [items[|items| - 1]]);
      assert init + [items[|items| - 1]] == items;
    }
  }

  lemma {:induction false} ImageCountAppend(a: seq<PageContent>, b: seq<PageContent>)
    ensures ImageCount(a + b) == ImageCount(a) + ImageCount(b)
  {
    if a == [] {
      assert a + b == b;
    } else {
      assert (a + b)[0] == a[0];
      assert (a + b)[1..] == a[1..] + b;
      ImageCountAppend(a[1..], b);
    }
  }

  /** The rows and table entries of a prefix of the items are a prefix of those of all items. */
  lemma {:induction false} PrefixLayout(items: seq<PageContent>, j: nat)
    requires j <= |items|
    ensures RawLines(items[..j]) <= RawLines(items)
    ensures ImageTable(items[..j]) <= ImageTable(items)
    decreases |items|
  {
    if j < |items| {
      var init := items[..|items| - 1];
      assert init[..j] == items[..j];
      PrefixLayout(init, j);
    } else {
      assert items[..j] == items;
    }
  }

  /** Index of the first row item `j` contributes. */
  function Offset(items: seq<PageContent>, j: nat): nat
    requires j <= |items|
  {
    |RawLines(items[..j])|
  }

  /** Number of table entries made before item `j`, which is the index item `j`'s image gets. */
  function ImagesBefore(items: seq<PageContent>, j: nat): nat
    requires j <= |items|
  {
    |ImageTable(items[..j])|
  }

  /** Item `j` occupies the rows from `Offset(items, j)` up to `Offset(items, j + 1)`, right after item `j - 1`. */
  lemma ItemSegment(items: seq<PageContent>, j: nat)
    requires j < |items|
    ensures Offset(items, j + 1) == Offset(items, j) + |Contribution(items[j], ImagesBefore(items, j))|
    ensures Offset(items, j + 1) <= |RawLines(items)|
    ensures RawLines(items)[Offset(items, j)..Offset(items, j + 1)]
         == Contribution(items[j], ImagesBefore(items, j))
    ensures items[j].ImageContent? ==>
              ImagesBefore(items, j) < |ImageTable(items)| &&
              ImageTable(items)[ImagesBefore(items, j)] == items[j].picture
  {
    var pre := items[..j + 1];
    assert pre[..j] == items[..j];
    var c := Contribution(items[j], ImagesBefore(items, j));
    assert RawLines(pre) == RawLines(items[..j]) + c;
    PrefixLayout(items, j + 1);
    var o := Offset(items, j);
    assert RawLines(items)[..o + |c|] == RawLines(pre);
    if items[j].ImageContent? {
      assert ImageTable(pre) == ImageTable(items[..j]) + [items[j].picture];
      assert ImageTable(items)[..|ImageTable(pre)|] == ImageTable(pre);
    }
  }

  /** A text block occupies one `Text` row per line, in order. */
  lemma TextItemRows(items: seq<PageContent>, j: nat)
    requires j < |items| && items[j].TextContent?
    ensures Offset(items, j + 1) == Offset(items, j) + |Lines(items[j].text)|
    ensures Offset(items, j + 1) <= |RawLines(items)|
    ensures forall k :: 0 <= k < |Lines(items[j].text)| ==>
              RawLines(items)[Offset(items, j) + k] == Text(Lines(items[j].text)[k])
  {
    ItemSegment(items, j);
    var all := RawLines(items);
    var o := Offset(items, j);
    var ls := Lines(items[j].text);
    var c := Contribution(items[j], ImagesBefore(items, j));
    assert c == TextRows(ls);
    SliceIndex(all, o, c);
  }

  lemma SliceIndex<T>(a: seq<T>, o: nat, c: seq<T>)
    requires o + |c| <= |a| && a[o..o + |c|] == c
    ensures forall k :: 0 <= k < |c| ==> a[o + k] == c[k]
  {
    forall k | 0 <= k < |c| ensures a[o + k] == c[k] {
      assert a[o..o + |c|][k] == c[k];
    }
  }

  /**
   * An image occupies between 5 and 30 rows, all tagged with its own table
   * index and numbered from 0, and its table entry is the image itself.
   */
  lemma ImageItemRows(items: seq<PageContent>, j: nat)
    requires j < |items| && items[j].ImageContent?
    ensures var p := items[j].picture;
            Offset(items, j + 1) == Offset(items, j) + ImageRowCount(p.width, p.height)
    ensures MinImageRows <= Offset(items, j + 1) - Offset(items, j) <= MaxImageRows
    ensures Offset(items, j + 1) <= |RawLines(items)|
    ensures forall r :: 0 <= r < Offset(items, j + 1) - Offset(items, j) ==>
              RawLines(items)[Offset(items, j) + r] == Image(ImagesBefore(items, j), r)
    ensures ImagesBefore(items, j) < |ImageTable(items)|
    ensures ImageTable(items)[ImagesBefore(items, j)] == items[j].picture
  {
    ItemSegment(items, j);
    var all := RawLines(items);
    var o := Offset(items, j);
    var p := items[j].picture;
    var n := ImageRowCount(p.width, p.height);
    var idx := ImagesBefore(items, j);
    var c := Contribution(items[j], idx);
    assert c == ImageRows(idx, n);
    SliceIndex(all, o, c);
    assert Offset(items, j + 1) - o == n;
    forall r | 0 <= r < n ensures all[o + r] == Image(idx, r) {
      assert c[r] == Image(idx, r);
    }
  }

  /** A 200 x 100 image is given 80 * 0.5 * 0.5 = 20 rows. */
  lemma ImageRowCountExample()
    ensures ImageRowCount(200, 100) == 20
  {
    assert (40 * 100) / 200 == 20;
  }
}
