/** Page layout and pagination: the 3 x 3 grid of card slots on an A4 page,
    the split of an image list into pages of nine, and the drawing loops of
    draw_page and draw_duplex_pages. Lengths are whole millimetres (reportlab
    points are millimetres times a constant factor) with the origin at the
    bottom-left corner of the page, as in reportlab. The canvas is modelled by
    what is drawn on it: the finished pages and the marks on the current one. */
module Layout {
  import opened Raster
  import opened Colour
  import opened Bleed

  /** A4, in millimetres. */
  const PageWidth: int := 210
  const PageHeight: int := 297
  /** page_margin. */
  const PageMargin: int := 5
  /** total_card_width_mm and total_card_height_mm: a card with its bleed. */
  const TotalCardWidth: int := CardWidthMm + 2 * BleedMm
  const TotalCardHeight: int := CardHeightMm + 2 * BleedMm
  /** cards_per_page. */
  const CardsPerPage: nat := 9

  /** What a page shows. DrawImage is drawInlineImage; CutGuide stands for
      setStrokeColor(colour), setLineWidth(0.5), setDash(2, 2), the stroked
      rectangle, and setDash(). */
  datatype Mark =
    | DrawImage(x: int, y: int, width: int, height: int, image: Image)
    | CutGuide(x: int, y: int, width: int, height: int, colour: Colour)

  // ---------------------------------------------------------------------
  // The slot grid

  /** Slot i of positions: column i % 3 and row i / 3, left to right and top
      to bottom; (x, y) is the bottom-left corner of the card's footprint. */
  function SlotPosition(i: nat): (int, int)
    requires i < CardsPerPage
  {
    var col, row := i % 3, i / 3;
    (PageMargin + col * TotalCardWidth, PageHeight - PageMargin - row * TotalCardHeight - TotalCardHeight)
  }

  /** Lines 151-159: the nine slot positions, row by row. */
  method BuildPositions() returns (positions: seq<(int, int)>)
    ensures |positions| == CardsPerPage
    ensures forall row, col :: 0 <= row < 3 && 0 <= col < 3 ==>
      positions[3 * row + col] ==
        (PageMargin + col * TotalCardWidth, PageHeight - PageMargin - row * TotalCardHeight - TotalCardHeight)
  {
    positions := [];
    var startX, startY := PageMargin, PageHeight - PageMargin;
    for row := 0 to 3
      invariant |positions| == 3 * row
      invariant forall r, c :: 0 <= r < row && 0 <= c < 3 ==>
        positions[3 * r + c] == (startX + c * TotalCardWidth, startY - r * TotalCardHeight - TotalCardHeight)
    {
      for col := 0 to 3
        invariant |positions| == 3 * row + col
        invariant forall r, c :: 0 <= r < row && 0 <= c < 3 ==>
          positions[3 * r + c] == (startX + c * TotalCardWidth, startY - r * TotalCardHeight - TotalCardHeight)
        invariant forall c :: 0 <= c < col ==>
          positions[3 * row + c] == (startX + c * TotalCardWidth, startY - row * TotalCardHeight - TotalCardHeight)
      {
        var x := startX + col * TotalCardWidth;
        var y := startY - row * TotalCardHeight - TotalCardHeight;
        positions := positions + [(x, y)];
      }
    }
  }

  /** The built list is the grid: entry i sits in column i % 3 of row i / 3. */
  lemma PositionsAreSlots(positions: seq<(int, int)>)
    requires |positions| == CardsPerPage
    requires forall row, col :: 0 <= row < 3 && 0 <= col < 3 ==>
      positions[3 * row + col] ==
        (PageMargin + col * TotalCardWidth, PageHeight - PageMargin - row * TotalCardHeight - TotalCardHeight)
    ensures forall i :: 0 <= i < CardsPerPage ==> positions[i] == SlotPosition(i)
  {
    forall i | 0 <= i < CardsPerPage
      ensures positions[i] == SlotPosition(i)
    {
      assert i == 3 * (i / 3) + i % 3;
    }
  }

  /** The footprints of two different slots do not overlap, every cut guide
      (the footprint inset by the bleed) lies on the page, and every footprint
      lies within the page's height; only the right-hand column's bleed runs
      past the page's right edge, by 2 mm. */
  lemma SlotGeometry()
    ensures forall i, j :: 0 <= i < j < CardsPerPage ==>
      SlotPosition(i).0 + TotalCardWidth <= SlotPosition(j).0 ||
      SlotPosition(j).0 + TotalCardWidth <= SlotPosition(i).0 ||
      SlotPosition(i).1 + TotalCardHeight <= SlotPosition(j).1 ||
      SlotPosition(j).1 + TotalCardHeight <= SlotPosition(i).1
    ensures forall i :: 0 <= i < CardsPerPage ==>
      0 <= SlotPosition(i).0 + BleedMm && SlotPosition(i).0 + BleedMm + CardWidthMm <= PageWidth &&
      0 <= SlotPosition(i).1 + BleedMm && SlotPosition(i).1 + BleedMm + CardHeightMm <= PageHeight
    ensures forall i :: 0 <= i < CardsPerPage ==>
      0 <= SlotPosition(i).1 && SlotPosition(i).1 + TotalCardHeight <= PageHeight && 0 <= SlotPosition(i).0
    ensures forall i :: 0 <= i < CardsPerPage ==>
      (SlotPosition(i).0 + TotalCardWidth <= PageWidth <==> i % 3 != 2)
    ensures SlotPosition(2).0 + TotalCardWidth == PageWidth + 2
  {
    assert SlotPosition(0) == (5, 198) && SlotPosition(1) == (74, 198) && SlotPosition(2) == (143, 198);
    assert SlotPosition(3) == (5, 104) && SlotPosition(4) == (74, 104) && SlotPosition(5) == (143, 104);
    assert SlotPosition(6) == (5, 10) && SlotPosition(7) == (74, 10) && SlotPosition(8) == (143, 10);
  }

  // ---------------------------------------------------------------------
  // Pagination

  /** (n + cards_per_page - 1) // cards_per_page. */
  function PageCount(n: nat): nat {
    (n + CardsPerPage - 1) / CardsPerPage
  }

  /** The page count is n / 9 rounded up. */
  lemma PageCountIsCeiling(n: nat)
    ensures n <= CardsPerPage * PageCount(n)
    ensures n > 0 ==> CardsPerPage * (PageCount(n) - 1) < n
    ensures n == 0 <==> PageCount(n) == 0
  {
  }

  /** images[start:end] with start = 9 * page: Python clamps both ends to the list. */
  function PageSlice<T>(s: seq<T>, page: nat): (r: seq<T>)
    ensures |r| <= CardsPerPage
  {
    var start := page * CardsPerPage;
    var end := start + CardsPerPage;
    s[(if start <= |s| then start else |s|)..(if end <= |s| then end else |s|)]
  }

  /** The pages an image list is split into. */
  function Pages<T>(s: seq<T>): seq<seq<T>> {
    seq(PageCount(|s|), (k: int) requires 0 <= k => PageSlice(s, k))
  }

  /** The pages laid end to end. */
  function Concat<T>(pages: seq<seq<T>>): seq<T>
    decreases |pages|
  {
    if pages == [] then [] else Concat(pages[..|pages| - 1]) + pages[|pages| - 1]
  }

  lemma {:induction false} ConcatPrefix<T>(s: seq<T>, m: nat)
    requires m <= PageCount(|s|)
    ensures Concat(Pages(s)[..m]) == s[..if CardsPerPage * m <= |s| then CardsPerPage * m else |s|]
    decreases m
  {
    if m > 0 {
      ConcatPrefix(s, m - 1);
      assert Pages(s)[..m][..m - 1] == Pages(s)[..m - 1];
      PageCountIsCeiling(|s|);
    }
  }

  /** Pagination loses, repeats and reorders nothing: the pages laid end to
      end are the input. */
  lemma PagesPartition<T>(s: seq<T>)
    ensures Concat(Pages(s)) == s
  {
    PageCountIsCeiling(|s|);
    ConcatPrefix(s, PageCount(|s|));
    assert Pages(s)[..PageCount(|s|)] == Pages(s);
  }

  /** Page k holds images[9k : min(9k + 9, n)]; every page but the last is
      full, and the last holds n mod 9 images, or 9 when 9 divides n. */
  lemma PageSizes<T>(s: seq<T>)
    ensures forall k :: 0 <= k < PageCount(|s|) ==>
      var end := if CardsPerPage * k + CardsPerPage <= |s| then CardsPerPage * k + CardsPerPage else |s|;
      CardsPerPage * k < end && Pages(s)[k] == s[CardsPerPage * k..end]
    ensures forall k :: 0 <= k < PageCount(|s|) - 1 ==> |Pages(s)[k]| == CardsPerPage
    ensures |s| > 0 ==>
      |Pages(s)[PageCount(|s|) - 1]| == if |s| % CardsPerPage == 0 then CardsPerPage else |s| % CardsPerPage
  {
    forall k | 0 <= k < PageCount(|s|)
      ensures var end := if CardsPerPage * k + CardsPerPage <= |s| then CardsPerPage * k + CardsPerPage else |s|;
        CardsPerPage * k < end && Pages(s)[k] == s[CardsPerPage * k..end]
      ensures k < PageCount(|s|) - 1 ==> |Pages(s)[k]| == CardsPerPage
    {
      PageBounds(|s|, k);
    }
    if |s| > 0 {
      LastPageSize(|s|);
    }
  }

  /** Page k of n images starts inside the list; every page before the last
      ends inside it too. */
  lemma PageBounds(n: nat, k: nat)
    requires k < PageCount(n)
    ensures CardsPerPage * k < n
    ensures k < PageCount(n) - 1 ==> CardsPerPage * k + CardsPerPage <= n
  {
    PageCountIsCeiling(n);
  }

  /** The last of the pages of n > 0 images holds n - 9(P - 1) of them, which
      is n mod 9, or 9 when 9 divides n. */
  lemma LastPageSize(n: nat)
    requires n > 0
    ensures n - CardsPerPage * (PageCount(n) - 1) == if n % CardsPerPage == 0 then CardsPerPage else n % CardsPerPage
  {
    PageCountIsCeiling(n);
  }

  // ---------------------------------------------------------------------
  // What a page shows

  /** The two marks of the card in slot i: the bled card over its footprint,
      then its cut guide, inset by the bleed. */
  function SlotMarks(i: nat, card: Image, colour: Colour): seq<Mark>
    requires i < CardsPerPage
  {
    var (x, y) := SlotPosition(i);
    [DrawImage(x, y, TotalCardWidth, TotalCardHeight, card),
     CutGuide(x + BleedMm, y + BleedMm, CardWidthMm, CardHeightMm, colour)]
  }

  /** The marks of one page of images, slot by slot. */
  function PageMarks(page: seq<Image>, bleed: Image -> Image, colour: Colour): seq<Mark>
    requires |page| <= CardsPerPage
    decreases |page|
  {
    if page == [] then []
    else PageMarks(page[..|page| - 1], bleed, colour) + SlotMarks(|page| - 1, bleed(page[|page| - 1]), colour)
  }

  /** Image i of a page goes to slot i: marks 2i and 2i + 1 draw the bled
      image over the slot's footprint and trace the trim line the bleed width
      inside it. */
  lemma {:induction false} PageMarksAt(page: seq<Image>, bleed: Image -> Image, colour: Colour)
    requires |page| <= CardsPerPage
    ensures |PageMarks(page, bleed, colour)| == 2 * |page|
    ensures forall i :: 0 <= i < |page| ==>
      PageMarks(page, bleed, colour)[2 * i] ==
        DrawImage(SlotPosition(i).0, SlotPosition(i).1, TotalCardWidth, TotalCardHeight, bleed(page[i])) &&
      PageMarks(page, bleed, colour)[2 * i + 1] ==
        CutGuide(SlotPosition(i).0 + BleedMm, SlotPosition(i).1 + BleedMm,
                 TotalCardWidth - 2 * BleedMm, TotalCardHeight - 2 * BleedMm, colour)
    decreases |page|
  {
    if page != [] {
      var n := |page| - 1;
      PageMarksAt(page[..n], bleed, colour);
      assert forall i :: 0 <= i < n ==> page[..n][i] == page[i];
    }
  }

  /** The marks of the first count pages cut from an image list. */
  function PagesOf(images: seq<Image>, count: nat, bleed: Image -> Image, colour: Colour): seq<seq<Mark>> {
    seq(count, (k: int) requires 0 <= k => PageMarks(PageSlice(images, k), bleed, colour))
  }

  /** The pages draw_page emits for an image list. */
  function PagesMarks(images: seq<Image>, bleed: Image -> Image, colour: Colour): seq<seq<Mark>> {
    PagesOf(images, PageCount(|images|), bleed, colour)
  }

  /** The pages draw_page emits are the pages of the image list, each drawn. */
  lemma PagesMarksArePages(images: seq<Image>, bleed: Image -> Image, colour: Colour)
    ensures |PagesMarks(images, bleed, colour)| == |Pages(images)|
    ensures forall k :: 0 <= k < |Pages(images)| ==>
      |Pages(images)[k]| <= CardsPerPage &&
      PagesMarks(images, bleed, colour)[k] == PageMarks(Pages(images)[k], bleed, colour)
  {
  }

  /** Every printed page but the last carries nine cards (eighteen marks);
      the last carries n mod 9 cards, or nine when 9 divides n. */
  lemma PrintedPageSizes(images: seq<Image>, bleed: Image -> Image, colour: Colour)
    ensures forall k :: 0 <= k < PageCount(|images|) - 1 ==>
      |PagesMarks(images, bleed, colour)[k]| == 2 * CardsPerPage
    ensures |images| > 0 ==>
      |PagesMarks(images, bleed, colour)[PageCount(|images|) - 1]|
        == 2 * (if |images| % CardsPerPage == 0 then CardsPerPage else |images| % CardsPerPage)
  {
    PagesMarksArePages(images, bleed, colour);
    PageSizes(images);
    forall k | 0 <= k < PageCount(|images|)
      ensures |PagesMarks(images, bleed, colour)[k]| == 2 * |Pages(images)[k]|
    {
      PageMarksAt(Pages(images)[k], bleed, colour);
    }
  }

  /** a[0], b[0], a[1], b[1], ... */
  function Interleave<T>(a: seq<T>, b: seq<T>): seq<T>
    requires |a| == |b|
    decreases |a|
  {
    if a == [] then [] else Interleave(a[..|a| - 1], b[..|b| - 1]) + [a[|a| - 1], b[|b| - 1]]
  }

  /** Entry 2k of the interleaving is a[k] and entry 2k + 1 is b[k]. */
  lemma {:induction false} InterleaveAt<T>(a: seq<T>, b: seq<T>)
    requires |a| == |b|
    ensures |Interleave(a, b)| == 2 * |a|
    ensures forall k :: 0 <= k < |a| ==> Interleave(a, b)[2 * k] == a[k] && Interleave(a, b)[2 * k + 1] == b[k]
    decreases |a|
  {
    if a != [] {
      var n := |a| - 1;
      InterleaveAt(a[..n], b[..n]);
      assert forall k :: 0 <= k < n ==> a[..n][k] == a[k] && b[..n][k] == b[k];
    }
  }

  /** The pages draw_duplex_pages emits: for each page of faces, the face
      page and then the back page cut from the same positions of the backs. */
  function DuplexMarks(faces: seq<Image>, backs: seq<Image>, bleed: Image -> Image, colour: Colour): seq<seq<Mark>> {
    Interleave(PagesOf(faces, PageCount(|faces|), bleed, colour), PagesOf(backs, PageCount(|faces|), bleed, colour))
  }

  /** Image n of a list is drawn on page n / 9, in slot n % 9: marks 2(n % 9)
      and 2(n % 9) + 1 of that page draw it bled and outline its trim. */
  lemma CardPlacement(images: seq<Image>, count: nat, bleed: Image -> Image, colour: Colour, n: nat)
    requires n < |images| && n / CardsPerPage < count
    ensures
      var page := PagesOf(images, count, bleed, colour)[n / CardsPerPage];
      var i := n % CardsPerPage;
      2 * i + 1 < |page| &&
      page[2 * i] == DrawImage(SlotPosition(i).0, SlotPosition(i).1, TotalCardWidth, TotalCardHeight, bleed(images[n])) &&
      page[2 * i + 1] == CutGuide(SlotPosition(i).0 + BleedMm, SlotPosition(i).1 + BleedMm, CardWidthMm, CardHeightMm, colour)
  {
    var k, i := n / CardsPerPage, n % CardsPerPage;
    assert n == CardsPerPage * k + i;
    var slice := PageSlice(images, k);
    assert i < |slice| && slice[i] == images[n];
    PageMarksAt(slice, bleed, colour);
  }

  /** Page `page` of doc draws card in slot `slot`: mark 2 * slot of that
      page is card over the slot's footprint. */
  predicate ShowsCard(doc: seq<seq<Mark>>, page: int, slot: int, card: Image) {
    0 <= slot < CardsPerPage && 0 <= page < |doc| && 2 * slot < |doc[page]| &&
    doc[page][2 * slot] == DrawImage(SlotPosition(slot).0, SlotPosition(slot).1, TotalCardWidth, TotalCardHeight, card)
  }

  /** In simplex mode the face of card n is on page n / 9 and its back on
      page P + n / 9, where P is the number of face pages, both in slot n % 9. */
  lemma SimplexPlacement(faces: seq<Image>, backs: seq<Image>, bleed: Image -> Image, colour: Colour, n: nat)
    requires |faces| == |backs| && n < |faces|
    ensures
      var doc := PagesMarks(faces, bleed, colour) + PagesMarks(backs, bleed, colour);
      |doc| == 2 * PageCount(|faces|) &&
      ShowsCard(doc, n / CardsPerPage, n % CardsPerPage, bleed(faces[n])) &&
      ShowsCard(doc, PageCount(|faces|) + n / CardsPerPage, n % CardsPerPage, bleed(backs[n]))
  {
    PageCountIsCeiling(|faces|);
    CardPlacement(faces, PageCount(|faces|), bleed, colour, n);
    CardPlacement(backs, PageCount(|backs|), bleed, colour, n);
  }

  /** In duplex mode page 2k holds the faces of cards 9k .. 9k + 8 and page
      2k + 1 their backs, each back in the same slot as its face. */
  lemma DuplexPlacement(faces: seq<Image>, backs: seq<Image>, bleed: Image -> Image, colour: Colour, n: nat)
    requires |faces| == |backs| && n < |faces|
    ensures
      var doc := DuplexMarks(faces, backs, bleed, colour);
      |doc| == 2 * PageCount(|faces|) &&
      ShowsCard(doc, 2 * (n / CardsPerPage), n % CardsPerPage, bleed(faces[n])) &&
      ShowsCard(doc, 2 * (n / CardsPerPage) + 1, n % CardsPerPage, bleed(backs[n]))
  {
    var count := PageCount(|faces|);
    PageCountIsCeiling(|faces|);
    CardPlacement(faces, count, bleed, colour, n);
    CardPlacement(backs, count, bleed, colour, n);
    InterleaveAt(PagesOf(faces, count, bleed, colour), PagesOf(backs, count, bleed, colour));
  }

  /** Duplex emits the same pages as simplex, reordered: with P face pages,
      duplex page 2k is simplex page k and duplex page 2k + 1 is simplex page
      P + k. */
  lemma DuplexReordersSimplex(faces: seq<Image>, backs: seq<Image>, bleed: Image -> Image, colour: Colour)
    requires |faces| == |backs|
    ensures
      var simplex := PagesMarks(faces, bleed, colour) + PagesMarks(backs, bleed, colour);
      var duplex := DuplexMarks(faces, backs, bleed, colour);
      var count := PageCount(|faces|);
      |duplex| == |simplex| == 2 * count &&
      forall k :: 0 <= k < count ==> duplex[2 * k] == simplex[k] && duplex[2 * k + 1] == simplex[count + k]
  {
    var count := PageCount(|faces|);
    var f, bk := PagesOf(faces, count, bleed, colour), PagesOf(backs, count, bleed, colour);
    InterleaveAt(f, bk);
    forall k | 0 <= k < count
      ensures Interleave(f, bk)[2 * k] == (f + bk)[k] && Interleave(f, bk)[2 * k + 1] == (f + bk)[count + k]
    {
    }
  }

  /** The first `page` sheets of a duplex document of `count` sheets. */
  function DuplexPrefix(faces: seq<Image>, backs: seq<Image>, count: nat, page: nat,
                        bleed: Image -> Image, colour: Colour): seq<seq<Mark>>
    requires page <= count
  {
    Interleave(PagesOf(faces, count, bleed, colour)[..page], PagesOf(backs, count, bleed, colour)[..page])
  }

  lemma DuplexPrefixStep(faces: seq<Image>, backs: seq<Image>, count: nat, page: nat,
                         bleed: Image -> Image, colour: Colour)
    requires page < count
    ensures DuplexPrefix(faces, backs, count, page + 1, bleed, colour)
         == DuplexPrefix(faces, backs, count, page, bleed, colour)
            + [PageMarks(PageSlice(faces, page), bleed, colour), PageMarks(PageSlice(backs, page), bleed, colour)]
  {
    InterleaveSnoc(PagesOf(faces, count, bleed, colour), PagesOf(backs, count, bleed, colour), page);
  }

  lemma DuplexPrefixAll(faces: seq<Image>, backs: seq<Image>, bleed: Image -> Image, colour: Colour)
    ensures DuplexPrefix(faces, backs, PageCount(|faces|), PageCount(|faces|), bleed, colour)
         == DuplexMarks(faces, backs, bleed, colour)
  {
    var count := PageCount(|faces|);
    assert PagesOf(faces, count, bleed, colour)[..count] == PagesOf(faces, count, bleed, colour);
    assert PagesOf(backs, count, bleed, colour)[..count] == PagesOf(backs, count, bleed, colour);
  }

  lemma InterleaveSnoc<T>(a: seq<T>, b: seq<T>, n: nat)
    requires |a| == |b| && n < |a|
    ensures Interleave(a[..n + 1], b[..n + 1]) == Interleave(a[..n], b[..n]) + [a[n], b[n]]
  {
    assert a[..n + 1][..n] == a[..n] && b[..n + 1][..n] == b[..n];
  }

  // ---------------------------------------------------------------------
  // The canvas

  /** A reportlab canvas, seen through what is drawn on it. */
  class Canvas {
    /** The pages finished by showPage, in order. */
    var pages: seq<seq<Mark>>
    /** The marks drawn on the page in progress. */
    var current: seq<Mark>

    /** canvas.Canvas(output_pdf, pagesize=A4): nothing drawn yet. */
    constructor ()
      ensures pages == [] && current == []
    {
      pages, current := [], [];
    }

    /** drawInlineImage(image, x, y, width, height). */
    method DrawInlineImage(image: Image, x: int, y: int, width: int, height: int)
      modifies this
      ensures pages == old(pages)
      ensures current == old(current) + [DrawImage(x, y, width, height, image)]
    {
      current := current + [DrawImage(x, y, width, height, image)];
    }

    /** The dashed, unfilled rectangle of the cut guide in the given colour. */
    method DrawCutGuide(colour: Colour, x: int, y: int, width: int, height: int)
      modifies this
      ensures pages == old(pages)
      ensures current == old(current) + [CutGuide(x, y, width, height, colour)]
    {
      current := current + [CutGuide(x, y, width, height, colour)];
    }

    /** showPage(): the page in progress is finished and a new one begun. */
    method ShowPage()
      modifies this
      ensures pages == old(pages) + [old(current)]
      ensures current == []
    {
      pages, current := pages + [current], [];
    }
  }

  /** The positions list the drawing loops read. */
  ghost predicate IsSlotGrid(positions: seq<(int, int)>) {
    |positions| == CardsPerPage && forall i :: 0 <= i < CardsPerPage ==> positions[i] == SlotPosition(i)
  }

  /** The loop over one page's images and the showPage after it, written out
      three times in the source (draw_page, and the front and back pages of
      draw_duplex_pages): each image is bled, drawn in its slot and outlined. */
  method DrawCards(c: Canvas, pageImages: seq<Image>, positions: seq<(int, int)>,
                   bleed: Image -> Image, colour: Colour)
    requires |pageImages| <= CardsPerPage && IsSlotGrid(positions)
    requires c.current == []
    modifies c
    ensures c.pages == old(c.pages) + [PageMarks(pageImages, bleed, colour)]
    ensures c.current == []
  {
    for i := 0 to |pageImages|
      invariant c.pages == old(c.pages)
      invariant c.current == PageMarks(pageImages[..i], bleed, colour)
    {
      assert pageImages[..i + 1][..i] == pageImages[..i];
      var (x, y) := positions[i];
      var cardWithBleed := bleed(pageImages[i]);
      c.DrawInlineImage(cardWithBleed, x, y, TotalCardWidth, TotalCardHeight);
      var borderX, borderY := x + BleedMm, y + BleedMm;
      c.DrawCutGuide(colour, borderX, borderY, CardWidthMm, CardHeightMm);
    }
    assert pageImages[..|pageImages|] == pageImages;
    c.ShowPage();
  }

  /** Lines 184-208, draw_page: one page per nine images, the last possibly
      partial; no page at all for no images. */
  method DrawPage(c: Canvas, images: seq<Image>, positions: seq<(int, int)>,
                  bleed: Image -> Image, colour: Colour)
    requires IsSlotGrid(positions)
    requires c.current == []
    modifies c
    ensures c.pages == old(c.pages) + PagesMarks(images, bleed, colour)
    ensures c.current == []
  {
    var numPages := (|images| + CardsPerPage - 1) / CardsPerPage;
    for page := 0 to numPages
      invariant c.pages == old(c.pages) + PagesMarks(images, bleed, colour)[..page]
      invariant c.current == []
    {
      var pageImages := PageSlice(images, page);
      DrawCards(c, pageImages, positions, bleed, colour);
      assert PagesMarks(images, bleed, colour)[..page + 1]
          == PagesMarks(images, bleed, colour)[..page] + [PageMarks(pageImages, bleed, colour)];
    }
    assert PagesMarks(images, bleed, colour)[..numPages] == PagesMarks(images, bleed, colour);
  }

  /** One pass of draw_duplex_pages' loop: the face page, then the back page
      cut from the same stretch of the backs, after the sheets before it. */
  method DrawSheet(c: Canvas, ghost before: seq<seq<Mark>>, faceImages: seq<Image>, backImages: seq<Image>,
                   numPages: nat, page: nat, positions: seq<(int, int)>, bleed: Image -> Image, colour: Colour)
    requires IsSlotGrid(positions) && page < numPages
    requires c.pages == before + DuplexPrefix(faceImages, backImages, numPages, page, bleed, colour)
    requires c.current == []
    modifies c
    ensures c.pages == before + DuplexPrefix(faceImages, backImages, numPages, page + 1, bleed, colour)
    ensures c.current == []
  {
    var pageFaces := PageSlice(faceImages, page);
    DrawCards(c, pageFaces, positions, bleed, colour);
    var pageBacks := PageSlice(backImages, page);
    DrawCards(c, pageBacks, positions, bleed, colour);
    DuplexPrefixStep(faceImages, backImages, numPages, page, bleed, colour);
  }

  /** Lines 211-259, draw_duplex_pages: for each page of faces, the face page
      then the back page cut from the same stretch of the backs. */
  method DrawDuplexPages(c: Canvas, faceImages: seq<Image>, backImages: seq<Image>,
                         positions: seq<(int, int)>, bleed: Image -> Image, colour: Colour)
    requires IsSlotGrid(positions)
    requires c.current == []
    modifies c
    ensures c.pages == old(c.pages) + DuplexMarks(faceImages, backImages, bleed, colour)
    ensures c.current == []
  {
    var totalCards := |faceImages|;
    var numPages := (totalCards + CardsPerPage - 1) / CardsPerPage;
    for page := 0 to numPages
      invariant c.pages == old(c.pages) + DuplexPrefix(faceImages, backImages, numPages, page, bleed, colour)
      invariant c.current == []
    {
      DrawSheet(c, old(c.pages), faceImages, backImages, numPages, page, positions, bleed, colour);
    }
    DuplexPrefixAll(faceImages, backImages, bleed, colour);
  }
}
