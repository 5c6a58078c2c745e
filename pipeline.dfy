/** arrange_cards_from_json end to end: resolve the catalog to cards, fetch
    their images, pick the cut-line colour, and print the cards nine to a page,
    in simplex order (all face pages, then all back pages) or in duplex order
    (each face page followed by its back page). The document is modelled by
    its pages of marks; writing the PDF is not part of this model. */
module Pipeline {
  import opened Raster
  import opened Bleed
  import opened Catalog
  import opened Fetch
  import opened Colour
  import opened Layout

  /** create_card_with_bleed(img, card_width, card_height, bleed_size) with
      the program's 63 x 88 mm card and 3 mm bleed. */
  function Bled(resize: Resampler): (bleed: Image -> Image)
    requires Resizes(resize)
    ensures forall img :: bleed(img).width == MmToPx(CardWidthMm) + 2 * MmToPx(BleedMm) &&
                          bleed(img).height == MmToPx(CardHeightMm) + 2 * MmToPx(BleedMm)
  {
    DefaultPixelSizes();
    (img: Image) => CardWithBleed(img, resize, CardWidthMm, CardHeightMm, BleedMm)
  }

  /** The cards a catalog resolves to. */
  function CatalogCards(customDeck: seq<(int, DeckInfo)>, containedObjects: seq<ContainedObject>): seq<Card> {
    Resolved(DeckMap(customDeck), containedObjects)
  }

  /** The pages the program prints for a catalog. */
  function Document(customDeck: seq<(int, DeckInfo)>, containedObjects: seq<ContainedObject>,
                    duplex: bool, cutLineColour: string, download: Url -> Image, resize: Resampler): seq<seq<Mark>>
    requires Resizes(resize)
  {
    var cards := CatalogCards(customDeck, containedObjects);
    var faces, backs := FaceImages(cards, download), BackImages(cards, download);
    var colour := CutLineColour(cutLineColour).0;
    if duplex then DuplexMarks(faces, backs, Bled(resize), colour)
    else PagesMarks(faces, Bled(resize), colour) + PagesMarks(backs, Bled(resize), colour)
  }

  /** Lines 73-268: the whole run. pages are the pages shown, calls the
      URLs downloaded, warned whether the invalid-colour warning is printed. */
  method ArrangeCardsFromJson(customDeck: seq<(int, DeckInfo)>, containedObjects: seq<ContainedObject>,
                              duplex: bool, cutLineColour: string, download: Url -> Image, resize: Resampler)
    returns (pages: seq<seq<Mark>>, calls: seq<Url>, warned: bool)
    requires Resizes(resize)
    ensures pages == Document(customDeck, containedObjects, duplex, cutLineColour, download, resize)
    ensures var cards := CatalogCards(customDeck, containedObjects);
      forall u :: multiset(calls)[u] == Fetches(u, FaceUrls(cards)) + Fetches(u, BackUrls(cards))
    ensures warned == CutLineColour(cutLineColour).1
  {
    var cardIdToUrls := BuildDeckMap(customDeck);
    var cards := ResolveCards(cardIdToUrls, containedObjects);
    var faceImages, backImages;
    faceImages, backImages, calls := FetchCardImages(cards, download);
    var colour;
    colour, warned := CutLineColour(cutLineColour).0, CutLineColour(cutLineColour).1;
    pages := PrintCards(faceImages, backImages, duplex, Bled(resize), colour);
  }

  /** Lines 131-159 and 261-268: a fresh canvas, the slot grid, then the
      face and back images in simplex or duplex order. */
  method PrintCards(faceImages: seq<Image>, backImages: seq<Image>, duplex: bool,
                    bleed: Image -> Image, colour: Colour)
    returns (pages: seq<seq<Mark>>)
    ensures pages == if duplex then DuplexMarks(faceImages, backImages, bleed, colour)
                     else PagesMarks(faceImages, bleed, colour) + PagesMarks(backImages, bleed, colour)
  {
    var c := new Canvas();
    var positions := BuildPositions();
    PositionsAreSlots(positions);
    if duplex {
      DrawDuplexPages(c, faceImages, backImages, positions, bleed, colour);
    } else {
      DrawPage(c, faceImages, positions, bleed, colour);
      DrawPage(c, backImages, positions, bleed, colour);
    }
    pages := c.pages;
  }

  /** Both modes print 2 * ceil(n / 9) pages for n cards. */
  lemma DocumentPageCount(customDeck: seq<(int, DeckInfo)>, containedObjects: seq<ContainedObject>,
                          duplex: bool, cutLineColour: string, download: Url -> Image, resize: Resampler)
    requires Resizes(resize)
    ensures |Document(customDeck, containedObjects, duplex, cutLineColour, download, resize)|
         == 2 * PageCount(|CatalogCards(customDeck, containedObjects)|)
  {
    var cards := CatalogCards(customDeck, containedObjects);
    DuplexReordersSimplex(FaceImages(cards, download), BackImages(cards, download),
                          Bled(resize), CutLineColour(cutLineColour).0);
  }

  /** Simplex: card n of the catalog is printed in slot n % 9 of face page
      n / 9 from the image behind its face URL, and in the same slot of back
      page P + n / 9 (P the number of face pages) from the image behind its
      back URL. */
  lemma SimplexPrintsEveryCard(customDeck: seq<(int, DeckInfo)>, containedObjects: seq<ContainedObject>,
                               cutLineColour: string, download: Url -> Image, resize: Resampler, n: nat)
    requires Resizes(resize)
    requires n < |CatalogCards(customDeck, containedObjects)|
    ensures
      var cards := CatalogCards(customDeck, containedObjects);
      var doc := Document(customDeck, containedObjects, false, cutLineColour, download, resize);
      ShowsCard(doc, n / CardsPerPage, n % CardsPerPage, BledDownload(cards[n].faceURL, download, resize)) &&
      ShowsCard(doc, PageCount(|cards|) + n / CardsPerPage, n % CardsPerPage, BledDownload(cards[n].backURL, download, resize))
  {
    var cards := CatalogCards(customDeck, containedObjects);
    BledCards(cards, download, resize, n);
    SimplexPlacement(FaceImages(cards, download), BackImages(cards, download),
                     Bled(resize), CutLineColour(cutLineColour).0, n);
  }

  /** Duplex: card n of the catalog is printed in slot n % 9 of page
      2(n / 9) from the image behind its face URL, and in the same slot of
      the next page from the image behind its back URL. */
  lemma DuplexPrintsEveryCard(customDeck: seq<(int, DeckInfo)>, containedObjects: seq<ContainedObject>,
                              cutLineColour: string, download: Url -> Image, resize: Resampler, n: nat)
    requires Resizes(resize)
    requires n < |CatalogCards(customDeck, containedObjects)|
    ensures
      var cards := CatalogCards(customDeck, containedObjects);
      var doc := Document(customDeck, containedObjects, true, cutLineColour, download, resize);
      ShowsCard(doc, 2 * (n / CardsPerPage), n % CardsPerPage, BledDownload(cards[n].faceURL, download, resize)) &&
      ShowsCard(doc, 2 * (n / CardsPerPage) + 1, n % CardsPerPage, BledDownload(cards[n].backURL, download, resize))
  {
    var cards := CatalogCards(customDeck, containedObjects);
    BledCards(cards, download, resize, n);
    DuplexPlacement(FaceImages(cards, download), BackImages(cards, download),
                    Bled(resize), CutLineColour(cutLineColour).0, n);
  }

  /** The image behind url with its bleed added. */
  function BledDownload(url: Url, download: Url -> Image, resize: Resampler): Image
    requires Resizes(resize)
  {
    CardWithBleed(download(url), resize, CardWidthMm, CardHeightMm, BleedMm)
  }

  /** Bled(resize) applied to card n's downloaded face and back. */
  lemma BledCards(cards: seq<Card>, download: Url -> Image, resize: Resampler, n: nat)
    requires Resizes(resize) && n < |cards|
    ensures Bled(resize)(FaceImages(cards, download)[n]) == BledDownload(cards[n].faceURL, download, resize)
    ensures Bled(resize)(BackImages(cards, download)[n]) == BledDownload(cards[n].backURL, download, resize)
  {
  }
}
