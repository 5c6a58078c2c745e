# pnp-maker in Dafny

`pnp-maker.py` turns a Tabletop Simulator deck export into a print-and-play
PDF. It does four things:

- It resolves each contained card whose deck is in the deck table to that
  deck's face and back image URLs, and drops the rest.
- It downloads each distinct URL once per cache, with faces and backs kept
  apart.
- It gives every card a 3 mm bleed by mirroring the card's own border
  outward.
- It lays the cards out nine to an A4 page, with dashed cut guides. In
  simplex order all face pages come first, then all back pages. In duplex
  order each face page is followed by its back page.

This project models that logic and proves what it guarantees:

- **Pixels.** The pixel geometry of the bleed compositor.
- **Catalog.** The order and content of the resolved card list.
- **Downloads.** How many times each URL is downloaded.
- **Pages.** The pagination, the slot grid, and the exact sequence of pages
  in both print orders.
- **Colour.** That the cut-line colour lookup never fails.

The modules follow the program's structure:

| module | file | what it holds |
|---|---|---|
| `Raster` | `raster.dfy` | Images as grids of RGB pixels. Also the PIL operations the compositor uses: `Image.new`, `crop`, `ImageOps.flip`, `ImageOps.mirror`, `transpose(ROTATE_180)` and `paste`. |
| `Bleed` | `bleed.dfy` | `create_card_with_bleed`, twice. The function `Composite` is its value. The method `CompositeInto` makes the nine pastes in place into an `array2`. |
| `Catalog` | `catalog.dfy` | The deck map and the card list. |
| `Fetch` | `fetch.dfy` | The two download caches and the aligned image lists. |
| `Colour` | `colour.dfy` | The colour palette and `str.lower`. |
| `Layout` | `layout.dfy` | The slot grid, the page slicing, and the canvas. |
| `Pipeline` | `pipeline.dfy` | `arrange_cards_from_json` end to end. |

The canvas is a class, `Layout.Canvas`. It holds the pages finished by
`showPage` and the marks drawn on the current page. The drawing loops are
methods that append to it. Each method is proved against a function of its
inputs: `PagesMarks` for simplex and `DuplexMarks` for duplex. The properties
of those functions are proved as lemmas.

The central bleed theorem is `Bleed.CompositeIsReflection`:

- Every pixel of the bled card is the face pixel at the reflected column and
  the reflected row.
- The reflection is `b - 1 - i` in the leading margin, `i - b` on the card,
  and `2n + b - 1 - i` in the trailing margin.

The per-region statements (centre, four flipped or mirrored edges, four
half-turned corners) follow from it. `Bleed.PiecesTile` shows that the nine
pastes cover the canvas exactly once.

## Model

| member | source | states |
|---|---|---|
| Raster.Blank | pnp-maker.py:31 | A new w x h image is w x h, and every pixel is the black background. |
| Raster.Crop | pnp-maker.py:38 | A crop box of (right - left) x (bottom - top). Each pixel is the source pixel at the same offset from (left, top). Parts of the box outside the image are the background. |
| Raster.Flip | pnp-maker.py:39 | Same size. Row y shows source row height - 1 - y. |
| Raster.Mirror | pnp-maker.py:47 | Same size. Column x shows source column width - 1 - x. |
| Raster.Rotate180 | pnp-maker.py:56 | Same size. Pixel (x, y) shows source pixel (width - 1 - x, height - 1 - y). |
| Raster.Paste | pnp-maker.py:34 | Canvas size is kept. Inside the pasted box the pixel comes from the source at (x - x0, y - y0). Everywhere else the canvas is unchanged, and any overhang is clipped. |
| Raster.FlipInvolution | pnp-maker.py:39 | Flipping twice gives back the image. |
| Raster.MirrorInvolution | pnp-maker.py:47 | Mirroring twice gives back the image. |
| Raster.Rotate180IsFlipAndMirror | pnp-maker.py:56 | A half-turn equals a flip and a mirror, in either order. |
| Raster.PasteAllUncovered | pnp-maker.py:34-69 | A pixel covered by none of a sequence of pastes keeps its canvas value. |
| Raster.PasteAllLastWins | pnp-maker.py:34-69 | The last paste covering a pixel decides it. |
| Raster.PasteAllAgree | pnp-maker.py:34-69 | A covered pixel on which every covering paste agrees shows that value. |
| Bleed.MmToPx | pnp-maker.py:21-23 | int(mm / 25.4 * 300) is the floor of mm * 3000 / 254. |
| Bleed.DefaultPixelSizes | pnp-maker.py:21-23 | 63 mm, 88 mm and 3 mm are 744, 1039 and 35 pixels. |
| Bleed.Composite | pnp-maker.py:29-31 | The bled canvas is (W + 2b) x (H + 2b). |
| Bleed.CardWithBleed | pnp-maker.py:19-71 | The result is the resized card's pixel size plus twice the bleed in each direction. |
| Bleed.Reflect | pnp-maker.py:31-69 | The coordinate a bled pixel reads from always lies on the face. In the leading margin, coordinate i reads b - 1 - i. On the card it reads i - b. In the trailing margin it reads the last b coordinates backwards. |
| Bleed.CentrePiece | pnp-maker.py:34 | The face pasted at (b, b) fits the canvas. It covers exactly the card region and shows the face unchanged there. |
| Bleed.TopEdgePiece | pnp-maker.py:37-40 | The flipped top strip fits. It covers exactly the top margin above the card and shows the reflected face pixel there. |
| Bleed.BottomEdgePiece | pnp-maker.py:41-44 | The same for the flipped bottom strip, below the card. |
| Bleed.LeftEdgePiece | pnp-maker.py:45-48 | The same for the mirrored left strip, left of the card. |
| Bleed.RightEdgePiece | pnp-maker.py:49-52 | The same for the mirrored right strip, right of the card. |
| Bleed.TopLeftPiece | pnp-maker.py:54-57 | The same for the turned top-left block, in the top-left corner. |
| Bleed.TopRightPiece | pnp-maker.py:58-61 | The same for the turned top-right block. |
| Bleed.BottomLeftPiece | pnp-maker.py:62-65 | The same for the turned bottom-left block. |
| Bleed.BottomRightPiece | pnp-maker.py:66-69 | The same for the turned bottom-right block. |
| Bleed.PieceShows | pnp-maker.py:34-69 | Paste k fits the canvas and covers (x, y) exactly when k is the paste for (x, y)'s region. Where it covers, it shows the face at the reflected column and row. |
| Bleed.PiecesTile | pnp-maker.py:31-69 | The nine pastes tile the canvas: each lies inside it, and every pixel is covered by exactly one. So no pixel is left as `Image.new`'s blank fill. |
| Bleed.CompositeIsReflection | pnp-maker.py:31-69 | Every pixel of the bled card is the face pixel at (Reflect(x), Reflect(y)). |
| Bleed.CompositeShows | pnp-maker.py:31-69 | A pixel on which all nine pastes agree shows that value in the composite. |
| Bleed.CoveringPiecesShow | pnp-maker.py:31-69 | Some paste covers each pixel, and every paste covering it shows the reflected face pixel. |
| Bleed.CentreIsFace | pnp-maker.py:29-34 | The W x H block at (b, b) is the face, pixel for pixel. |
| Bleed.TopEdgeIsFlipped | pnp-maker.py:37-40 | The top bleed row y shows face row b - 1 - y: a true mirror, not a stretch or a repeat. |
| Bleed.BottomEdgeIsFlipped | pnp-maker.py:41-44 | The bottom bleed row v below the card shows face row H - 1 - v. |
| Bleed.LeftEdgeIsMirrored | pnp-maker.py:45-48 | The left bleed column x shows face column b - 1 - x. |
| Bleed.RightEdgeIsMirrored | pnp-maker.py:49-52 | The right bleed column u right of the card shows face column W - 1 - u. |
| Bleed.TopLeftCornerIsTurned | pnp-maker.py:54-57 | Bleed pixel (x, y) of the top-left corner shows face pixel (b - 1 - x, b - 1 - y). |
| Bleed.TopRightCornerIsTurned | pnp-maker.py:58-61 | The top-right corner is the face's top-right b x b block turned by 180 degrees. |
| Bleed.BottomLeftCornerIsTurned | pnp-maker.py:62-65 | The bottom-left corner is the face's bottom-left block turned by 180 degrees. |
| Bleed.BottomRightCornerIsTurned | pnp-maker.py:66-69 | The bottom-right corner is the face's bottom-right block turned by 180 degrees. |
| Bleed.PasteInto | pnp-maker.py:34 | Pasting in place into the 2-D array leaves it holding exactly the pixels of Paste on its previous contents. |
| Bleed.PasteNext | pnp-maker.py:34-69 | After the first k pastes, making paste k leaves the array holding the first k + 1. |
| Bleed.PasteTopAndBottomEdges | pnp-maker.py:37-44 | Makes pastes 1 and 2, the flipped top and bottom strips. |
| Bleed.PasteLeftAndRightEdges | pnp-maker.py:45-52 | Makes pastes 3 and 4, the mirrored left and right strips. |
| Bleed.PasteTopCorners | pnp-maker.py:54-61 | Makes pastes 5 and 6, the turned top corners. |
| Bleed.PasteBottomCorners | pnp-maker.py:62-69 | Makes pastes 7 and 8, the turned bottom corners. |
| Bleed.NothingPastedYet | pnp-maker.py:31 | A freshly allocated black canvas holds zero pastes. |
| Bleed.AllNinePasted | pnp-maker.py:69-71 | After all nine pastes the canvas holds Composite. |
| Bleed.CompositeInto | pnp-maker.py:28-69 | Allocates a fresh (H + 2b) x (W + 2b) array and makes the nine pastes. It ends holding exactly Composite's pixels. |
| Bleed.CreateCardWithBleed | pnp-maker.py:19-71 | Converts sizes to pixels, resizes, and composites. The fresh array holds exactly CardWithBleed's pixels. |
| Catalog.DeckNumber | pnp-maker.py:93 | cardID // 100 is the deck d with 100d <= cardID < 100d + 100, negative IDs included. |
| Catalog.DeckMap | pnp-maker.py:81-86 | The map has at most one entry per table row, because a repeated deck number overwrites. |
| Catalog.DeckMapKeys | pnp-maker.py:81-86 | The deck map's keys are exactly the deck numbers of the table. |
| Catalog.DeckMapLastWins | pnp-maker.py:81-86 | A deck number maps to the URLs of its last table entry. |
| Catalog.BuildDeckMap | pnp-maker.py:81-86 | The loop builds DeckMap of the table. |
| Catalog.ResolveCards | pnp-maker.py:89-101 | The loop builds Resolved of the contained objects. |
| Catalog.Resolved | pnp-maker.py:89-101 | No object yields more than one card, so there are never more cards than contained objects. |
| Catalog.ResolvedCount | pnp-maker.py:89-101 | The number of cards is the size of the set of positions whose object's deck is in the map. |
| Catalog.ResolvedAppend | pnp-maker.py:89-101 | Resolving a split catalog resolves each part in order, so containment order is kept. |
| Catalog.DroppedObject | pnp-maker.py:94-95 | An object whose deck is missing contributes nothing and raises no error. |
| Catalog.ResolvedIsSubsequence | pnp-maker.py:89-101 | The cards are exactly the resolvable objects' cards. They appear at strictly increasing object positions, and a position appears exactly when its deck resolves. |
| Catalog.CardsCarryDeckUrls | pnp-maker.py:93-99 | Every card carries the face and back URLs of deck cardID // 100. |
| Fetch.DownloadOnce | pnp-maker.py:109-112 | A URL already cached is not fetched. Otherwise it is fetched once and cached. The call log grows by exactly the new cache keys. |
| Fetch.DownloadImages | pnp-maker.py:104-112 | The two caches hold the downloads of exactly the distinct face URLs and the distinct back URLs. Each URL is downloaded once per cache it is in: twice if it is both a face and a back URL. |
| Fetch.AlignImages | pnp-maker.py:115-121 | Entry i of each list is the cached image of card i's URL. |
| Fetch.FaceImages | pnp-maker.py:115-121 | One image per card. Entry i is the download of card i's face URL. |
| Fetch.BackImages | pnp-maker.py:115-121 | One image per card. Entry i is the download of card i's back URL. |
| Fetch.ListsOfDownloads | pnp-maker.py:115-121 | Lists that hold these downloads entry by entry are FaceImages and BackImages. |
| Fetch.FetchCardImages | pnp-maker.py:103-121 | The lists are FaceImages and BackImages, index-aligned with the cards. Each distinct URL is downloaded once per cache. |
| Colour.ColourMapIsPalette | pnp-maker.py:165-174 | The map holds exactly the seven palette names, each mapped to its own colour. |
| Colour.LowerChar | pnp-maker.py:178 | A character lower-cases to one character, never an ASCII capital. Only the dotted capital I becomes two characters. |
| Colour.Lower | pnp-maker.py:178 | `s.lower()` is at least as long as s and at most twice as long. |
| Colour.CutLineColour | pnp-maker.py:176-181 | The cut-line colour is always one of the palette's colours. A warning always comes with black. |
| Colour.LowerCharLetter | pnp-maker.py:178 | One character lower-cases to the letter l exactly when it is l in either case, or the Kelvin sign for k. |
| Colour.LowerIsWord | pnp-maker.py:178 | `s.lower()` is a lower-case ASCII word t exactly when s is a case variant of t. |
| Colour.LowerGivesVariant | pnp-maker.py:178 | A string that lower-cases to a word t is a case variant of t. |
| Colour.VariantLowers | pnp-maker.py:178 | A case variant of a word t lower-cases to t. |
| Colour.CaseVariantsResolve | pnp-maker.py:176-181 | Any case variant of a palette name gives that colour, with no warning. |
| Colour.LookupNeverFails | pnp-maker.py:176-181 | A warning comes with black. No warning means the name is a case variant of the chosen colour's name. |
| Colour.PurpleFallsBack | pnp-maker.py:176-181 | "purple" falls back to black with the warning. |
| Layout.BuildPositions | pnp-maker.py:151-159 | Nine positions, row by row. Entry 3 row + col is (5 + 69 col, 297 - 5 - 94 row - 94). |
| Layout.PositionsAreSlots | pnp-maker.py:155-159 | Entry i sits in column i % 3 and row i / 3. |
| Layout.SlotGeometry | pnp-maker.py:151-159 | Slot footprints never overlap, and every cut guide lies on the page. Footprints are within the page's height. The right-hand column's bleed runs 2 mm past the page's right edge, and only that column does. |
| Layout.PageCountIsCeiling | pnp-maker.py:185 | (n + 8) // 9 is n / 9 rounded up, and 0 only for n = 0. |
| Layout.PageSlice | pnp-maker.py:187-189 | The clamped Python slice `images[9k:9k + 9]` has at most nine entries. |
| Layout.PagesPartition | pnp-maker.py:184-190 | The pages laid end to end are the image list: nothing lost, repeated or reordered. |
| Layout.PageSizes | pnp-maker.py:185-189 | Page k is `images[9k : min(9k + 9, n)]`. Every page but the last is full. The last page holds n mod 9 images, or 9. |
| Layout.PageMarksAt | pnp-maker.py:190-207 | A page of m images has 2m marks. Image i is drawn bled over slot i's footprint, and its cut guide is the footprint inset by the bleed. |
| Layout.PagesMarksArePages | pnp-maker.py:184-208 | `draw_page` emits one page per slice of the image list, and each is that slice drawn by the slot loop. |
| Layout.PrintedPageSizes | pnp-maker.py:184-208 | Every printed page but the last has 18 marks, nine cards with their cut guides. The last has 2(n mod 9) marks, or 18 when 9 divides n. |
| Layout.CardPlacement | pnp-maker.py:184-207 | Image n is drawn on page n / 9 in slot n % 9, with its cut guide. |
| Layout.SimplexPlacement | pnp-maker.py:261-268 | In simplex order a card's face is on page n / 9 and its back on page P + n / 9, in the same slot. |
| Layout.DuplexPlacement | pnp-maker.py:211-259 | In duplex order a card's face is on page 2(n / 9) and its back on the next page, in the same slot. |
| Layout.DuplexReordersSimplex | pnp-maker.py:211-268 | Both orders print 2P pages. Duplex page 2k is simplex page k, and duplex page 2k + 1 is simplex page P + k. |
| Layout.Canvas.constructor | pnp-maker.py:131 | A new canvas has no pages and nothing drawn. |
| Layout.Canvas.DrawInlineImage | pnp-maker.py:195 | Appends the image mark to the current page. |
| Layout.Canvas.DrawCutGuide | pnp-maker.py:203-207 | Appends the dashed cut rectangle in the given colour to the current page. |
| Layout.Canvas.ShowPage | pnp-maker.py:208 | Finishes the current page and starts an empty one. |
| Layout.DrawCards | pnp-maker.py:190-208 | The slot loop and the showPage after it add exactly one page, PageMarks of the page's images. |
| Layout.DrawPage | pnp-maker.py:184-208 | `draw_page` adds exactly PagesMarks(images): ceil(n / 9) pages, none for no images. |
| Layout.DrawSheet | pnp-maker.py:214-259 | One pass of the duplex loop adds face page k, then back page k, cut from the same slice. |
| Layout.DrawDuplexPages | pnp-maker.py:211-259 | `draw_duplex_pages` adds exactly DuplexMarks: face and back pages alternate. |
| Pipeline.Bled | pnp-maker.py:193 | Bleeding a card with the tool's 63 x 88 mm and 3 mm gives a (744 + 70) x (1039 + 70) image. |
| Pipeline.ArrangeCardsFromJson | pnp-maker.py:73-268 | The pages shown are Document of the catalog. Each distinct URL is downloaded once per cache. The warning is printed exactly when the colour name is invalid. |
| Pipeline.PrintCards | pnp-maker.py:261-268 | Simplex prints all face pages, then all back pages. Duplex prints the interleaving. |
| Pipeline.DocumentPageCount | pnp-maker.py:261-268 | Either mode prints 2 ceil(n / 9) pages for n cards. |
| Pipeline.SimplexPrintsEveryCard | pnp-maker.py:264-268 | Card n's downloaded face, bled, is printed in slot n % 9 of page n / 9. Its back is printed in the same slot of page P + n / 9. |
| Pipeline.DuplexPrintsEveryCard | pnp-maker.py:261-263 | Card n's bled face is printed in slot n % 9 of page 2(n / 9), and its back in the same slot of the next page. |

## Left out

- HTTP fetching and image decoding (`download_image`). These are network I/O and foreign calls. A download is a total function from URL to image, given as a parameter, and a log of the URLs it is called with counts the calls. Failed requests (`raise_for_status`) are not modelled.
- LANCZOS resampling. It is floating-point filtering inside PIL. The resampler is a parameter, constrained only to return an image of the requested size.
- Bleed.MmToPx: computes the exact floor of mm * 3000 / 254 rather than the floating-point `int(mm / 25.4 * 300)`. The two agree on the three sizes the program uses (`Bleed.DefaultPixelSizes`). Floating-point rounding in general is not modelled.
- The mm-to-points conversion (`mm_to_points` and the A4 page size in points). Layout works in whole millimetres, with A4 as 210 x 297 mm. Points are millimetres times one constant factor, so positions, sizes and containment are the same up to that scale.
- JSON text parsing and its errors. The model starts from the decoded deck table and contained objects: `json.loads`, a KeyError for a missing top-level key, `objectStates[0]`, or a missing `cardID`. Deck keys arrive already converted by `int()`, so a non-numeric key's ValueError is not modelled. The deck table is a sequence of pairs in the dictionary's iteration order.
- reportlab rendering. `drawInlineImage` and the dashed rectangle are recorded as marks on the page. `setLineWidth(0.5)`, `setDash(2, 2)` and `setDash()` are folded into the cut-guide mark, whose only varying attribute is its colour. `c.save()` and the PDF bytes are not modelled. A run with no cards shows no pages.
- The drawing loops take the bled image as a value, from `Bleed.CardWithBleed`. They do not call the array method `Bleed.CreateCardWithBleed`, whose result is proved to hold exactly those pixels.
- `Colour.LowerChar` / `Colour.Lower`: `str.lower` is modelled exactly for ASCII, the Kelvin sign (to `k`) and U+0130 (to `i` with a combining dot). Every other character is kept as it is. No other character lower-cases to a string that contains an ASCII letter, so this does not change which names match the palette.
- The invalid-colour message is modelled only as a flag saying whether it is printed.
- The output file name (lines 124-128): a given name, or "playing_cards_duplex.pdf" or "playing_cards.pdf" by mode. Nothing is written, so the name is not modelled.
- argparse, reading the JSON file, and the `__main__` block are command-line plumbing.
