/** The bleed compositor (create_card_with_bleed): a card face resized to
    W x H pixels is placed in the middle of a (W + 2b) x (H + 2b) canvas, and
    the b-pixel margin around it is filled by mirroring the face's own
    border strips outward (edges flipped, corners rotated by a half-turn). */
module Bleed {
  import opened Raster

  /** Pixels per inch of the raster the cards are composited at. */
  const Dpi: nat := 300

  /** int(mm / 25.4 * 300): the whole number of pixels in mmValue millimetres. */
  function MmToPx(mmValue: nat): (px: nat)
    ensures px * 254 <= mmValue * Dpi * 10 < (px + 1) * 254
  {
    mmValue * Dpi * 10 / 254
  }

  /** The card and bleed sizes the tool uses, in millimetres. */
  const CardWidthMm: nat := 63
  const CardHeightMm: nat := 88
  const BleedMm: nat := 3

  lemma DefaultPixelSizes()
    ensures MmToPx(CardWidthMm) == 744
    ensures MmToPx(CardHeightMm) == 1039
    ensures MmToPx(BleedMm) == 35
  {
  }

  /** Stand-in for PIL's resize(img, (w, h), LANCZOS): the filter itself is not
      modelled, only that it returns a w x h image. */
  type Resampler = (Image, nat, nat) -> Image

  ghost predicate Resizes(resize: Resampler) {
    forall im: Image, w: nat, h: nat :: resize(im, w, h).width == w && resize(im, w, h).height == h
  }

  /** Paste 0: the resized face itself at (b, b). */
  function FacePaste(face: Image, b: nat): Piece {
    Piece(face, b, b)
  }

  /** Paste 1: the face's top b rows, flipped top to bottom, at (b, 0). */
  function TopEdgePaste(face: Image, b: nat): Piece
    requires b <= face.height
  {
    Piece(Flip(Crop(face, 0, 0, face.width, b)), b, 0)
  }

  /** Paste 2: the face's bottom b rows, flipped top to bottom, at (b, b + H). */
  function BottomEdgePaste(face: Image, b: nat): Piece
    requires b <= face.height
  {
    Piece(Flip(Crop(face, 0, face.height - b, face.width, face.height)), b, b + face.height)
  }

  /** Paste 3: the face's left b columns, mirrored left to right, at (0, b). */
  function LeftEdgePaste(face: Image, b: nat): Piece
    requires b <= face.width
  {
    Piece(Mirror(Crop(face, 0, 0, b, face.height)), 0, b)
  }

  /** Paste 4: the face's right b columns, mirrored left to right, at (b + W, b). */
  function RightEdgePaste(face: Image, b: nat): Piece
    requires b <= face.width
  {
    Piece(Mirror(Crop(face, face.width - b, 0, face.width, face.height)), b + face.width, b)
  }

  /** Paste 5: the face's top-left b x b block, turned by 180 degrees, at (0, 0). */
  function TopLeftPaste(face: Image, b: nat): Piece
    requires b <= face.width && b <= face.height
  {
    Piece(Rotate180(Crop(face, 0, 0, b, b)), 0, 0)
  }

  /** Paste 6: the face's top-right b x b block, turned, at (b + W, 0). */
  function TopRightPaste(face: Image, b: nat): Piece
    requires b <= face.width && b <= face.height
  {
    Piece(Rotate180(Crop(face, face.width - b, 0, face.width, b)), b + face.width, 0)
  }

  /** Paste 7: the face's bottom-left b x b block, turned, at (0, b + H). */
  function BottomLeftPaste(face: Image, b: nat): Piece
    requires b <= face.width && b <= face.height
  {
    Piece(Rotate180(Crop(face, 0, face.height - b, b, face.height)), 0, b + face.height)
  }

  /** Paste 8: the face's bottom-right b x b block, turned, at (b + W, b + H). */
  function BottomRightPaste(face: Image, b: nat): Piece
    requires b <= face.width && b <= face.height
  {
    Piece(Rotate180(Crop(face, face.width - b, face.height - b, face.width, face.height)),
          b + face.width, b + face.height)
  }

  /** The nine pastes of create_card_with_bleed, in the order the source makes them. */
  function Pieces(face: Image, b: nat): seq<Piece>
    requires b <= face.width && b <= face.height
  {
    [FacePaste(face, b),
     TopEdgePaste(face, b), BottomEdgePaste(face, b),
     LeftEdgePaste(face, b), RightEdgePaste(face, b),
     TopLeftPaste(face, b), TopRightPaste(face, b),
     BottomLeftPaste(face, b), BottomRightPaste(face, b)]
  }

  /** The bled card: a blank (W + 2b) x (H + 2b) canvas with the nine pieces pasted on it. */
  function Composite(face: Image, b: nat): (out: Image)
    requires b <= face.width && b <= face.height
    ensures out.width == face.width + 2 * b && out.height == face.height + 2 * b
  {
    PasteAll(Blank(face.width + 2 * b, face.height + 2 * b), Pieces(face, b))
  }

  /** create_card_with_bleed(face_image, card_width, card_height, bleed_size)
      as a value: resize to the card's pixel size, then composite. */
  function CardWithBleed(faceImage: Image, resize: Resampler, cardWidth: nat, cardHeight: nat, bleedSize: nat): (out: Image)
    requires Resizes(resize)
    requires MmToPx(bleedSize) <= MmToPx(cardWidth) && MmToPx(bleedSize) <= MmToPx(cardHeight)
    ensures out.width == MmToPx(cardWidth) + 2 * MmToPx(bleedSize)
    ensures out.height == MmToPx(cardHeight) + 2 * MmToPx(bleedSize)
  {
    Composite(resize(faceImage, MmToPx(cardWidth), MmToPx(cardHeight)), MmToPx(bleedSize))
  }

  /** Where coordinate i of the bled canvas (0 <= i < n + 2b) reads from on the
      face's axis of length n: the margin is the border strip reflected. */
  function Reflect(i: nat, n: nat, b: nat): (r: nat)
    requires b <= n && i < n + 2 * b
    ensures r < n
    ensures i < b ==> r < b && r + i == b - 1
    ensures b <= i < b + n ==> r + b == i
    ensures b + n <= i ==> n - b <= r && r + i == 2 * n + b - 1
  {
    if i < b then b - 1 - i else if i < b + n then i - b else 2 * n + b - 1 - i
  }

  /** Which third of an axis of length n + 2b coordinate i falls in: 0 for
      the leading margin, 1 for the card, 2 for the trailing margin. */
  function Band(i: nat, n: nat, b: nat): (r: nat)
    ensures r < 3
  {
    if i < b then 0 else if i < b + n then 1 else 2
  }

  /** A piece that lies wholly inside a w x h canvas, so that pasting it clips nothing. */
  predicate Fits(p: Piece, w: nat, h: nat) {
    p.x0 + p.img.width <= w && p.y0 + p.img.height <= h
  }

  /** A strip cut across the face's full width and flipped top to bottom. */
  lemma FlippedStrip(face: Image, top: nat, bottom: nat, u: nat, v: nat)
    requires top <= bottom <= face.height && u < face.width && v < bottom - top
    ensures At(Flip(Crop(face, 0, top, face.width, bottom)), u, v) == At(face, u, bottom - 1 - v)
  {
  }

  /** A strip cut down the face's full height and mirrored left to right. */
  lemma MirroredStrip(face: Image, left: nat, right: nat, u: nat, v: nat)
    requires left <= right <= face.width && u < right - left && v < face.height
    ensures At(Mirror(Crop(face, left, 0, right, face.height)), u, v) == At(face, right - 1 - u, v)
  {
  }

  /** A block cut from the face and turned by 180 degrees. */
  lemma TurnedBlock(face: Image, left: nat, top: nat, right: nat, bottom: nat, u: nat, v: nat)
    requires left <= right <= face.width && top <= bottom <= face.height
    requires u < right - left && v < bottom - top
    ensures At(Rotate180(Crop(face, left, top, right, bottom)), u, v) == At(face, right - 1 - u, bottom - 1 - v)
  {
  }

  /** Paste 0: the face itself, pasted at (b, b), covers the card area and shows the face unchanged. */
  lemma CentrePiece(face: Image, b: nat, x: nat, y: nat)
    requires b <= face.width && b <= face.height
    requires x < face.width + 2 * b && y < face.height + 2 * b
    ensures Fits(FacePaste(face, b), face.width + 2 * b, face.height + 2 * b)
    ensures Covers(FacePaste(face, b), x, y) <==> Band(x, face.width, b) == 1 && Band(y, face.height, b) == 1
    ensures Covers(FacePaste(face, b), x, y) ==>
      Shown(FacePaste(face, b), x, y) == At(face, Reflect(x, face.width, b), Reflect(y, face.height, b))
  {
    var p := FacePaste(face, b);
    assert p.img.width == face.width && p.img.height == face.height;
    if Covers(p, x, y) {
      assert Reflect(x, face.width, b) == x - b;
      assert Reflect(y, face.height, b) == y - b;
    }
  }

  /** Paste 1: the face's top b rows, flipped and pasted at (b, 0), cover the top margin. */
  lemma TopEdgePiece(face: Image, b: nat, x: nat, y: nat)
    requires b <= face.width && b <= face.height
    requires x < face.width + 2 * b && y < face.height + 2 * b
    ensures Fits(TopEdgePaste(face, b), face.width + 2 * b, face.height + 2 * b)
    ensures Covers(TopEdgePaste(face, b), x, y) <==> Band(x, face.width, b) == 1 && Band(y, face.height, b) == 0
    ensures Covers(TopEdgePaste(face, b), x, y) ==>
      Shown(TopEdgePaste(face, b), x, y) == At(face, Reflect(x, face.width, b), Reflect(y, face.height, b))
  {
    var p := TopEdgePaste(face, b);
    assert p.img.width == face.width && p.img.height == b;
    if Covers(p, x, y) {
      var u, v := x - b, y;
      FlippedStrip(face, 0, b, u, v);
      assert Reflect(x, face.width, b) == u;
      assert Reflect(y, face.height, b) == b - 1 - v;
    }
  }

  /** Paste 2: the face's bottom b rows, flipped and pasted at (b, b + H), cover the bottom margin. */
  lemma BottomEdgePiece(face: Image, b: nat, x: nat, y: nat)
    requires b <= face.width && b <= face.height
    requires x < face.width + 2 * b && y < face.height + 2 * b
    ensures Fits(BottomEdgePaste(face, b), face.width + 2 * b, face.height + 2 * b)
    ensures Covers(BottomEdgePaste(face, b), x, y) <==> Band(x, face.width, b) == 1 && Band(y, face.height, b) == 2
    ensures Covers(BottomEdgePaste(face, b), x, y) ==>
      Shown(BottomEdgePaste(face, b), x, y) == At(face, Reflect(x, face.width, b), Reflect(y, face.height, b))
  {
    var p := BottomEdgePaste(face, b);
    assert p.img.width == face.width && p.img.height == b;
    if Covers(p, x, y) {
      var u, v := x - b, y - (b + face.height);
      FlippedStrip(face, face.height - b, face.height, u, v);
      assert Reflect(x, face.width, b) == u;
      assert Reflect(y, face.height, b) == face.height - 1 - v;
    }
  }

  /** Paste 3: the face's left b columns, mirrored and pasted at (0, b), cover the left margin. */
  lemma LeftEdgePiece(face: Image, b: nat, x: nat, y: nat)
    requires b <= face.width && b <= face.height
    requires x < face.width + 2 * b && y < face.height + 2 * b
    ensures Fits(LeftEdgePaste(face, b), face.width + 2 * b, face.height + 2 * b)
    ensures Covers(LeftEdgePaste(face, b), x, y) <==> Band(x, face.width, b) == 0 && Band(y, face.height, b) == 1
    ensures Covers(LeftEdgePaste(face, b), x, y) ==>
      Shown(LeftEdgePaste(face, b), x, y) == At(face, Reflect(x, face.width, b), Reflect(y, face.height, b))
  {
    var p := LeftEdgePaste(face, b);
    assert p.img.width == b && p.img.height == face.height;
    if Covers(p, x, y) {
      var u, v := x, y - b;
      MirroredStrip(face, 0, b, u, v);
      assert Reflect(x, face.width, b) == b - 1 - u;
      assert Reflect(y, face.height, b) == v;
    }
  }

  /** Paste 4: the face's right b columns, mirrored and pasted at (b + W, b), cover the right margin. */
  lemma RightEdgePiece(face: Image, b: nat, x: nat, y: nat)
    requires b <= face.width && b <= face.height
    requires x < face.width + 2 * b && y < face.height + 2 * b
    ensures Fits(RightEdgePaste(face, b), face.width + 2 * b, face.height + 2 * b)
    ensures Covers(RightEdgePaste(face, b), x, y) <==> Band(x, face.width, b) == 2 && Band(y, face.height, b) == 1
    ensures Covers(RightEdgePaste(face, b), x, y) ==>
      Shown(RightEdgePaste(face, b), x, y) == At(face, Reflect(x, face.width, b), Reflect(y, face.height, b))
  {
    var p := RightEdgePaste(face, b);
    assert p.img.width == b && p.img.height == face.height;
    if Covers(p, x, y) {
      var u, v := x - (b + face.width), y - b;
      MirroredStrip(face, face.width - b, face.width, u, v);
      assert Reflect(x, face.width, b) == face.width - 1 - u;
      assert Reflect(y, face.height, b) == v;
    }
  }

  /** Paste 5: the face's top-left b x b block, turned and pasted at (0, 0), covers the top-left corner. */
  lemma TopLeftPiece(face: Image, b: nat, x: nat, y: nat)
    requires b <= face.width && b <= face.height
    requires x < face.width + 2 * b && y < face.height + 2 * b
    ensures Fits(TopLeftPaste(face, b), face.width + 2 * b, face.height + 2 * b)
    ensures Covers(TopLeftPaste(face, b), x, y) <==> Band(x, face.width, b) == 0 && Band(y, face.height, b) == 0
    ensures Covers(TopLeftPaste(face, b), x, y) ==>
      Shown(TopLeftPaste(face, b), x, y) == At(face, Reflect(x, face.width, b), Reflect(y, face.height, b))
  {
    var p := TopLeftPaste(face, b);
    assert p.img.width == b && p.img.height == b;
    if Covers(p, x, y) {
      var u, v := x, y;
      TurnedBlock(face, 0, 0, b, b, u, v);
      assert Reflect(x, face.width, b) == b - 1 - u;
      assert Reflect(y, face.height, b) == b - 1 - v;
    }
  }

  /** Paste 6: the face's top-right b x b block, turned and pasted at (b + W, 0), covers the top-right corner. */
  lemma TopRightPiece(face: Image, b: nat, x: nat, y: nat)
    requires b <= face.width && b <= face.height
    requires x < face.width + 2 * b && y < face.height + 2 * b
    ensures Fits(TopRightPaste(face, b), face.width + 2 * b, face.height + 2 * b)
    ensures Covers(TopRightPaste(face, b), x, y) <==> Band(x, face.width, b) == 2 && Band(y, face.height, b) == 0
    ensures Covers(TopRightPaste(face, b), x, y) ==>
      Shown(TopRightPaste(face, b), x, y) == At(face, Reflect(x, face.width, b), Reflect(y, face.height, b))
  {
    var p := TopRightPaste(face, b);
    assert p.img.width == b && p.img.height == b;
    if Covers(p, x, y) {
      var u, v := x - (b + face.width), y;
      TurnedBlock(face, face.width - b, 0, face.width, b, u, v);
      assert Reflect(x, face.width, b) == face.width - 1 - u;
      assert Reflect(y, face.height, b) == b - 1 - v;
    }
  }

  /** Paste 7: the face's bottom-left b x b block, turned and pasted at (0, b + H), covers the bottom-left corner. */
  lemma BottomLeftPiece(face: Image, b: nat, x: nat, y: nat)
    requires b <= face.width && b <= face.height
    requires x < face.width + 2 * b && y < face.height + 2 * b
    ensures Fits(BottomLeftPaste(face, b), face.width + 2 * b, face.height + 2 * b)
    ensures Covers(BottomLeftPaste(face, b), x, y) <==> Band(x, face.width, b) == 0 && Band(y, face.height, b) == 2
    ensures Covers(BottomLeftPaste(face, b), x, y) ==>
      Shown(BottomLeftPaste(face, b), x, y) == At(face, Reflect(x, face.width, b), Reflect(y, face.height, b))
  {
    var p := BottomLeftPaste(face, b);
    assert p.img.width == b && p.img.height == b;
    if Covers(p, x, y) {
      var u, v := x, y - (b + face.height);
      TurnedBlock(face, 0, face.height - b, b, face.height, u, v);
      assert Reflect(x, face.width, b) == b - 1 - u;
      assert Reflect(y, face.height, b) == face.height - 1 - v;
    }
  }

  /** Paste 8: the face's bottom-right b x b block, turned and pasted at (b + W, b + H), covers the bottom-right corner. */
  lemma BottomRightPiece(face: Image, b: nat, x: nat, y: nat)
    requires b <= face.width && b <= face.height
    requires x < face.width + 2 * b && y < face.height + 2 * b
    ensures Fits(BottomRightPaste(face, b), face.width + 2 * b, face.height + 2 * b)
    ensures Covers(BottomRightPaste(face, b), x, y) <==> Band(x, face.width, b) == 2 && Band(y, face.height, b) == 2
    ensures Covers(BottomRightPaste(face, b), x, y) ==>
      Shown(BottomRightPaste(face, b), x, y) == At(face, Reflect(x, face.width, b), Reflect(y, face.height, b))
  {
    var p := BottomRightPaste(face, b);
    assert p.img.width == b && p.img.height == b;
    if Covers(p, x, y) {
      var u, v := x - (b + face.width), y - (b + face.height);
      TurnedBlock(face, face.width - b, face.height - b, face.width, face.height, u, v);
      assert Reflect(x, face.width, b) == face.width - 1 - u;
      assert Reflect(y, face.height, b) == face.height - 1 - v;
    }
  }

  /** The number of the paste that fills the region in band col across and
      band row down (bands as in Band). */
  function PieceIndex(col: nat, row: nat): (k: nat)
    requires col < 3 && row < 3
    ensures k < 9
  {
    [[5, 1, 6], [3, 0, 4], [7, 2, 8]][row][col]
  }

  /** Paste k covers canvas pixel (x, y) exactly when k is the paste for the
      pixel's region, and there it shows the face pixel at the reflected
      column and row. */
  lemma PieceShows(face: Image, b: nat, k: nat, x: nat, y: nat)
    requires b <= face.width && b <= face.height && k < 9
    requires x < face.width + 2 * b && y < face.height + 2 * b
    ensures Fits(Pieces(face, b)[k], face.width + 2 * b, face.height + 2 * b)
    ensures Covers(Pieces(face, b)[k], x, y) <==> k == PieceIndex(Band(x, face.width, b), Band(y, face.height, b))
    ensures Covers(Pieces(face, b)[k], x, y) ==>
      Shown(Pieces(face, b)[k], x, y) == At(face, Reflect(x, face.width, b), Reflect(y, face.height, b))
  {
    if k == 0 {
      CentrePiece(face, b, x, y);
    } else if k < 5 {
      EdgePieceShows(face, b, k, x, y);
    } else {
      CornerPieceShows(face, b, k, x, y);
    }
  }

  lemma EdgePieceShows(face: Image, b: nat, k: nat, x: nat, y: nat)
    requires b <= face.width && b <= face.height && 1 <= k < 5
    requires x < face.width + 2 * b && y < face.height + 2 * b
    ensures Fits(Pieces(face, b)[k], face.width + 2 * b, face.height + 2 * b)
    ensures Covers(Pieces(face, b)[k], x, y) <==> k == PieceIndex(Band(x, face.width, b), Band(y, face.height, b))
    ensures Covers(Pieces(face, b)[k], x, y) ==>
      Shown(Pieces(face, b)[k], x, y) == At(face, Reflect(x, face.width, b), Reflect(y, face.height, b))
  {
    if k == 1 {
      TopEdgePiece(face, b, x, y);
    } else if k == 2 {
      BottomEdgePiece(face, b, x, y);
    } else if k == 3 {
      LeftEdgePiece(face, b, x, y);
    } else {
      RightEdgePiece(face, b, x, y);
    }
  }

  lemma CornerPieceShows(face: Image, b: nat, k: nat, x: nat, y: nat)
    requires b <= face.width && b <= face.height && 5 <= k < 9
    requires x < face.width + 2 * b && y < face.height + 2 * b
    ensures Fits(Pieces(face, b)[k], face.width + 2 * b, face.height + 2 * b)
    ensures Covers(Pieces(face, b)[k], x, y) <==> k == PieceIndex(Band(x, face.width, b), Band(y, face.height, b))
    ensures Covers(Pieces(face, b)[k], x, y) ==>
      Shown(Pieces(face, b)[k], x, y) == At(face, Reflect(x, face.width, b), Reflect(y, face.height, b))
  {
    if k == 5 {
      TopLeftPiece(face, b, x, y);
    } else if k == 6 {
      TopRightPiece(face, b, x, y);
    } else if k == 7 {
      BottomLeftPiece(face, b, x, y);
    } else {
      BottomRightPiece(face, b, x, y);
    }
  }


  /** The nine pastes tile the bled canvas: each lies wholly inside it, and
      every pixel is covered by exactly one of them. */
  lemma PiecesTile(face: Image, b: nat, x: nat, y: nat)
    requires b <= face.width && b <= face.height
    requires x < face.width + 2 * b && y < face.height + 2 * b
    ensures forall k :: 0 <= k < 9 ==> Fits(Pieces(face, b)[k], face.width + 2 * b, face.height + 2 * b)
    ensures exists k :: 0 <= k < 9 && Covers(Pieces(face, b)[k], x, y)
    ensures forall j, k :: 0 <= j < k < 9 && Covers(Pieces(face, b)[j], x, y) ==> !Covers(Pieces(face, b)[k], x, y)
  {
    forall k | 0 <= k < 9
      ensures Fits(Pieces(face, b)[k], face.width + 2 * b, face.height + 2 * b)
      ensures Covers(Pieces(face, b)[k], x, y) <==> k == PieceIndex(Band(x, face.width, b), Band(y, face.height, b))
    {
      PieceShows(face, b, k, x, y);
    }
    var k := PieceIndex(Band(x, face.width, b), Band(y, face.height, b));
    assert Covers(Pieces(face, b)[k], x, y);
  }

  /** The nine pastes amount to one separable reflection: every pixel of the
      bled card is the face pixel at the reflected column and row. */
  lemma CompositeIsReflection(face: Image, b: nat, x: nat, y: nat)
    requires b <= face.width && b <= face.height
    requires x < face.width + 2 * b && y < face.height + 2 * b
    ensures At(Composite(face, b), x, y) ==
            At(face, Reflect(x, face.width, b), Reflect(y, face.height, b))
  {
    CoveringPiecesShow(face, b, x, y);
    CompositeShows(face, b, x, y, At(face, Reflect(x, face.width, b), Reflect(y, face.height, b)));
  }

  /** A pixel where the nine pastes agree on v is v in the composite. */
  lemma CompositeShows(face: Image, b: nat, x: nat, y: nat, v: Pixel)
    requires b <= face.width && b <= face.height
    requires x < face.width + 2 * b && y < face.height + 2 * b
    requires ShowsAt(Pieces(face, b), x, y, v)
    ensures At(Composite(face, b), x, y) == v
  {
    PasteAllAgree(Blank(face.width + 2 * b, face.height + 2 * b), Pieces(face, b), v, x, y);
  }

  /** Some paste covers the pixel, and every paste that covers it shows the
      reflected face pixel there. */
  lemma CoveringPiecesShow(face: Image, b: nat, x: nat, y: nat)
    requires b <= face.width && b <= face.height
    requires x < face.width + 2 * b && y < face.height + 2 * b
    ensures ShowsAt(Pieces(face, b), x, y, At(face, Reflect(x, face.width, b), Reflect(y, face.height, b)))
  {
    var ps := Pieces(face, b);
    forall k | 0 <= k < 9
      ensures Covers(ps[k], x, y) <==> k == PieceIndex(Band(x, face.width, b), Band(y, face.height, b))
      ensures Covers(ps[k], x, y) ==>
        Shown(ps[k], x, y) == At(face, Reflect(x, face.width, b), Reflect(y, face.height, b))
    {
      PieceShows(face, b, k, x, y);
    }
    var k := PieceIndex(Band(x, face.width, b), Band(y, face.height, b));
    assert Covers(ps[k], x, y);
  }

  /** The W x H block at offset (b, b) is the face, pixel for pixel. */
  lemma CentreIsFace(face: Image, b: nat)
    requires b <= face.width && b <= face.height
    ensures forall x: nat, y: nat :: b <= x < b + face.width && b <= y < b + face.height ==>
      At(Composite(face, b), x, y) == At(face, x - b, y - b)
  {
    forall x: nat, y: nat | b <= x < b + face.width && b <= y < b + face.height
      ensures At(Composite(face, b), x, y) == At(face, x - b, y - b)
    {
      assert Reflect(x, face.width, b) == x - b;
      assert Reflect(y, face.height, b) == y - b;
      CompositeIsReflection(face, b, x, y);
    }
  }

  /** The top bleed strip is the face's top b rows flipped: bleed row y shows face row b - 1 - y. */
  lemma TopEdgeIsFlipped(face: Image, b: nat)
    requires b <= face.width && b <= face.height
    ensures forall x: nat, y: nat :: b <= x < b + face.width && y < b ==>
      At(Composite(face, b), x, y) == At(face, x - b, b - 1 - y)
  {
    forall x: nat, y: nat | b <= x < b + face.width && y < b
      ensures At(Composite(face, b), x, y) == At(face, x - b, b - 1 - y)
    {
      assert Reflect(x, face.width, b) == x - b;
      assert Reflect(y, face.height, b) == b - 1 - y;
      CompositeIsReflection(face, b, x, y);
    }
  }

  /** The bottom bleed strip is the face's bottom b rows flipped: bleed row v below the card shows face row H - 1 - v. */
  lemma BottomEdgeIsFlipped(face: Image, b: nat)
    requires b <= face.width && b <= face.height
    ensures forall x: nat, y: nat :: b <= x < b + face.width && b + face.height <= y < face.height + 2 * b ==>
      At(Composite(face, b), x, y) == At(face, x - b, face.height - 1 - (y - (b + face.height)))
  {
    forall x: nat, y: nat | b <= x < b + face.width && b + face.height <= y < face.height + 2 * b
      ensures At(Composite(face, b), x, y) == At(face, x - b, face.height - 1 - (y - (b + face.height)))
    {
      assert Reflect(x, face.width, b) == x - b;
      assert Reflect(y, face.height, b) == face.height - 1 - (y - (b + face.height));
      CompositeIsReflection(face, b, x, y);
    }
  }

  /** The left bleed strip is the face's left b columns mirrored: bleed column x shows face column b - 1 - x. */
  lemma LeftEdgeIsMirrored(face: Image, b: nat)
    requires b <= face.width && b <= face.height
    ensures forall x: nat, y: nat :: x < b && b <= y < b + face.height ==>
      At(Composite(face, b), x, y) == At(face, b - 1 - x, y - b)
  {
    forall x: nat, y: nat | x < b && b <= y < b + face.height
      ensures At(Composite(face, b), x, y) == At(face, b - 1 - x, y - b)
    {
      assert Reflect(x, face.width, b) == b - 1 - x;
      assert Reflect(y, face.height, b) == y - b;
      CompositeIsReflection(face, b, x, y);
    }
  }

  /** The right bleed strip is the face's right b columns mirrored: bleed column u right of the card shows face column W - 1 - u. */
  lemma RightEdgeIsMirrored(face: Image, b: nat)
    requires b <= face.width && b <= face.height
    ensures forall x: nat, y: nat :: b + face.width <= x < face.width + 2 * b && b <= y < b + face.height ==>
      At(Composite(face, b), x, y) == At(face, face.width - 1 - (x - (b + face.width)), y - b)
  {
    forall x: nat, y: nat | b + face.width <= x < face.width + 2 * b && b <= y < b + face.height
      ensures At(Composite(face, b), x, y) == At(face, face.width - 1 - (x - (b + face.width)), y - b)
    {
      assert Reflect(x, face.width, b) == face.width - 1 - (x - (b + face.width));
      assert Reflect(y, face.height, b) == y - b;
      CompositeIsReflection(face, b, x, y);
    }
  }

  /** The top-left bleed corner is the face's top-left b x b block turned by 180 degrees. */
  lemma TopLeftCornerIsTurned(face: Image, b: nat)
    requires b <= face.width && b <= face.height
    ensures forall x: nat, y: nat :: x < b && y < b ==>
      At(Composite(face, b), x, y) == At(face, b - 1 - x, b - 1 - y)
  {
    forall x: nat, y: nat | x < b && y < b
      ensures At(Composite(face, b), x, y) == At(face, b - 1 - x, b - 1 - y)
    {
      assert Reflect(x, face.width, b) == b - 1 - x;
      assert Reflect(y, face.height, b) == b - 1 - y;
      CompositeIsReflection(face, b, x, y);
    }
  }

  /** The top-right bleed corner is the face's top-right b x b block turned by 180 degrees. */
  lemma TopRightCornerIsTurned(face: Image, b: nat)
    requires b <= face.width && b <= face.height
    ensures forall x: nat, y: nat :: b + face.width <= x < face.width + 2 * b && y < b ==>
      At(Composite(face, b), x, y) == At(face, face.width - 1 - (x - (b + face.width)), b - 1 - y)
  {
    forall x: nat, y: nat | b + face.width <= x < face.width + 2 * b && y < b
      ensures At(Composite(face, b), x, y) == At(face, face.width - 1 - (x - (b + face.width)), b - 1 - y)
    {
      assert Reflect(x, face.width, b) == face.width - 1 - (x - (b + face.width));
      assert Reflect(y, face.height, b) == b - 1 - y;
      CompositeIsReflection(face, b, x, y);
    }
  }

  /** The bottom-left bleed corner is the face's bottom-left b x b block turned by 180 degrees. */
  lemma BottomLeftCornerIsTurned(face: Image, b: nat)
    requires b <= face.width && b <= face.height
    ensures forall x: nat, y: nat :: x < b && b + face.height <= y < face.height + 2 * b ==>
      At(Composite(face, b), x, y) == At(face, b - 1 - x, face.height - 1 - (y - (b + face.height)))
  {
    forall x: nat, y: nat | x < b && b + face.height <= y < face.height + 2 * b
      ensures At(Composite(face, b), x, y) == At(face, b - 1 - x, face.height - 1 - (y - (b + face.height)))
    {
      assert Reflect(x, face.width, b) == b - 1 - x;
      assert Reflect(y, face.height, b) == face.height - 1 - (y - (b + face.height));
      CompositeIsReflection(face, b, x, y);
    }
  }

  /** The bottom-right bleed corner is the face's bottom-right b x b block turned by 180 degrees. */
  lemma BottomRightCornerIsTurned(face: Image, b: nat)
    requires b <= face.width && b <= face.height
    ensures forall x: nat, y: nat :: b + face.width <= x < face.width + 2 * b && b + face.height <= y < face.height + 2 * b ==>
      At(Composite(face, b), x, y) == At(face, face.width - 1 - (x - (b + face.width)), face.height - 1 - (y - (b + face.height)))
  {
    forall x: nat, y: nat | b + face.width <= x < face.width + 2 * b && b + face.height <= y < face.height + 2 * b
      ensures At(Composite(face, b), x, y) == At(face, face.width - 1 - (x - (b + face.width)), face.height - 1 - (y - (b + face.height)))
    {
      assert Reflect(x, face.width, b) == face.width - 1 - (x - (b + face.width));
      assert Reflect(y, face.height, b) == face.height - 1 - (y - (b + face.height));
      CompositeIsReflection(face, b, x, y);
    }
  }

  /** A 2-D array holds exactly the pixels of an image (array index [y, x]). */
  ghost predicate Matches(a: array2<Pixel>, img: Image)
    reads a
  {
    a.Length0 == img.height && a.Length1 == img.width &&
    forall y, x :: 0 <= y < img.height && 0 <= x < img.width ==> a[y, x] == At(img, x, y)
  }

  /** canvas.paste(src, (x0, y0)) in place, clipped to the canvas. */
  method PasteInto(canvas: array2<Pixel>, ghost before: Image, src: Image, x0: nat, y0: nat)
    requires Matches(canvas, before)
    modifies canvas
    ensures Matches(canvas, Paste(before, src, x0, y0))
  {
    for j := 0 to src.height
      invariant canvas.Length0 == before.height && canvas.Length1 == before.width
      invariant forall y, x :: 0 <= y < before.height && 0 <= x < before.width ==>
        canvas[y, x] == if InBox(x, y, x0, y0, src.width, j) then At(src, x - x0, y - y0) else At(before, x, y)
    {
      if y0 + j < canvas.Length0 {
        for i := 0 to src.width
          invariant canvas.Length0 == before.height && canvas.Length1 == before.width
          invariant forall y, x :: 0 <= y < before.height && 0 <= x < before.width ==>
            canvas[y, x] ==
              if InBox(x, y, x0, y0, src.width, j) || (y == y0 + j && x0 <= x < x0 + i)
              then At(src, x - x0, y - y0) else At(before, x, y)
        {
          if x0 + i < canvas.Length1 {
            canvas[y0 + j, x0 + i] := At(src, i, j);
          }
        }
      }
    }
  }

  /** The canvas holds Composite's blank canvas with the first k of the nine
      pastes made on it. */
  ghost predicate HoldsFirst(canvas: array2<Pixel>, face: Image, b: nat, k: nat)
    requires b <= face.width && b <= face.height && k <= 9
    reads canvas
  {
    Matches(canvas, PasteAll(Blank(face.width + 2 * b, face.height + 2 * b), Pieces(face, b)[..k]))
  }

  /** Paste k of the nine, made once the first k are. */
  method PasteNext(canvas: array2<Pixel>, ghost face: Image, ghost b: nat, ghost k: nat,
                   src: Image, x0: nat, y0: nat)
    requires b <= face.width && b <= face.height && k < 9
    requires Pieces(face, b)[k] == Piece(src, x0, y0)
    requires HoldsFirst(canvas, face, b, k)
    modifies canvas
    ensures HoldsFirst(canvas, face, b, k + 1)
  {
    ghost var blank := Blank(face.width + 2 * b, face.height + 2 * b);
    PasteInto(canvas, PasteAll(blank, Pieces(face, b)[..k]), src, x0, y0);
    PasteAllSnoc(blank, Pieces(face, b), k);
  }

  /** Lines 37-44: the top and bottom edges, flipped top to bottom. */
  method PasteTopAndBottomEdges(card: array2<Pixel>, face: Image, b: nat)
    requires b <= face.width && b <= face.height
    requires HoldsFirst(card, face, b, 1)
    modifies card
    ensures HoldsFirst(card, face, b, 3)
  {
    var W, H := face.width, face.height;
    var topEdge := Flip(Crop(face, 0, 0, W, b));
    PasteNext(card, face, b, 1, topEdge, b, 0);
    var bottomEdge := Flip(Crop(face, 0, H - b, W, H));
    PasteNext(card, face, b, 2, bottomEdge, b, b + H);
  }

  /** Lines 45-52: the left and right edges, mirrored left to right. */
  method PasteLeftAndRightEdges(card: array2<Pixel>, face: Image, b: nat)
    requires b <= face.width && b <= face.height
    requires HoldsFirst(card, face, b, 3)
    modifies card
    ensures HoldsFirst(card, face, b, 5)
  {
    var W, H := face.width, face.height;
    var leftEdge := Mirror(Crop(face, 0, 0, b, H));
    PasteNext(card, face, b, 3, leftEdge, 0, b);
    var rightEdge := Mirror(Crop(face, W - b, 0, W, H));
    PasteNext(card, face, b, 4, rightEdge, b + W, b);
  }

  /** Lines 54-61: the two top corners, turned by 180 degrees. */
  method PasteTopCorners(card: array2<Pixel>, face: Image, b: nat)
    requires b <= face.width && b <= face.height
    requires HoldsFirst(card, face, b, 5)
    modifies card
    ensures HoldsFirst(card, face, b, 7)
  {
    var W, H := face.width, face.height;
    var tlCorner := Rotate180(Crop(face, 0, 0, b, b));
    PasteNext(card, face, b, 5, tlCorner, 0, 0);
    var trCorner := Rotate180(Crop(face, W - b, 0, W, b));
    PasteNext(card, face, b, 6, trCorner, b + W, 0);
  }

  /** Lines 62-69: the two bottom corners, turned by 180 degrees. */
  method PasteBottomCorners(card: array2<Pixel>, face: Image, b: nat)
    requires b <= face.width && b <= face.height
    requires HoldsFirst(card, face, b, 7)
    modifies card
    ensures HoldsFirst(card, face, b, 9)
  {
    var W, H := face.width, face.height;
    var blCorner := Rotate180(Crop(face, 0, H - b, b, H));
    PasteNext(card, face, b, 7, blCorner, 0, b + H);
    var brCorner := Rotate180(Crop(face, W - b, H - b, W, H));
    PasteNext(card, face, b, 8, brCorner, b + W, b + H);
  }

  lemma NothingPastedYet(canvas: array2<Pixel>, face: Image, b: nat)
    requires b <= face.width && b <= face.height
    requires canvas.Length0 == face.height + 2 * b && canvas.Length1 == face.width + 2 * b
    requires forall y, x :: 0 <= y < canvas.Length0 && 0 <= x < canvas.Length1 ==> canvas[y, x] == Background
    ensures HoldsFirst(canvas, face, b, 0)
  {
    assert Pieces(face, b)[..0] == [];
  }

  lemma AllNinePasted(canvas: array2<Pixel>, face: Image, b: nat)
    requires b <= face.width && b <= face.height
    requires HoldsFirst(canvas, face, b, 9)
    ensures Matches(canvas, Composite(face, b))
  {
    assert Pieces(face, b)[..9] == Pieces(face, b);
  }

  /** Lines 28-69 of create_card_with_bleed: allocate the bled canvas and make
      the nine pastes into it; the result holds exactly Composite's pixels. */
  method CompositeInto(face: Image, b: nat) returns (card: array2<Pixel>)
    requires b <= face.width && b <= face.height
    ensures fresh(card)
    ensures Matches(card, Composite(face, b))
  {
    var W, H := face.width, face.height;
    card := new Pixel[H + 2 * b, W + 2 * b]((_, _) => Background);
    NothingPastedYet(card, face, b);
    PasteNext(card, face, b, 0, face, b, b);
    PasteTopAndBottomEdges(card, face, b);
    PasteLeftAndRightEdges(card, face, b);
    PasteTopCorners(card, face, b);
    PasteBottomCorners(card, face, b);
    AllNinePasted(card, face, b);
  }

  /** create_card_with_bleed: convert the sizes to pixels, resize the face,
      then composite; the result holds exactly CardWithBleed's pixels. */
  method CreateCardWithBleed(faceImage: Image, resize: Resampler, cardWidth: nat, cardHeight: nat, bleedSize: nat)
    returns (card: array2<Pixel>)
    requires Resizes(resize)
    requires MmToPx(bleedSize) <= MmToPx(cardWidth) && MmToPx(bleedSize) <= MmToPx(cardHeight)
    ensures fresh(card)
    ensures Matches(card, CardWithBleed(faceImage, resize, cardWidth, cardHeight, bleedSize))
  {
    var cardWidthPx, cardHeightPx, bleedSizePx := MmToPx(cardWidth), MmToPx(cardHeight), MmToPx(bleedSize);
    var face := resize(faceImage, cardWidthPx, cardHeightPx);
    card := CompositeInto(face, bleedSizePx);
  }
}
