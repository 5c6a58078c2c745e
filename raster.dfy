/** Raster images and the handful of PIL operations the bleed compositor uses:
    allocation, crop, vertical flip, horizontal mirror, 180-degree rotation
    and paste. Coordinates follow PIL: x is the column, y the row, (0, 0) is
    the top-left pixel. */
module Raster {

  /** One pixel of an RGB image (after PIL's convert('RGB')). */
  datatype Pixel = Rgb(red: bv8, green: bv8, blue: bv8)

  /** The fill of a freshly allocated RGB image: Image.new('RGB', size) is black. */
  const Background: Pixel := Rgb(0, 0, 0)

  /** A picture stores its rows top to bottom; rows[y][x] is the pixel at (x, y). */
  datatype Picture = Picture(width: nat, height: nat, rows: seq<seq<Pixel>>)

  predicate Rectangular(p: Picture) {
    |p.rows| == p.height && forall y :: 0 <= y < |p.rows| ==> |p.rows[y]| == p.width
  }

  /** A well-formed image: exactly height rows of exactly width pixels. */
  type Image = p: Picture | Rectangular(p) witness Picture(0, 0, [])

  function At(img: Image, x: nat, y: nat): Pixel
    requires x < img.width && y < img.height
  {
    img.rows[y][x]
  }

  /** The pixel at (x, y), or the background where (x, y) lies outside the image. */
  function PixelOr(img: Image, x: nat, y: nat): Pixel {
    if x < img.width && y < img.height then img.rows[y][x] else Background
  }

  /** Image.new('RGB', (w, h)). */
  function Blank(w: nat, h: nat): (r: Image)
    ensures r.width == w && r.height == h
    ensures forall x: nat, y: nat :: x < w && y < h ==> At(r, x, y) == Background
  {
    Picture(w, h, seq(h, _ => seq(w, _ => Background)))
  }

  /** img.crop((left, top, right, bottom)): the box's pixels, with parts of the
      box outside the image filled with the background as PIL does. */
  function Crop(img: Image, left: nat, top: nat, right: nat, bottom: nat): (r: Image)
    requires left <= right && top <= bottom
    ensures r.width == right - left && r.height == bottom - top
    ensures forall x: nat, y: nat :: x < r.width && y < r.height ==>
      At(r, x, y) == PixelOr(img, left + x, top + y)
  {
    var w, h := right - left, bottom - top;
    var rows := seq(h, (j: int) requires 0 <= j < h =>
      seq(w, (i: int) requires 0 <= i < w => PixelOr(img, left + i, top + j)));
    assert forall j :: 0 <= j < h ==> |rows[j]| == w;
    Picture(w, h, rows)
  }

  /** ImageOps.flip: top to bottom. */
  function Flip(img: Image): (r: Image)
    ensures r.width == img.width && r.height == img.height
    ensures forall x: nat, y: nat :: x < r.width && y < r.height ==>
      At(r, x, y) == At(img, x, img.height - 1 - y)
  {
    Picture(img.width, img.height, seq(img.height, (j: int) requires 0 <= j < img.height => img.rows[img.height - 1 - j]))
  }

  /** ImageOps.mirror: left to right. */
  function Mirror(img: Image): (r: Image)
    ensures r.width == img.width && r.height == img.height
    ensures forall x: nat, y: nat :: x < r.width && y < r.height ==>
      At(r, x, y) == At(img, img.width - 1 - x, y)
  {
    Picture(img.width, img.height,
      seq(img.height, (j: int) requires 0 <= j < img.height =>
        seq(img.width, (i: int) requires 0 <= i < img.width => img.rows[j][img.width - 1 - i])))
  }

  /** img.transpose(Image.ROTATE_180). */
  function Rotate180(img: Image): (r: Image)
    ensures r.width == img.width && r.height == img.height
    ensures forall x: nat, y: nat :: x < r.width && y < r.height ==>
      At(r, x, y) == At(img, img.width - 1 - x, img.height - 1 - y)
  {
    Picture(img.width, img.height,
      seq(img.height, (j: int) requires 0 <= j < img.height =>
        seq(img.width, (i: int) requires 0 <= i < img.width => img.rows[img.height - 1 - j][img.width - 1 - i])))
  }

  /** True when (x, y) lies in the w-by-h box whose top-left corner is (x0, y0). */
  predicate InBox(x: nat, y: nat, x0: nat, y0: nat, w: nat, h: nat) {
    x0 <= x < x0 + w && y0 <= y < y0 + h
  }

  /** canvas.paste(src, (x0, y0)): src replaces the canvas where they overlap;
      the part of src that falls outside the canvas is clipped. */
  function Paste(canvas: Image, src: Image, x0: nat, y0: nat): (r: Image)
    ensures r.width == canvas.width && r.height == canvas.height
    ensures forall x: nat, y: nat :: x < r.width && y < r.height ==>
      At(r, x, y) == if InBox(x, y, x0, y0, src.width, src.height)
                     then At(src, x - x0, y - y0) else At(canvas, x, y)
  {
    Picture(canvas.width, canvas.height,
      seq(canvas.height, (y: int) requires 0 <= y < canvas.height =>
        seq(canvas.width, (x: int) requires 0 <= x < canvas.width =>
          if InBox(x, y, x0, y0, src.width, src.height)
          then src.rows[y - y0][x - x0] else canvas.rows[y][x])))
  }

  /** Two images with the same size and the same pixels are the same image. */
  lemma {:induction false} Extensionality(a: Image, b: Image)
    requires a.width == b.width && a.height == b.height
    requires forall x: nat, y: nat :: x < a.width && y < a.height ==> At(a, x, y) == At(b, x, y)
    ensures a == b
  {
    forall y | 0 <= y < a.height
      ensures a.rows[y] == b.rows[y]
    {
      forall x | 0 <= x < a.width
        ensures a.rows[y][x] == b.rows[y][x]
      {
        assert At(a, x, y) == At(b, x, y);
      }
    }
  }

  /** Flipping twice gives back the image. */
  lemma FlipInvolution(img: Image)
    ensures Flip(Flip(img)) == img
  {
    Extensionality(Flip(Flip(img)), img);
  }

  /** Mirroring twice gives back the image. */
  lemma MirrorInvolution(img: Image)
    ensures Mirror(Mirror(img)) == img
  {
    Extensionality(Mirror(Mirror(img)), img);
  }

  /** A half-turn is a flip and a mirror, in either order. */
  lemma Rotate180IsFlipAndMirror(img: Image)
    ensures Rotate180(img) == Flip(Mirror(img)) == Mirror(Flip(img))
  {
    Extensionality(Rotate180(img), Flip(Mirror(img)));
    Extensionality(Rotate180(img), Mirror(Flip(img)));
  }

  /** One paste of a sequence: the pasted image and the canvas position of its top-left corner. */
  datatype Piece = Piece(img: Image, x0: nat, y0: nat)

  predicate Covers(p: Piece, x: nat, y: nat) {
    InBox(x, y, p.x0, p.y0, p.img.width, p.img.height)
  }

  /** The pixel piece p shows at canvas position (x, y), which it covers. */
  function Shown(p: Piece, x: nat, y: nat): Pixel
    requires Covers(p, x, y)
  {
    At(p.img, x - p.x0, y - p.y0)
  }

  /** The canvas after pasting each piece in turn, first to last. */
  function PasteAll(canvas: Image, pieces: seq<Piece>): (r: Image)
    ensures r.width == canvas.width && r.height == canvas.height
    decreases |pieces|
  {
    if pieces == [] then canvas
    else
      var last := pieces[|pieces| - 1];
      Paste(PasteAll(canvas, pieces[..|pieces| - 1]), last.img, last.x0, last.y0)
  }

  lemma PasteAllSnoc(canvas: Image, pieces: seq<Piece>, k: nat)
    requires k < |pieces|
    ensures PasteAll(canvas, pieces[..k + 1]) ==
            Paste(PasteAll(canvas, pieces[..k]), pieces[k].img, pieces[k].x0, pieces[k].y0)
  {
    assert pieces[..k + 1][..k] == pieces[..k];
  }

  /** A pixel that no piece covers keeps its canvas value. */
  lemma {:induction false} PasteAllUncovered(canvas: Image, pieces: seq<Piece>, x: nat, y: nat)
    requires x < canvas.width && y < canvas.height
    requires forall k :: 0 <= k < |pieces| ==> !Covers(pieces[k], x, y)
    ensures At(PasteAll(canvas, pieces), x, y) == At(canvas, x, y)
    decreases |pieces|
  {
    if pieces != [] {
      var n := |pieces| - 1;
      assert !Covers(pieces[n], x, y);
      PasteAllUncovered(canvas, pieces[..n], x, y);
    }
  }

  /** The last piece that covers a pixel decides it. */
  lemma {:induction false} PasteAllLastWins(canvas: Image, pieces: seq<Piece>, k: nat, x: nat, y: nat)
    requires x < canvas.width && y < canvas.height
    requires k < |pieces| && Covers(pieces[k], x, y)
    requires forall j :: k < j < |pieces| ==> !Covers(pieces[j], x, y)
    ensures At(PasteAll(canvas, pieces), x, y) == Shown(pieces[k], x, y)
    decreases |pieces|
  {
    var n := |pieces| - 1;
    if k < n {
      assert !Covers(pieces[n], x, y);
      PasteAllLastWins(canvas, pieces[..n], k, x, y);
    }
  }

  /** Some piece covers (x, y), and every piece covering it shows v there. */
  ghost predicate ShowsAt(pieces: seq<Piece>, x: nat, y: nat, v: Pixel) {
    (exists k :: 0 <= k < |pieces| && Covers(pieces[k], x, y)) &&
    forall k :: 0 <= k < |pieces| && Covers(pieces[k], x, y) ==> Shown(pieces[k], x, y) == v
  }

  /** A pixel that some piece covers shows v when every piece covering it shows v. */
  lemma {:induction false} PasteAllAgree(canvas: Image, pieces: seq<Piece>, v: Pixel, x: nat, y: nat)
    requires x < canvas.width && y < canvas.height
    requires ShowsAt(pieces, x, y, v)
    ensures At(PasteAll(canvas, pieces), x, y) == v
    decreases |pieces|
  {
    var n := |pieces| - 1;
    if !Covers(pieces[n], x, y) {
      var k :| 0 <= k < |pieces| && Covers(pieces[k], x, y);
      assert pieces[..n][k] == pieces[k];
      PasteAllAgree(canvas, pieces[..n], v, x, y);
    }
  }
}
