/**
 * Bitmaps as the GD image library holds them: a picture value (what a codec
 * decodes or encodes) and the mutable image object whose pixel buffer the
 * drawing calls used by imageCanvasResize change in place.
 */
module Raster {
  import opened Wrappers

  /** A colour as GD resolves it (palette indices are not modelled). */
  datatype Colour = Rgb(red: bv8, green: bv8, blue: bv8)

  /** The colour imageCanvasResize allocates for its background. */
  const Black: Colour := Rgb(0, 0, 0)

  /**
   * A picture: its size, whether it is true-colour (24 bit) or palette based,
   * its transparent colour if one is flagged, and its pixels column by column
   * (pixels[x][y]).
   */
  datatype Picture = Picture(
    width: nat,
    height: nat,
    trueColour: bool,
    transparent: Option<Colour>,
    pixels: seq<seq<Colour>>)
  {
    predicate Valid() {
      |pixels| == width && forall x :: 0 <= x < width ==> |pixels[x]| == height
    }
  }

  type Bitmap = p: Picture | p.Valid() witness Picture(0, 0, true, None, [])

  /** The four paddings after sanitising. */
  datatype Margins = Margins(top: nat, left: nat, bottom: nat, right: nat)

  /** A requested padding: negative amounts become zero, others are kept. */
  function Sanitize(amount: int): (r: nat)
    ensures amount >= 0 ==> r == amount
    ensures amount < 0 ==> r == 0
    ensures r >= amount
  {
    if amount < 0 then 0 else amount
  }

  function SanitizeMargins(top: int, left: int, bottom: int, right: int): Margins {
    Margins(Sanitize(top), Sanitize(left), Sanitize(bottom), Sanitize(right))
  }

  /** (x, y) lies in the w by h block whose top left pixel is (x0, y0). */
  predicate InBlock(x: int, y: int, x0: int, y0: int, w: nat, h: nat) {
    x0 <= x < x0 + w && y0 <= y < y0 + h
  }

  /** The source occupies the block of its own size at (left, top). */
  predicate InSource(src: Bitmap, m: Margins, x: int, y: int) {
    InBlock(x, y, m.left, m.top, src.width, src.height)
  }

  /**
   * The padded canvas: the source framed by the margins, the frame in the
   * background colour, which is also the canvas's transparent colour.
   */
  function Pad(src: Bitmap, m: Margins, bg: Colour): (dst: Bitmap)
    ensures dst.width == src.width + m.left + m.right && dst.height == src.height + m.top + m.bottom
    ensures dst.width >= src.width && dst.height >= src.height
    ensures dst.trueColour == src.trueColour && dst.transparent == Some(bg)
    ensures forall x, y :: 0 <= x < src.width && 0 <= y < src.height ==>
      dst.pixels[x + m.left][y + m.top] == src.pixels[x][y]
    ensures forall x, y :: 0 <= x < dst.width && 0 <= y < dst.height && !InSource(src, m, x, y) ==>
      dst.pixels[x][y] == bg
  {
    var w := src.width + m.left + m.right;
    var h := src.height + m.top + m.bottom;
    Picture(w, h, src.trueColour, Some(bg),
      seq(w, x requires 0 <= x < w => PadColumn(src, m, bg, x, h)))
  }

  function PadColumn(src: Bitmap, m: Margins, bg: Colour, x: nat, h: nat): (c: seq<Colour>)
    ensures |c| == h
  {
    seq(h, y requires 0 <= y < h =>
      if InSource(src, m, x, y) then src.pixels[x - m.left][y - m.top] else bg)
  }

  function Min(a: int, b: int): int { if a <= b then a else b }
  function Max(a: int, b: int): int { if a <= b then b else a }

  /** (x, y) lies in the rectangle spanned by the corners (x1, y1) and (x2, y2). */
  predicate InRectangle(x: int, y: int, x1: int, y1: int, x2: int, y2: int) {
    Min(x1, x2) <= x <= Max(x1, x2) && Min(y1, y2) <= y <= Max(y1, y2)
  }

  /** A GD image: a fixed pixel buffer plus its colour mode and transparent colour. */
  class Image {
    const trueColour: bool
    const pixels: array2<Colour>
    var transparent: Option<Colour>

    function Width(): nat { pixels.Length0 }
    function Height(): nat { pixels.Length1 }

    ghost function Column(x: nat): (c: seq<Colour>)
      requires x < Width()
      reads pixels
      ensures |c| == Height() && forall y :: 0 <= y < Height() ==> c[y] == pixels[x, y]
    {
      seq(Height(), y requires 0 <= y < Height() reads pixels => pixels[x, y])
    }

    /** The picture this image currently shows. */
    ghost function View(): (b: Bitmap)
      reads this, pixels
      ensures b.width == Width() && b.height == Height()
      ensures b.trueColour == trueColour && b.transparent == transparent
      ensures forall x, y :: 0 <= x < Width() && 0 <= y < Height() ==> b.pixels[x][y] == pixels[x, y]
    {
      Picture(Width(), Height(), trueColour, transparent,
        seq(Width(), x requires 0 <= x < Width() reads pixels => Column(x)))
    }

    /** Pixel by pixel agreement with a picture determines the view. */
    lemma ShowsIsView(b: Bitmap)
      requires Width() == b.width && Height() == b.height
      requires trueColour == b.trueColour && transparent == b.transparent
      requires forall x, y :: 0 <= x < b.width && 0 <= y < b.height ==> pixels[x, y] == b.pixels[x][y]
      ensures View() == b
    {
      var v := View();
      forall x | 0 <= x < Width() ensures v.pixels[x] == b.pixels[x] {
        assert forall y :: 0 <= y < Height() ==> v.pixels[x][y] == b.pixels[x][y];
      }
      assert v.pixels == b.pixels;
    }

    /** imagecreatetruecolor / imagecreate: a new image of the given size and mode. */
    constructor (width: nat, height: nat, trueColour: bool)
      ensures Width() == width && Height() == height
      ensures this.trueColour == trueColour && transparent == None
      ensures fresh(pixels)
    {
      this.trueColour := trueColour;
      pixels := new Colour[width, height];
      transparent := None;
    }

    /** The image a loader (imagecreatefromjpeg, ...gif, ...png) builds from a decoded picture. */
    constructor FromBitmap(b: Bitmap)
      ensures fresh(pixels) && View() == b
    {
      trueColour := b.trueColour;
      pixels := new Colour[b.width, b.height];
      transparent := b.transparent;
      new;
      var x := 0;
      while x < b.width
        invariant 0 <= x <= b.width && transparent == b.transparent
        invariant forall i, j :: 0 <= i < x && 0 <= j < b.height ==> pixels[i, j] == b.pixels[i][j]
      {
        var y := 0;
        while y < b.height
          invariant 0 <= y <= b.height && transparent == b.transparent
          invariant forall i, j :: 0 <= i < x && 0 <= j < b.height ==> pixels[i, j] == b.pixels[i][j]
          invariant forall j :: 0 <= j < y ==> pixels[x, j] == b.pixels[x][j]
        {
          pixels[x, y] := b.pixels[x][y];
          y := y + 1;
        }
        x := x + 1;
      }
      ShowsIsView(b);
    }

    /** imagecolortransparent: flags a colour as transparent and returns it. */
    method SetTransparent(colour: Colour) returns (r: Colour)
      modifies this
      ensures transparent == Some(colour) && r == colour
    {
      transparent := Some(colour);
      r := colour;
    }

    /**
     * imagefilledrectangle: every pixel of the rectangle with corners (x1, y1)
     * and (x2, y2), clipped to the image, takes the colour; the rest is kept.
     */
    method FillRectangle(x1: int, y1: int, x2: int, y2: int, colour: Colour)
      modifies pixels
      ensures forall x, y :: 0 <= x < Width() && 0 <= y < Height() ==>
        pixels[x, y] == if InRectangle(x, y, x1, y1, x2, y2) then colour else old(pixels[x, y])
    {
      var xLo, xHi := Max(Min(x1, x2), 0), Min(Max(x1, x2), Width() - 1);
      var yLo, yHi := Max(Min(y1, y2), 0), Min(Max(y1, y2), Height() - 1);
      var x := xLo;
      while x <= xHi
        invariant xLo <= x <= Max(xLo, xHi + 1)
        invariant forall i, j :: 0 <= i < Width() && 0 <= j < Height() ==>
          pixels[i, j] == if xLo <= i < x && yLo <= j <= yHi then colour else old(pixels[i, j])
      {
        var y := yLo;
        while y <= yHi
          invariant yLo <= y <= Max(yLo, yHi + 1)
          invariant forall i, j :: 0 <= i < Width() && 0 <= j < Height() ==>
            pixels[i, j] == if (xLo <= i < x && yLo <= j <= yHi) || (i == x && yLo <= j < y) then colour else old(pixels[i, j])
        {
          pixels[x, y] := colour;
          y := y + 1;
        }
        x := x + 1;
      }
    }

    /**
     * imagecopy of the whole of src to (dstX, dstY): every source pixel lands
     * at its offset position, every other pixel is kept.
     */
    method CopyFrom(src: Image, dstX: nat, dstY: nat)
      requires src.pixels != pixels
      requires dstX + src.Width() <= Width() && dstY + src.Height() <= Height()
      modifies pixels
      ensures forall x, y :: 0 <= x < src.Width() && 0 <= y < src.Height() ==>
        pixels[dstX + x, dstY + y] == src.pixels[x, y]
      ensures forall x, y :: 0 <= x < Width() && 0 <= y < Height() && !InBlock(x, y, dstX, dstY, src.Width(), src.Height()) ==>
        pixels[x, y] == old(pixels[x, y])
    {
      var x := 0;
      while x < src.Width()
        invariant 0 <= x <= src.Width()
        invariant forall i, j :: 0 <= i < x && 0 <= j < src.Height() ==> pixels[dstX + i, dstY + j] == src.pixels[i, j]
        invariant forall i, j :: (0 <= i < Width() && 0 <= j < Height() && !(dstX <= i < dstX + x && dstY <= j < dstY + src.Height())) ==>
          pixels[i, j] == old(pixels[i, j])
      {
        var y := 0;
        while y < src.Height()
          invariant 0 <= y <= src.Height()
          invariant forall i, j :: 0 <= i < x && 0 <= j < src.Height() ==> pixels[dstX + i, dstY + j] == src.pixels[i, j]
          invariant forall j :: 0 <= j < y ==> pixels[dstX + x, dstY + j] == src.pixels[x, j]
          invariant forall i, j :: (0 <= i < Width() && 0 <= j < Height()
            && !(dstX <= i < dstX + x && dstY <= j < dstY + src.Height())
            && !(i == dstX + x && dstY <= j < dstY + y)) ==>
            pixels[i, j] == old(pixels[i, j])
        {
          pixels[dstX + x, dstY + y] := src.pixels[x, y];
          y := y + 1;
        }
        x := x + 1;
      }
    }

    /** What imagepng reads out of the image: exactly the picture it shows. */
    method Snapshot() returns (b: Bitmap)
      ensures b == View()
    {
      var cols: seq<seq<Colour>> := [];
      var x := 0;
      while x < Width()
        invariant 0 <= x <= Width() && |cols| == x
        invariant forall i :: 0 <= i < x ==> cols[i] == Column(i)
      {
        var col: seq<Colour> := [];
        var y := 0;
        while y < Height()
          invariant 0 <= y <= Height() && |col| == y
          invariant forall j :: 0 <= j < y ==> col[j] == pixels[x, j]
        {
          col := col + [pixels[x, y]];
          y := y + 1;
        }
        cols := cols + [col];
        x := x + 1;
      }
      b := Picture(Width(), Height(), trueColour, transparent, cols);
      ShowsIsView(b);
    }
  }
}
