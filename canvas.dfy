/**
 * imageCanvasResize: open the source (an image object, or a path whose type is
 * detected from its first bytes), sanitise the paddings, allocate a canvas in
 * the source's colour mode, fill it with black flagged transparent, and copy
 * the source in at (left, top). Every failure returns FALSE (here None).
 */
module Canvas {
  import opened Wrappers
  import opened Sniffer
  import opened Raster

  /** A file on disk: raw bytes, or a PNG written by the encoder. */
  datatype File = Raw(bytes: seq<bv8>) | Encoded(picture: Bitmap)

  /** The eight bytes every PNG file starts with. */
  const PngFileSignature: seq<bv8> := [0x89, 0x50, 0x4E, 0x47, 0x0D, 0x0A, 0x1A, 0x0A]

  /** The leading bytes of a file, the part the type detection looks at. */
  function Header(f: File): seq<bv8> {
    match f
    case Raw(bytes) => bytes
    case Encoded(_) => PngFileSignature
  }

  /**
   * The parts of GD that are not modelled: the three loaders (a format and a
   * file give a picture or fail) and whether a canvas of a size can be
   * allocated (memory limits).
   */
  datatype Codecs = Codecs(decode: (Format, File) -> Option<Bitmap>, fits: (nat, nat) -> bool)

  /**
   * Type detection followed by the matching loader, for the contents of one
   * file: a JPEG, GIF or PNG magic prefix sends the file to that loader, and
   * a file with none of them is not decoded at all.
   */
  function Decode(f: File, codecs: Codecs): (r: Option<Bitmap>)
    ensures IsJpeg(Header(f)) ==> r == codecs.decode(Jpeg, f)
    ensures IsGif(Header(f)) ==> r == codecs.decode(Gif, f)
    ensures IsPng(Header(f)) ==> r == codecs.decode(Png, f)
    ensures !IsJpeg(Header(f)) && !IsGif(Header(f)) && !IsPng(Header(f)) ==> r.None?
  {
    match Sniff(Header(f))
    case None => None
    case Some(format) => codecs.decode(format, f)
  }

  /**
   * The path branch of imageCanvasResize: a path that is not a file fails;
   * a file goes to the loader its magic prefix selects, or fails without one.
   */
  function Load(files: map<string, File>, path: string, codecs: Codecs): (r: Option<Bitmap>)
    ensures path !in files ==> r.None?
    ensures path in files && IsJpeg(Header(files[path])) ==> r == codecs.decode(Jpeg, files[path])
    ensures path in files && IsGif(Header(files[path])) ==> r == codecs.decode(Gif, files[path])
    ensures path in files && IsPng(Header(files[path])) ==> r == codecs.decode(Png, files[path])
    ensures path in files && !IsJpeg(Header(files[path])) && !IsGif(Header(files[path])) && !IsPng(Header(files[path])) ==>
      r.None?
  {
    if path in files then Decode(files[path], codecs) else None
  }

  /** GD refuses an empty canvas; beyond that the allocation oracle decides. */
  predicate Allocates(codecs: Codecs, w: nat, h: nat) {
    w > 0 && h > 0 && codecs.fits(w, h)
  }

  /**
   * The canvas imageCanvasResize returns for an opened source, or None when
   * the canvas cannot be allocated.
   */
  function Compose(src: Bitmap, top: int, left: int, bottom: int, right: int, codecs: Codecs): (r: Option<Bitmap>)
    ensures var m := SanitizeMargins(top, left, bottom, right);
      r.Some? <==> Allocates(codecs, src.width + m.left + m.right, src.height + m.top + m.bottom)
    ensures r.Some? ==> r.value.width == src.width + Sanitize(left) + Sanitize(right)
    ensures r.Some? ==> r.value.height == src.height + Sanitize(top) + Sanitize(bottom)
    ensures r.Some? ==> r.value.trueColour == src.trueColour && r.value.transparent == Some(Black)
    ensures r.Some? ==> r.value == Pad(src, SanitizeMargins(top, left, bottom, right), Black)
  {
    var m := SanitizeMargins(top, left, bottom, right);
    if Allocates(codecs, src.width + m.left + m.right, src.height + m.top + m.bottom)
    then Some(Pad(src, m, Black))
    else None
  }

  /**
   * imageCanvasResize on a path: a canvas comes back exactly when the file
   * loads and the padded size can be allocated, and it is the loaded picture
   * padded with black.
   */
  function ResizeFromPath(files: map<string, File>, path: string, top: int, left: int, bottom: int, right: int, codecs: Codecs): (r: Option<Bitmap>)
    ensures var m := SanitizeMargins(top, left, bottom, right);
      r.Some? <==> (Load(files, path, codecs).Some?
        && Allocates(codecs, Load(files, path, codecs).value.width + m.left + m.right,
                     Load(files, path, codecs).value.height + m.top + m.bottom))
    ensures r.Some? ==> r.value == Pad(Load(files, path, codecs).value, SanitizeMargins(top, left, bottom, right), Black)
  {
    match Load(files, path, codecs)
    case None => None
    case Some(src) => Compose(src, top, left, bottom, right, codecs)
  }

  /** What the first argument of imageCanvasResize can be. */
  datatype Source = Resource(image: Image) | Path(path: string) | Neither

  /**
   * The canvas as an image object. For a path the result is ResizeFromPath;
   * for an image object it is Compose of what that image shows, and the
   * image itself is not changed.
   */
  method ImageCanvasResize(files: map<string, File>, source: Source, top: int, left: int, bottom: int, right: int, codecs: Codecs)
    returns (r: Option<Image>)
    ensures source.Neither? ==> r.None?
    ensures source.Path? ==> (r.None? <==> ResizeFromPath(files, source.path, top, left, bottom, right, codecs).None?)
    ensures source.Path? && r.Some? ==>
      fresh(r.value.pixels) && r.value.View() == ResizeFromPath(files, source.path, top, left, bottom, right, codecs).value
    ensures source.Resource? ==> (r.None? <==> Compose(source.image.View(), top, left, bottom, right, codecs).None?)
    ensures source.Resource? && r.Some? ==>
      fresh(r.value.pixels) && r.value.View() == Compose(source.image.View(), top, left, bottom, right, codecs).value
  {
    var src: Image;
    if source.Neither? {
      return None;
    } else if source.Resource? {
      src := source.image;
    } else {
      var path := source.path;
      if path !in files {
        return None;
      }
      var format := Sniff(Header(files[path]));
      if format.None? {
        return None;
      }
      var decoded := codecs.decode(format.value, files[path]);
      if decoded.None? {
        return None;
      }
      src := new Image.FromBitmap(decoded.value);
    }
    r := ComposeImage(src, top, left, bottom, right, codecs);
  }

  /**
   * The padding step of imageCanvasResize on an opened source image: allocate
   * a canvas in the source's colour mode, fill it with black flagged
   * transparent, and copy the source in at (left, top).
   */
  method ComposeImage(src: Image, top: int, left: int, bottom: int, right: int, codecs: Codecs)
    returns (r: Option<Image>)
    ensures r.None? <==> Compose(src.View(), top, left, bottom, right, codecs).None?
    ensures r.Some? ==> fresh(r.value.pixels) && r.value.View() == Compose(src.View(), top, left, bottom, right, codecs).value
  {
    // 24 bit RGB or 8 bit palette: the canvas is allocated in the same mode
    var trueColour := src.trueColour;
    var m := SanitizeMargins(top, left, bottom, right);
    var dstWidth := src.Width() + m.left + m.right;
    var dstHeight := src.Height() + m.top + m.bottom;
    if !Allocates(codecs, dstWidth, dstHeight) {
      return None;
    }
    ghost var srcView := src.View();
    var dst := new Image(dstWidth, dstHeight, trueColour);
    var bg := dst.SetTransparent(Black);
    dst.FillRectangle(0, 0, dstWidth - 1, dstHeight - 1, bg);
    assert forall x, y :: 0 <= x < dstWidth && 0 <= y < dstHeight ==> dst.pixels[x, y] == Black;
    dst.CopyFrom(src, m.left, m.top);
    assert src.View() == srcView;
    FramedIsPad(dst, src, m);
    r := Some(dst);
  }

  /** A canvas filled with black and then given the source at (left, top) shows Pad. */
  lemma FramedIsPad(dst: Image, src: Image, m: Margins)
    requires dst.Width() == src.Width() + m.left + m.right && dst.Height() == src.Height() + m.top + m.bottom
    requires dst.trueColour == src.trueColour && dst.transparent == Some(Black)
    requires forall x, y :: 0 <= x < src.Width() && 0 <= y < src.Height() ==>
      dst.pixels[m.left + x, m.top + y] == src.pixels[x, y]
    requires forall x, y :: (0 <= x < dst.Width() && 0 <= y < dst.Height()
      && !InBlock(x, y, m.left, m.top, src.Width(), src.Height())) ==> dst.pixels[x, y] == Black
    ensures dst.View() == Pad(src.View(), m, Black)
  {
    var srcView := src.View();
    var padded := Pad(srcView, m, Black);
    forall x, y | 0 <= x < dst.Width() && 0 <= y < dst.Height()
      ensures dst.pixels[x, y] == padded.pixels[x][y]
    {
      if InSource(srcView, m, x, y) {
        var sx, sy := x - m.left, y - m.top;
        assert dst.pixels[m.left + sx, m.top + sy] == src.pixels[sx, sy];
        assert srcView.pixels[sx][sy] == src.pixels[sx, sy];
      }
      PadPixel(srcView, m, x, y, dst.pixels[x, y]);
    }
    dst.ShowsIsView(padded);
  }

  /** One pixel of the padded picture: the shifted source pixel inside the block, black outside it. */
  lemma PadPixel(src: Bitmap, m: Margins, x: nat, y: nat, c: Colour)
    requires x < src.width + m.left + m.right && y < src.height + m.top + m.bottom
    requires InSource(src, m, x, y) ==> c == src.pixels[x - m.left][y - m.top]
    requires !InSource(src, m, x, y) ==> c == Black
    ensures Pad(src, m, Black).pixels[x][y] == c
  {
    if InSource(src, m, x, y) {
      var sx, sy := x - m.left, y - m.top;
      assert Pad(src, m, Black).pixels[sx + m.left][sy + m.top] == src.pixels[sx][sy];
    }
  }
}
