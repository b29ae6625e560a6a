/**
 * The cover cache: checkCover / checkingCovers look for images/<name>.png and
 * on a miss call downloadCover, which probes the cover URL (urlExists), saves
 * the payload to images/<name>.jpg, lets resizeImageAndConvertToPNG pad it by
 * 18 pixels left and right and write images/<name>.png, then deletes the .jpg.
 */
module Covers {
  import opened Wrappers
  import opened Raster
  import opened Canvas

  /**
   * The remote side: the header lines get_headers returns for a URL (None when
   * the request fails) and the bytes a read of the URL yields (empty when it
   * fails).
   */
  datatype Network = Network(headers: string -> Option<seq<string>>, fetch: string -> seq<bv8>)

  const Placeholder: string := "icon.png"
  const NotFoundLine: string := "HTTP/1.1 404 Not Found"

  /** Where the downloaded payload is kept while it is converted. */
  function TempPath(name: string): string { "images/" + name + ".jpg" }

  /**
   * The cached cover of an already url-encoded name; checkCover and
   * resizeImageAndConvertToPNG compute the same path. It is never the
   * temporary file nor the placeholder.
   */
  function CoverPath(name: string): (p: string)
    ensures p != TempPath(name) && p != Placeholder
  {
    var p := "images/" + name + ".png";
    var k := |"images/"| + |name| + 1;
    assert p[k] == 'p' && TempPath(name)[k] == 'j';
    assert p[1] == 'm' && Placeholder[1] == 'c';
    p
  }

  function CoverUrl(name: string): string {
    "http://static-cdn.jtvnw.net/ttv-boxart/" + name + "-92x128.jpg"
  }

  /**
   * $file_headers[0]: the first header line, or PHP null when get_headers
   * failed (false) or returned no lines.
   */
  function FirstLine(headers: Option<seq<string>>): Option<string> {
    if headers.Some? && |headers.value| > 0 then Some(headers.value[0]) else None
  }

  /**
   * urlExists: a URL is missing only when the first header line is exactly
   * the HTTP/1.1 404 status line; a failed request, an empty answer or any
   * other status counts as existing.
   */
  function UrlExists(headers: Option<seq<string>>): (r: bool)
    ensures !r <==> headers.Some? && |headers.value| > 0 && headers.value[0] == NotFoundLine
    ensures headers.None? ==> r
  {
    FirstLine(headers) != Some(NotFoundLine)
  }

  /**
   * The cover made from a downloaded payload: decoded by its detected type and
   * padded with top 0, left 18, bottom 0 and right 18 pixels. There is one
   * exactly when the payload decodes and the wider canvas can be allocated;
   * it is 36 pixels wider than the source and as high, its 18 columns on each
   * side are black, and the source sits between them.
   */
  function NormalisedCover(payload: seq<bv8>, codecs: Codecs): (r: Option<Bitmap>)
    ensures r.Some? <==> (Decode(Raw(payload), codecs).Some?
      && Allocates(codecs, Decode(Raw(payload), codecs).value.width + 36, Decode(Raw(payload), codecs).value.height))
    ensures r.Some? ==>
      var src := Decode(Raw(payload), codecs).value;
      && r.value.width == src.width + 36 && r.value.height == src.height
      && r.value.trueColour == src.trueColour && r.value.transparent == Some(Black)
      && (forall x, y :: 0 <= x < src.width && 0 <= y < src.height ==> r.value.pixels[x + 18][y] == src.pixels[x][y])
      && (forall x, y :: 0 <= x < r.value.width && 0 <= y < r.value.height && !(18 <= x < 18 + src.width) ==>
            r.value.pixels[x][y] == Black)
  {
    match Decode(Raw(payload), codecs)
    case None => None
    case Some(src) =>
      assert SanitizeMargins(0, 18, 0, 18) == Margins(0, 18, 0, 18);
      CoverFrame(src);
      Compose(src, 0, 18, 0, 18, codecs)
  }

  /** The frame of the cover canvas: the source shifted 18 columns right, black on either side. */
  lemma CoverFrame(src: Bitmap)
    ensures var canvas := Pad(src, Margins(0, 18, 0, 18), Black);
      && (forall x, y :: 0 <= x < src.width && 0 <= y < src.height ==> canvas.pixels[x + 18][y] == src.pixels[x][y])
      && (forall x, y :: 0 <= x < canvas.width && 0 <= y < canvas.height && !(18 <= x < 18 + src.width) ==>
            canvas.pixels[x][y] == Black)
  {
    var canvas := Pad(src, Margins(0, 18, 0, 18), Black);
    assert forall x, y :: 0 <= x < canvas.width && 0 <= y < canvas.height && !(18 <= x < 18 + src.width) ==>
      !InSource(src, Margins(0, 18, 0, 18), x, y);
  }

  /**
   * The store after resizeImageAndConvertToPNG: the cover is written with the
   * canvas when one was built and nothing changes otherwise; no other file is
   * touched.
   */
  function Converted(files: map<string, File>, name: string, codecs: Codecs): (r: map<string, File>)
    ensures ResizeFromPath(files, TempPath(name), 0, 18, 0, 18, codecs).Some? ==>
      CoverPath(name) in r && r[CoverPath(name)] == Encoded(ResizeFromPath(files, TempPath(name), 0, 18, 0, 18, codecs).value)
    ensures ResizeFromPath(files, TempPath(name), 0, 18, 0, 18, codecs).None? ==> r == files
    ensures forall p :: p != CoverPath(name) ==> (p in r <==> p in files) && (p in files ==> r[p] == files[p])
  {
    match ResizeFromPath(files, TempPath(name), 0, 18, 0, 18, codecs)
    case None => files
    case Some(canvas) => files[CoverPath(name) := Encoded(canvas)]
  }

  /**
   * The store after downloadCover. It is unchanged when the probe says 404.
   * Otherwise the temporary file is gone, the cover holds the normalised
   * payload when there is one and is left as it was when not, and no other
   * file changes.
   */
  function Downloaded(files: map<string, File>, name: string, net: Network, codecs: Codecs): (r: map<string, File>)
    ensures !UrlExists(net.headers(CoverUrl(name))) ==> r == files
    ensures UrlExists(net.headers(CoverUrl(name))) ==> TempPath(name) !in r
    ensures UrlExists(net.headers(CoverUrl(name))) ==>
      match NormalisedCover(net.fetch(CoverUrl(name)), codecs)
      case Some(cover) => CoverPath(name) in r && r[CoverPath(name)] == Encoded(cover)
      case None =>
        && (CoverPath(name) in r <==> CoverPath(name) in files)
        && (CoverPath(name) in files ==> r[CoverPath(name)] == files[CoverPath(name)])
    ensures forall p :: p != TempPath(name) && p != CoverPath(name) ==>
      (p in r <==> p in files) && (p in files ==> r[p] == files[p])
  {
    var url := CoverUrl(name);
    if !UrlExists(net.headers(url)) then files
    else
      var withTemp := files[TempPath(name) := Raw(net.fetch(url))];
      assert Load(withTemp, TempPath(name), codecs) == Decode(Raw(net.fetch(url)), codecs);
      Converted(withTemp, name, codecs) - {TempPath(name)}
  }

  /**
   * As written, a probe that passes followed by an empty payload (the read of
   * the URL failed) reports success but leaves no cover behind.
   */
  lemma EmptyPayloadLeavesNoCover(files: map<string, File>, name: string, net: Network, codecs: Codecs)
    requires CoverPath(name) !in files
    requires UrlExists(net.headers(CoverUrl(name))) && net.fetch(CoverUrl(name)) == []
    ensures CoverPath(name) !in Downloaded(files, name, net, codecs)
  {
    assert Decode(Raw([]), codecs).None?;
  }

  /** The cache directory with the oracles the cover functions consult. */
  class CoverCache {
    var files: map<string, File>
    const urlencode: string -> string
    const net: Network
    const codecs: Codecs

    constructor (files: map<string, File>, urlencode: string -> string, net: Network, codecs: Codecs)
      ensures this.files == files && this.urlencode == urlencode
      ensures this.net == net && this.codecs == codecs
    {
      this.files := files;
      this.urlencode := urlencode;
      this.net := net;
      this.codecs := codecs;
    }

    /**
     * checkCover: the cover path on a hit (nothing downloaded, nothing
     * changed); on a miss the cover path when downloadCover reports success
     * and the placeholder when it does not.
     */
    method CheckCover(game: string) returns (path: string)
      modifies this
      ensures var name := urlencode(game);
        path == if CoverPath(name) in old(files) || UrlExists(net.headers(CoverUrl(name)))
                then CoverPath(name) else Placeholder
      ensures var name := urlencode(game);
        files == if CoverPath(name) in old(files) then old(files) else Downloaded(old(files), name, net, codecs)
    {
      var name := urlencode(game);
      var file := CoverPath(name);
      if file in files {
        path := file;
      } else {
        var ok := DownloadCover(name);
        path := if ok then file else Placeholder;
      }
    }

    /**
     * checkingCovers: nothing (PHP null) when the cover is cached, otherwise
     * what downloadCover reports.
     */
    method CheckingCovers(game: string) returns (r: Option<bool>)
      modifies this
      ensures var name := urlencode(game);
        CoverPath(name) in old(files) ==> r.None? && files == old(files)
      ensures var name := urlencode(game);
        CoverPath(name) !in old(files) ==>
          r == Some(UrlExists(net.headers(CoverUrl(name)))) && files == Downloaded(old(files), name, net, codecs)
    {
      var name := urlencode(game);
      var file := CoverPath(name);
      r := None;
      if file !in files {
        var ok := DownloadCover(name);
        r := Some(ok);
      }
    }

    /** downloadCover, for a name that is already url-encoded. */
    method DownloadCover(name: string) returns (ok: bool)
      modifies this
      ensures ok == UrlExists(net.headers(CoverUrl(name)))
      ensures files == Downloaded(old(files), name, net, codecs)
    {
      ok := false;
      var url := CoverUrl(name);
      if UrlExists(net.headers(url)) {
        var temp := TempPath(name);
        files := files[temp := Raw(net.fetch(url))];
        ok := ResizeImageAndConvertToPNG(name);
        files := files - {temp};
      }
    }

    /**
     * resizeImageAndConvertToPNG: pads the temporary file (top 0, left 18,
     * bottom 0, right 18) and writes the canvas to the cover path. When no
     * canvas comes back the encoder is handed FALSE and writes nothing; the
     * result is true either way.
     */
    method ResizeImageAndConvertToPNG(name: string) returns (ok: bool)
      modifies this
      ensures ok
      ensures files == Converted(old(files), name, codecs)
    {
      var filepathOld := TempPath(name);
      var filepathConverted := CoverPath(name);
      var dst := ImageCanvasResize(files, Path(filepathOld), 0, 18, 0, 18, codecs);
      if dst.Some? {
        var canvas := dst.value.Snapshot();
        files := files[filepathConverted := Encoded(canvas)];
      }
      ok := true;
    }
  }

  /**
   * Two lookups of the same game give the same path, and the second changes
   * nothing: either the first left the cover in the store and the second is a
   * hit, or the second repeats a download that leaves the store as it was.
   */
  method CheckCoverTwice(cache: CoverCache, game: string) returns (first: string, second: string, ghost between: map<string, File>)
    modifies cache
    ensures second == first
    ensures cache.files == between
    ensures first == Placeholder <==> CoverPath(cache.urlencode(game)) !in old(cache.files) && !UrlExists(cache.net.headers(CoverUrl(cache.urlencode(game))))
    ensures var name := cache.urlencode(game);
      CoverPath(name) !in old(cache.files) && UrlExists(cache.net.headers(CoverUrl(name)))
      && NormalisedCover(cache.net.fetch(CoverUrl(name)), cache.codecs).Some? ==>
        first == CoverPath(name) && second == CoverPath(name)
        && CoverPath(name) in between && cache.files == between
  {
    first := cache.CheckCover(game);
    between := cache.files;
    second := cache.CheckCover(game);
  }
}
