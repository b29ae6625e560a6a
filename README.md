# Cover-art cache of the Alfred Twitch workflow, modelled in Dafny

The workflow lists Twitch streams and games and shows a box-art thumbnail per
game. This project models the part that acquires those thumbnails
(`src/search.php`):

- **Type detection** (`Sniffer`). `imageCanvasResize` reads the first seven bytes of a file. It matches them against an anchored pattern with three alternatives: JPEG `FF D8 FF`, GIF `GIF87a`/`GIF89a`, and PNG `89 'PNG' 0D 0A` plus any byte. The length of the hit (3, 6 or 7) picks the loader. The pattern is modelled as data. A small matcher tries the alternatives in order, as the regular-expression engine does.
- **Canvas padding** (`Raster`, `Canvas`). The four paddings are clamped at zero. A canvas of the source size plus padding is allocated in the source's colour mode. It is filled with black, which is flagged transparent, and the source is copied in at `(left, top)`. The GD image is a class over a fixed `array2` pixel buffer. The fill, the copy, the loader and the encoder's read-out are loops over that buffer. The fill and the copy are tied to the pure picture function `Pad` through `Canvas.FramedIsPad`. The loader (`FromBitmap`) is proved to show the decoded picture, and the read-out (`Snapshot`) to return the picture the image shows (`View()`).
- **Download and normalisation** (`Covers`). `urlExists` tests the first header line. `downloadCover` saves the payload to `images/<name>.jpg` and calls `resizeImageAndConvertToPNG`, then deletes the `.jpg`. `resizeImageAndConvertToPNG` pads the image with top 0, left 18, bottom 0, right 18 and writes `images/<name>.png`.
- **Cache lookup** (`Covers.CoverCache`). `checkCover` returns the cached path on a hit. On a miss it downloads and returns the path or `icon.png`. `checkingCovers` returns nothing on a hit and the download's result on a miss. The file store is a `map` field of the class.

The network (`get_headers`, reading the URL), `urlencode`, the image decoders and the allocation limits of GD are parameters. Encoding a PNG stores the canvas picture at the path.

Points to know about the code as written:

- The call at `src/search.php:220` passes top 0, left 18, bottom 0, right 18. The stored cover is therefore 36 pixels wider than the source and keeps its height. It is not 36 pixels taller.
- Black is flagged transparent on the canvas in both colour modes, not only for palette images.
- Only the exact line `HTTP/1.1 404 Not Found` counts as missing. A failed probe (`get_headers` returning false) counts as existing.
- `resizeImageAndConvertToPNG` returns true even when no canvas could be built. In that case the encoder is handed `FALSE` and writes nothing, so `checkCover` can return `images/<name>.png` although no such file exists. `Covers.EmptyPayloadLeavesNoCover` shows one such input.

## Model

| member | source | states |
|---|---|---|
| `Sniffer.MatchesPrefixIff` | src/search.php:248-253 | an anchored pattern matches exactly when the input has at least as many bytes as the pattern and each byte is accepted by its class |
| `Sniffer.FirstMatch` | src/search.php:250 | the alternation returns the first alternative that matches; no earlier one matches, and None means none matches |
| `Sniffer.Head` | src/search.php:251 | detection sees at most the first 7 bytes of the file, a prefix of it; all 7 when the file is that long, the whole file when it is shorter |
| `Sniffer.JpegSignatureMatches` | src/search.php:250 | the JPEG alternative matches exactly when the file starts with FF D8 FF |
| `Sniffer.GifSignatureMatches` | src/search.php:250 | the GIF alternative matches exactly when the file starts with GIF8, then 7 or 9, then a |
| `Sniffer.PngSignatureMatches` | src/search.php:250 | the PNG alternative matches exactly when the file starts with 89 P N G 0D 0A and has a seventh byte |
| `Sniffer.Sniff` | src/search.php:248-266 | detection yields JPEG, GIF or PNG exactly for the matching magic prefix and fails for every other input, short ones included; at most one prefix can apply |
| `Raster.Sanitize` | src/search.php:277-280 | a negative padding becomes 0, any other is kept, never less than requested; each of the four paddings is sanitised on its own |
| `Raster.Pad` | src/search.php:283-316 | the canvas is (srcW+left+right, srcH+top+bottom), at least the source size, in the source's colour mode, with the background flagged transparent; the source pixel (x, y) sits at (x+left, y+top) and every other pixel is the background |
| `Raster.Image.constructor` | src/search.php:287-291 | a new image has the requested size and mode and no transparent colour |
| `Raster.Image.FromBitmap` | src/search.php:266-270 | the loaded image shows exactly the decoded picture |
| `Raster.Image.SetTransparent` | src/search.php:296-297 | the colour becomes the transparent colour and is returned as the background |
| `Raster.Image.FillRectangle` | src/search.php:299-306 | every pixel of the rectangle clipped to the image takes the colour; all others are unchanged |
| `Raster.Image.CopyFrom` | src/search.php:308-316 | every source pixel (x, y) lands at (dstX+x, dstY+y); pixels outside that block are unchanged |
| `Raster.Image.Snapshot` | src/search.php:221 | the encoder reads out exactly the picture the image shows |
| `Canvas.Decode` | src/search.php:248-270 | a file starting with the JPEG, GIF or PNG magic prefix goes to that format's loader; a file with none of the three prefixes is not decoded |
| `Canvas.Load` | src/search.php:242-270 | a path that is not a file fails; a file starting with one of the three magic prefixes goes to that format's loader, and any other file fails |
| `Canvas.Compose` | src/search.php:273-293 | a canvas is returned exactly when one of the padded size can be allocated; it is srcW plus the sanitised left and right wide and srcH plus the sanitised top and bottom high, in the source colour mode, with black flagged transparent; the canvas is the source padded with black by the sanitised paddings |
| `Canvas.ResizeFromPath` | src/search.php:242-317 | a path gives a canvas exactly when the file loads and the padded size can be allocated, and that canvas is the loaded picture padded with black |
| `Canvas.ImageCanvasResize` | src/search.php:234-318 | an argument that is neither image nor path fails; a path fails exactly when loading or allocating fails and otherwise gives a fresh image showing the padded picture; an image argument gives the padding of what it shows |
| `Canvas.ComposeImage` | src/search.php:273-317 | allocation in the source's mode, transparent black fill, and the copy at (left, top) give a fresh image showing the padded source, or None exactly when allocation fails |
| `Canvas.FramedIsPad` | src/search.php:296-316 | a canvas that is black everywhere except the source block at (left, top) shows exactly the padded picture |
| `Covers.CoverPath` | src/search.php:148 | the cover images/<name>.png is never the temporary images/<name>.jpg nor the placeholder icon.png |
| `Covers.UrlExists` | src/search.php:201-209 | a URL is missing exactly when the first header line is HTTP/1.1 404 Not Found; a failed probe counts as existing |
| `Covers.NormalisedCover` | src/search.php:216-221 | a cover is made exactly when the payload decodes and a canvas 36 pixels wider can be allocated; it is the decoded payload, 36 pixels wider and the same height, in the same colour mode, with transparent black, each source pixel shifted 18 pixels right and the 18 columns on either side black |
| `Covers.Converted` | src/search.php:216-224 | the cover path receives the padded temporary file when a canvas was built, the store is unchanged when not, and no other path changes |
| `Covers.Downloaded` | src/search.php:181-194 | after a 404 the store is unchanged; otherwise the .jpg is gone, the cover holds the normalised payload when there is one and is untouched when not, and no other file changes |
| `Covers.EmptyPayloadLeavesNoCover` | src/search.php:186-194 | a probe that passes with an empty payload leaves no cover, though the download reports success |
| `Covers.CoverCache.CheckCover` | src/search.php:145-159 | a hit returns images/<name>.png and leaves the store alone; a miss downloads and returns that path if the probe passed, icon.png otherwise |
| `Covers.CoverCache.CheckingCovers` | src/search.php:166-174 | a hit returns nothing and changes nothing; a miss returns the download's result |
| `Covers.CoverCache.DownloadCover` | src/search.php:181-194 | the result is the probe's verdict and the store becomes Downloaded of the old store |
| `Covers.CoverCache.ResizeImageAndConvertToPNG` | src/search.php:216-224 | the result is always true; the cover is written only when a canvas was built |
| `Covers.CheckCoverTwice` | src/search.php:145-159 | two lookups of a game return the same path and the second leaves the store as the first left it; the placeholder comes back exactly on a miss whose probe says 404; on a miss whose probe passes and whose payload gives a cover, both lookups return images/<name>.png and the cover is in the store after the first |

## Left out

- `getTwitchStreams`, `searchStream`, `searchGame`, `getTwitchGames` and the commented-out alternative (src/search.php:8-138) are not modelled. They are HTTP requests plus copying of JSON fields, with no logic of their own.
- Image codecs: decoding is the `Codecs.decode` parameter. PNG encoding stores the picture (`File.Encoded`), whose leading bytes are taken to be the 8-byte PNG signature. No byte-level codec is modelled.
- Network I/O: `get_headers` and the streamed read of the URL are the `Network` parameter. A failed read is an empty payload, which is what `file_put_contents` writes when handed `FALSE`.
- `urlencode` is an uninterpreted function field of the cache. Only its determinism matters.
- GD colour internals: colours are RGB values. Palette index allocation, the 256-colour palette limit and palette-to-palette colour mapping in `imagecopy` are not modelled. Alpha blending is not modelled either.
- `Raster.Image.CopyFrom`: models only the whole-source copy into a canvas large enough to hold it, from a different image, which is the only way `imagecopy` is called. GD clips other rectangles and skips source pixels of the source's transparent colour; neither is modelled. The skipping carries over to `Canvas.ComposeImage`, `Canvas.Compose` and `Covers.NormalisedCover`: for a GIF or PNG source with a transparent colour, GD leaves the canvas black at those pixels, while the model copies the source colour there.
- `imagefilledrectangle` and `imagecopy` always report success in GD, so the `return FALSE` branches at src/search.php:305 and 315 are not reachable in the model.
- Allocation limits of GD are the `Codecs.fits` parameter; an empty canvas is always refused.
- PHP integer overflow of the canvas size and `(int)` casts of non-integer paddings: paddings are integers and sizes are unbounded.
- The whole model follows the resource semantics of PHP 5 and 7, where GD images are resources. Under PHP 8 they are `GdImage` objects, `is_resource` is false for them, and the checks at src/search.php:242, 268-270 and 287-293 would make `imageCanvasResize` return FALSE for every input.
- Under PHP 8, `imagepng(FALSE, ...)` throws instead of warning. The model follows the warning behaviour of PHP 5 and 7: nothing is written and execution continues.
- `Covers.CheckCoverTwice`: that the second lookup makes no network access is not stated. The network is a pure function of the URL, so whether it was consulted cannot be observed; the model states only that the second lookup changes nothing. On a miss that leaves no cover, `second == first` and the unchanged store hold only because the probe and the payload are fixed functions of the URL; the program itself probes the CDN again on the second call, and the answer may differ.
- Disk errors in `file_put_contents`, `imagepng` and `unlink` are not modelled; every write and delete succeeds. `file_exists` on a directory is not modelled; the store holds only files.
- Concurrent processes sharing the cache directory are not modelled. The code has no concurrency of its own.
