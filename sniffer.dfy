/**
 * The image-type detection at the start of imageCanvasResize: the first seven
 * bytes of a file are matched, from the first byte on, against three
 * alternatives (the JPEG, GIF and PNG magic numbers, the PNG one padded with
 * one arbitrary byte), and the length of the hit selects the loader
 * (3: JPEG, 6: GIF, 7: PNG).
 */
module Sniffer {
  import opened Wrappers

  datatype Format = Jpeg | Gif | Png

  /** One position of a fixed-length byte pattern. */
  datatype ByteClass =
    | Exactly(byte: bv8)          // a literal byte such as \xff or 'G'
    | OneOf(choices: set<bv8>)    // a character class such as [79]
    | AnyByte                     // '.', which under /s also matches a newline

  predicate Accepts(c: ByteClass, b: bv8) {
    match c
    case Exactly(e) => b == e
    case OneOf(s) => b in s
    case AnyByte => true
  }

  type Pattern = seq<ByteClass>

  /** The pattern matches at the very start of s (the \A anchor). */
  predicate MatchesPrefix(p: Pattern, s: seq<bv8>)
    decreases p
  {
    p == [] || (s != [] && Accepts(p[0], s[0]) && MatchesPrefix(p[1..], s[1..]))
  }

  /** An anchored match consumes |p| bytes, each accepted by its class. */
  lemma {:induction false} MatchesPrefixIff(p: Pattern, s: seq<bv8>)
    ensures MatchesPrefix(p, s) <==> |p| <= |s| && forall i :: 0 <= i < |p| ==> Accepts(p[i], s[i])
    decreases p
  {
    if p != [] && s != [] {
      MatchesPrefixIff(p[1..], s[1..]);
      if |p| <= |s| && forall i :: 0 <= i < |p| ==> Accepts(p[i], s[i]) {
        forall i | 0 <= i < |p[1..]| ensures Accepts(p[1..][i], s[1..][i]) {
          assert Accepts(p[i + 1], s[i + 1]);
        }
      }
      if MatchesPrefix(p, s) {
        forall i | 0 <= i < |p| ensures Accepts(p[i], s[i]) {
          if i > 0 {
            assert Accepts(p[1..][i - 1], s[1..][i - 1]);
          }
        }
      }
    }
  }

  /**
   * The alternation (?:a0|a1|...): the alternatives are tried in order and the
   * first one that matches wins. The result is the index of that alternative.
   */
  function FirstMatch(alts: seq<Pattern>, s: seq<bv8>): (r: Option<nat>)
    ensures r.Some? ==> r.value < |alts| && MatchesPrefix(alts[r.value], s)
    ensures r.Some? ==> forall j :: 0 <= j < r.value ==> !MatchesPrefix(alts[j], s)
    ensures r.None? ==> forall j :: 0 <= j < |alts| ==> !MatchesPrefix(alts[j], s)
  {
    if alts == [] then None
    else if MatchesPrefix(alts[0], s) then Some(0)
    else
      match FirstMatch(alts[1..], s)
      case None => None
      case Some(k) => Some(k + 1)
  }

  const JpegSignature: Pattern := [Exactly(0xFF), Exactly(0xD8), Exactly(0xFF)]
  // "GIF8" then '7' or '9' then 'a'
  const GifSignature: Pattern :=
    [Exactly(0x47), Exactly(0x49), Exactly(0x46), Exactly(0x38), OneOf({0x37, 0x39}), Exactly(0x61)]
  // \x89 "PNG" \r \n and one more byte of any value
  const PngSignature: Pattern :=
    [Exactly(0x89), Exactly(0x50), Exactly(0x4E), Exactly(0x47), Exactly(0x0D), Exactly(0x0A), AnyByte]

  const Signatures: seq<Pattern> := [JpegSignature, GifSignature, PngSignature]

  /** The loader table, keyed by the length of the hit. */
  const Loaders: map<nat, Format> := map[3 := Jpeg, 6 := Gif, 7 := Png]

  /** How many leading bytes of the file are read for detection. */
  const SniffLength: nat := 7

  /** The bytes a read of at most SniffLength bytes from offset 0 yields. */
  function Head(data: seq<bv8>): (h: seq<bv8>)
    ensures |h| <= SniffLength && h <= data
    ensures |data| >= SniffLength ==> |h| == SniffLength
    ensures |data| < SniffLength ==> h == data
  {
    if |data| <= SniffLength then data else data[..SniffLength]
  }

  /**
   * The format detected from the start of a file, or None for an unknown
   * format. The detector accepts exactly the three magic prefixes, each mapped
   * to its own format; every other input, a too-short one included, is
   * unknown. The prefixes differ in their first byte, so at most one applies.
   */
  function Sniff(data: seq<bv8>): (r: Option<Format>)
    ensures r == Some(Jpeg) <==> IsJpeg(data)
    ensures r == Some(Gif) <==> IsGif(data)
    ensures r == Some(Png) <==> IsPng(data)
    ensures r == None <==> !IsJpeg(data) && !IsGif(data) && !IsPng(data)
    ensures !(IsJpeg(data) && IsGif(data)) && !(IsJpeg(data) && IsPng(data)) && !(IsGif(data) && IsPng(data))
  {
    JpegSignatureMatches(data);
    GifSignatureMatches(data);
    PngSignatureMatches(data);
    assert Signatures[0] == JpegSignature && Signatures[1] == GifSignature && Signatures[2] == PngSignature;
    match FirstMatch(Signatures, Head(data))
    case None => None
    case Some(i) =>
      var hitLength := |Signatures[i]|;
      if hitLength in Loaders then Some(Loaders[hitLength]) else None
  }

  // Reference definitions of the three magic prefixes, written byte by byte.

  predicate IsJpeg(d: seq<bv8>) {
    |d| >= 3 && d[0] == 0xFF && d[1] == 0xD8 && d[2] == 0xFF
  }

  predicate IsGif(d: seq<bv8>) {
    |d| >= 6 && d[0] == 0x47 && d[1] == 0x49 && d[2] == 0x46 && d[3] == 0x38
    && (d[4] == 0x37 || d[4] == 0x39) && d[5] == 0x61
  }

  predicate IsPng(d: seq<bv8>) {
    |d| >= 7 && d[0] == 0x89 && d[1] == 0x50 && d[2] == 0x4E && d[3] == 0x47
    && d[4] == 0x0D && d[5] == 0x0A
  }

  // Each signature matches the start of a file exactly when its magic prefix is there.

  lemma JpegSignatureMatches(data: seq<bv8>)
    ensures MatchesPrefix(JpegSignature, Head(data)) <==> IsJpeg(data)
  {
    var h := Head(data);
    assert forall i :: 0 <= i < |h| ==> h[i] == data[i];
    MatchesPrefixIff(JpegSignature, h);
  }

  lemma GifSignatureMatches(data: seq<bv8>)
    ensures MatchesPrefix(GifSignature, Head(data)) <==> IsGif(data)
  {
    var h := Head(data);
    assert forall i :: 0 <= i < |h| ==> h[i] == data[i];
    MatchesPrefixIff(GifSignature, h);
  }

  lemma PngSignatureMatches(data: seq<bv8>)
    ensures MatchesPrefix(PngSignature, Head(data)) <==> IsPng(data)
  {
    var h := Head(data);
    assert forall i :: 0 <= i < |h| ==> h[i] == data[i];
    MatchesPrefixIff(PngSignature, h);
  }
}
