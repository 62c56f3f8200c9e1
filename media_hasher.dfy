/**
 * `MediaHasher`: picks a hashing strategy from a file name's extension,
 * computes the 64-bit average hash of an 8x8 grey image, and folds the
 * hashes of a video's key frames together with character-wise XOR.
 * Decoding, resizing and frame extraction are not modelled: an image is
 * given as the red channel of its 8x8 grey rendering.
 */
module MediaHasher {
  import opened Wrappers
  import opened Text
  import opened SeqUtil

  // ---------------------------------------------------------------------
  // Extension dispatch.

  const ImageExtensions: seq<string> := ["jpg", "jpeg", "png", "gif", "bmp", "webp"]
  const VideoExtensions: seq<string> := ["mp4", "mkv", "avi", "mov", "flv", "wmv"]

  /** `String.lastIndexOf(ch)`: the last position holding ch, or -1. */
  function LastIndexOf(s: string, ch: char): (r: int)
    ensures -1 <= r < |s|
    ensures r == -1 <==> forall i :: 0 <= i < |s| ==> s[i] != ch
    ensures r >= 0 ==> s[r] == ch && forall i :: r < i < |s| ==> s[i] != ch
  {
    if s == [] then -1
    else if s[|s| - 1] == ch then |s| - 1
    else LastIndexOf(s[..|s| - 1], ch)
  }

  /** The lower-cased text after the last dot, or null when there is no dot or it ends the name. */
  function Extension(name: string): (e: Option<string>)
    ensures e.None? <==> '.' !in name || name[|name| - 1] == '.'
  {
    var lastDot := LastIndexOf(name, '.');
    if lastDot != -1 && lastDot < |name| - 1 then Some(Lower(name[lastDot + 1..])) else None
  }

  /** A name with an extension is a stem, a dot and a non-empty dot-free suffix, and the extension is that suffix lower-cased. */
  lemma ExtensionSplit(name: string)
    requires Extension(name).Some?
    ensures exists stem, raw :: (name == stem + "." + raw && raw != [] && '.' !in raw
      && Extension(name).value == Lower(raw))
  {
    var k := LastIndexOf(name, '.');
    assert name == name[..k] + "." + name[k + 1..];
  }

  /** Conversely, appending "." and a dot-free suffix to any stem yields that suffix as the extension. */
  lemma ExtensionOfSuffix(stem: string, raw: string)
    requires raw != [] && '.' !in raw
    ensures Extension(stem + "." + raw) == Some(Lower(raw))
  {
    var name := stem + "." + raw;
    var k := LastIndexOf(name, '.');
    assert name[|stem|] == '.';
    assert forall i :: |stem| < i < |name| ==> name[i] == raw[i - |stem| - 1];
    assert k == |stem|;
    assert name[k + 1..] == raw;
  }

  datatype MediaKind = Image | Video | Unsupported

  /** `IMAGE_EXTENSIONS.contains(ext)` first, then `VIDEO_EXTENSIONS.contains(ext)`; a null extension is in neither. */
  function KindOf(ext: Option<string>): (k: MediaKind)
    ensures k == Image <==> ext.Some? && ext.value in ImageExtensions
    ensures k == Video <==> ext.Some? && ext.value in VideoExtensions
  {
    match ext
    case None => Unsupported
    case Some(e) => if e in ImageExtensions then Image else if e in VideoExtensions then Video else Unsupported
  }

  /** Upper-case extensions are recognised: "PHOTO.JPG" is an image. */
  lemma UpperCaseImage()
    ensures KindOf(Extension("PHOTO.JPG")) == Image
  {
    ExtensionOfSuffix("PHOTO", "JPG");
    assert "PHOTO" + "." + "JPG" == "PHOTO.JPG";
    assert Lower("JPG") == "jpg";
  }

  /** Only the text after the last dot counts: "clip.tar.MKV" is a video. */
  lemma LastDotVideo()
    ensures KindOf(Extension("clip.tar.MKV")) == Video
  {
    ExtensionOfSuffix("clip.tar", "MKV");
    assert "clip.tar" + "." + "MKV" == "clip.tar.MKV";
    assert Lower("MKV") == "mkv";
  }

  // ---------------------------------------------------------------------
  // Average hash of an 8x8 grey image.

  /** A red-channel value, as `Color.getRed` returns it. */
  type Channel = v: int | 0 <= v <= 255

  /** The red channel at (x, y) of the 8x8 grey rendering of an image. */
  type Raster = (int, int) -> Channel

  /** The 64 samples in the order the pixel stream visits `pixels[x][y]`: x-major. */
  function RasterCells(img: Raster): (s: seq<int>)
    ensures |s| == 64
  {
    seq(64, k requires 0 <= k < 64 => img(k / 8, k % 8))
  }

  function Total(s: seq<int>): int {
    if s == [] then 0 else Total(s[..|s| - 1]) + s[|s| - 1]
  }

  /** The integer average `sum / 64` (the sum is non-negative, so Java's division agrees). */
  function Mean(img: Raster): int {
    Total(RasterCells(img)) / 64
  }

  /** The hash character for pixel (x, y) sits at 8y + x: '1' iff the pixel reaches the mean. */
  function AverageHashOf(img: Raster): (h: string)
    ensures |h| == 64
  {
    seq(64, k requires 0 <= k < 64 => if img(k % 8, k / 8) >= Mean(img) then '1' else '0')
  }

  predicate Binary(s: string) {
    forall k :: 0 <= k < |s| ==> s[k] == '0' || s[k] == '1'
  }

  lemma {:induction false} TotalAtMost(s: seq<int>, m: int)
    requires forall k :: 0 <= k < |s| ==> s[k] <= m
    ensures Total(s) <= |s| * m
  {
    if s != [] {
      TotalAtMost(s[..|s| - 1], m);
    }
  }

  /** Some pixel reaches the mean, so the hash has at least one '1'. */
  lemma AverageHashHasOne(img: Raster)
    ensures Binary(AverageHashOf(img)) && '1' in AverageHashOf(img)
  {
    var cells := RasterCells(img);
    var m := Mean(img);
    if forall k :: 0 <= k < 64 ==> cells[k] <= m - 1 {
      TotalAtMost(cells, m - 1);
      assert false;
    }
    var k :| 0 <= k < 64 && cells[k] > m - 1;
    var x, y := k / 8, k % 8;
    assert AverageHashOf(img)[8 * y + x] == '1';
  }

  /** A flat image hashes to all ones: every pixel equals the mean. */
  lemma FlatImageHash(img: Raster, v: Channel)
    requires forall x, y :: img(x, y) == v
    ensures AverageHashOf(img) == seq(64, k => '1')
  {
    var cells := RasterCells(img);
    TotalConst(cells, v);
    assert Mean(img) == 64 * v / 64;
  }

  lemma {:induction false} TotalConst(s: seq<int>, v: int)
    requires forall k :: 0 <= k < |s| ==> s[k] == v
    ensures Total(s) == |s| * v
  {
    if s != [] {
      TotalConst(s[..|s| - 1], v);
    }
  }

  /**
   * `getPerceptualHash`: copy the red channel into `pixels[x][y]`, take the
   * integer mean, then emit '1' or '0' per pixel, rows (y) outer, x inner.
   */
  method AverageHash(img: Raster) returns (hash: string)
    ensures hash == AverageHashOf(img)
    ensures |hash| == 64 && Binary(hash) && '1' in hash
    ensures forall k :: 0 <= k < 64 ==> (hash[k] == '1' <==> img(k % 8, k / 8) >= Mean(img))
  {
    var pixels := ReadPixels(img);
    var avgPixel := Total(PixelCells(pixels)) / 64;
    hash := "";
    ghost var spec := AverageHashOf(img);
    for y := 0 to 8
      modifies {}
      invariant hash == spec[..8 * y]
    {
      for x := 0 to 8
        modifies {}
        invariant hash == spec[..8 * y + x]
      {
        HashCell(img, x, y);
        PrefixExtend(spec, 8 * y + x);
        hash := hash + (if pixels[x, y] >= avgPixel then "1" else "0");
      }
    }
    AverageHashHasOne(img);
  }

  /** The first double loop of `getPerceptualHash`: `pixels[x][y] = getRed(x, y)`. */
  method ReadPixels(img: Raster) returns (pixels: array2<int>)
    ensures fresh(pixels) && pixels.Length0 == 8 && pixels.Length1 == 8
    ensures forall x, y :: 0 <= x < 8 && 0 <= y < 8 ==> pixels[x, y] == img(x, y)
    ensures PixelCells(pixels) == RasterCells(img)
  {
    pixels := new int[8, 8];
    for y := 0 to 8
      invariant forall a, b :: 0 <= a < 8 && 0 <= b < y ==> pixels[a, b] == img(a, b)
    {
      for x := 0 to 8
        invariant forall a, b :: 0 <= a < 8 && 0 <= b < y ==> pixels[a, b] == img(a, b)
        invariant forall a :: 0 <= a < x ==> pixels[a, y] == img(a, y)
      {
        pixels[x, y] := img(x, y);
      }
    }
  }

  /** Pixel (x, y) decides character 8y + x. */
  lemma HashCell(img: Raster, x: int, y: int)
    requires 0 <= x < 8 && 0 <= y < 8
    ensures AverageHashOf(img)[8 * y + x] == if img(x, y) >= Mean(img) then '1' else '0'
  {
    var k := 8 * y + x;
    assert k % 8 == x && k / 8 == y;
  }

  /** The samples of the pixel array, in the stream's order. */
  function PixelCells(pixels: array2<int>): (s: seq<int>)
    requires pixels.Length0 == 8 && pixels.Length1 == 8
    reads pixels
    ensures |s| == 64
  {
    seq(64, k requires 0 <= k < 64 reads pixels => pixels[k / 8, k % 8])
  }

  // ---------------------------------------------------------------------
  // XOR fold of key-frame hashes.

  /** Character j is '0' where a and b agree and '1' where they differ, over a's length. */
  function Xor(a: string, b: string): (r: string)
    requires |a| <= |b|
    ensures |r| == |a|
  {
    seq(|a|, j requires 0 <= j < |a| => if a[j] == b[j] then '0' else '1')
  }

  /**
   * The fold of `hash`: start from the first hash and XOR each later one in;
   * a later hash shorter than the running result makes `charAt` throw, and the
   * exception turns the whole result into null.
   */
  function XorAll(hs: seq<string>): Option<string>
  {
    if hs == [] then None
    else if |hs| == 1 then Some(hs[0])
    else
      match XorAll(hs[..|hs| - 1])
      case None => None
      case Some(f) => if |hs[|hs| - 1]| < |f| then None else Some(Xor(f, hs[|hs| - 1]))
  }

  /** The fold succeeds iff no later hash is shorter than the first, and then keeps the first's length. */
  lemma {:induction false} XorAllDefined(hs: seq<string>)
    requires hs != []
    ensures XorAll(hs).Some? <==> forall i :: 0 <= i < |hs| ==> |hs[i]| >= |hs[0]|
    ensures XorAll(hs).Some? ==> |XorAll(hs).value| == |hs[0]|
  {
    if |hs| > 1 {
      var init := hs[..|hs| - 1];
      XorAllDefined(init);
      assert init[0] == hs[0];
      if XorAll(hs).Some? {
        forall i | 0 <= i < |hs| ensures |hs[i]| >= |hs[0]| {
          if i < |hs| - 1 {
            assert hs[i] == init[i];
          }
        }
      } else if XorAll(init).Some? {
        assert |hs[|hs| - 1]| < |hs[0]|;
      } else {
        var i :| 0 <= i < |init| && |init[i]| < |init[0]|;
        assert hs[i] == init[i];
      }
    }
  }

  /** The number of hashes among hs with a '1' at position j. */
  function Ones(hs: seq<string>, j: nat): nat
    requires forall i :: 0 <= i < |hs| ==> j < |hs[i]|
  {
    if hs == [] then 0 else Ones(hs[..|hs| - 1], j) + (if hs[|hs| - 1][j] == '1' then 1 else 0)
  }

  predicate SameLengthBinary(hs: seq<string>, n: nat) {
    forall i :: 0 <= i < |hs| ==> |hs[i]| == n && Binary(hs[i])
  }

  /** For binary hashes of one length, bit j of the fold is '1' iff an odd number of hashes have '1' there. */
  lemma {:induction false} XorAllParity(hs: seq<string>, n: nat, j: nat)
    requires hs != [] && SameLengthBinary(hs, n) && j < n
    ensures XorAll(hs).Some? && |XorAll(hs).value| == n && Binary(XorAll(hs).value)
    ensures XorAll(hs).value[j] == '1' <==> Ones(hs, j) % 2 == 1
  {
    if |hs| == 1 {
      assert hs[..0] == [];
    } else {
      var init := hs[..|hs| - 1];
      XorAllParity(init, n, j);
      var f := XorAll(init).value;
      var last := hs[|hs| - 1];
    }
  }

  /** A single frame's hash is returned unchanged; two hashes fold to their agreement mask. */
  lemma XorAllSmall(a: string, b: string)
    ensures XorAll([a]) == Some(a)
    ensures |b| >= |a| ==> XorAll([a, b]) == Some(Xor(a, b))
    ensures |b| < |a| ==> XorAll([a, b]) == None
  {
    assert [a, b][..1] == [a];
  }

  /** `finalHash` updated over `hashes[1..]`, with `charAt` failing (null result) on a short hash. */
  method XorFold(hashes: seq<string>) returns (r: Option<string>)
    requires hashes != []
    ensures r == XorAll(hashes)
  {
    var finalHash := hashes[0];
    assert hashes[..1] == [hashes[0]];
    for i := 1 to |hashes|
      invariant XorAll(hashes[..i]) == Some(finalHash)
    {
      var currentHash := hashes[i];
      assert hashes[..i + 1][..i] == hashes[..i];
      var result := "";
      for j := 0 to |finalHash|
        invariant j <= |currentHash|
        invariant |result| == j
        invariant forall k :: 0 <= k < j ==> result[k] == if finalHash[k] == currentHash[k] then '0' else '1'
      {
        if j >= |currentHash| {
          // charAt(j) throws; the handler in `hash` returns null
          assert XorAll(hashes[..i + 1]) == None;
          XorAllStuck(hashes, i + 1);
          return None;
        }
        result := result + (if finalHash[j] == currentHash[j] then "0" else "1");
      }
      assert result == Xor(finalHash, currentHash);
      finalHash := result;
    }
    assert hashes[..|hashes|] == hashes;
    r := Some(finalHash);
  }

  /** Once a prefix of the hashes fails, the whole fold fails. */
  lemma {:induction false} XorAllStuck(hs: seq<string>, i: nat)
    requires 0 < i <= |hs| && XorAll(hs[..i]) == None
    ensures XorAll(hs) == None
    decreases |hs| - i
  {
    if i < |hs| {
      assert hs[..i + 1][..i] == hs[..i];
      XorAllStuck(hs, i + 1);
    } else {
      assert hs[..i] == hs;
    }
  }

  // ---------------------------------------------------------------------
  // `hash(file)`.

  /** What `hash` returns for a file with this name, image rendering and key frames. */
  function HashOf(name: string, image: Raster, keyframes: seq<Raster>): Option<string>
  {
    match KindOf(Extension(name))
    case Image => Some(AverageHashOf(image))
    case Video => if keyframes == [] then None else XorAll(FrameHashes(keyframes))
    case Unsupported => None
  }

  function FrameHashes(frames: seq<Raster>): (hs: seq<string>)
    ensures |hs| == |frames|
    ensures forall i :: 0 <= i < |frames| ==> hs[i] == AverageHashOf(frames[i])
  {
    seq(|frames|, i requires 0 <= i < |frames| => AverageHashOf(frames[i]))
  }

  /**
   * An image gets its 64-bit average hash; a video with key frames gets a
   * 64-bit binary hash whose bit j is the parity of the frames' bit j; a
   * video without key frames and every other name get null.
   */
  lemma HashOutcomes(name: string, image: Raster, keyframes: seq<Raster>)
    ensures var r := HashOf(name, image, keyframes);
      match KindOf(Extension(name))
      case Image => r.Some? && |r.value| == 64 && Binary(r.value) && '1' in r.value
      case Video => (r.Some? <==> keyframes != []) && (r.Some? ==> |r.value| == 64 && Binary(r.value))
      case Unsupported => r.None?
  {
    AverageHashHasOne(image);
    if keyframes != [] {
      var hs := FrameHashes(keyframes);
      forall i | 0 <= i < |hs| ensures |hs[i]| == 64 && Binary(hs[i]) {
        AverageHashHasOne(keyframes[i]);
      }
      XorAllParity(hs, 64, 0);
    }
  }

  /** `MediaHasher.hash`, after decoding: dispatch on the extension, hash the image or fold the key frames. */
  method Hash(name: string, image: Raster, keyframes: seq<Raster>) returns (r: Option<string>)
    ensures r == HashOf(name, image, keyframes)
  {
    var extension := Extension(name);
    if extension.Some? && extension.value in ImageExtensions {
      var h := AverageHash(image);
      return Some(h);
    }
    if extension.Some? && extension.value in VideoExtensions {
      if keyframes == [] {
        return None;
      }
      var hashes: seq<string> := [];
      for i := 0 to |keyframes|
        invariant hashes == FrameHashes(keyframes[..i])
      {
        var h := AverageHash(keyframes[i]);
        hashes := hashes + [h];
      }
      assert keyframes[..|keyframes|] == keyframes;
      r := XorFold(hashes);
      return;
    }
    return None;
  }
}
