/**
  `RawProcessor` (src/processors/raw.rs): `can_handle` lives in module Processors; this
  module holds `load_image` and its conversion of the decoder's samples to RGB bytes.

  The integer branch runs three passes over three `w*h` channel buffers:
  pass one (`FillKnown`) normalises each sample, picks its channel from the fixed 6x6
  X-Trans table and stores it white-balanced; pass two (`Demosaic.InterpolateInPlace`)
  fills missing channels at interior pixels; pass three (`PackRgb`) turns each channel
  value into a byte and packs R, G, B per pixel.  The float branch is a zero buffer.

  The decoder (`rawloader::decode_file`), `path.exists()` and the gamma/`as u8`
  conversion are inputs: a decoded `RawImage` or its absence, a flag, and `toByte`.
*/
module RawConvert {
  import opened Wrappers
  import opened Detector
  import opened Demosaic

  // ---------------------------------------------------------------------------
  // What the decoder hands over.

  datatype RawData = Integer(samples: seq<nat>) | Float(values: seq<real>)

  datatype RawImage = RawImage(
    width: nat,
    height: nat,
    data: RawData,
    blackLevels: seq<nat>,
    whiteLevels: seq<nat>,
    wbCoeffs: seq<real>,
    cfa: Cfa)

  /**
    What the integer branch needs of its input: at least one row and column (the code
    computes `height - 1` and `width - 1`), one sample per pixel, levels and three white-balance
    coefficients, a non-zero level range (a zero range divides by zero) and a CFA tile.
  */
  predicate IntegerReady(img: RawImage) {
    && img.data.Integer?
    && img.width >= 1 && img.height >= 1
    && |img.data.samples| >= img.width * img.height
    && |img.blackLevels| >= 1 && |img.whiteLevels| >= 1
    && img.whiteLevels[0] != img.blackLevels[0]
    && |img.wbCoeffs| >= 3
    && img.cfa.Valid()
  }

  /** The decoder's image is one the conversion can take (the float branch needs nothing). */
  predicate Convertible(img: RawImage) {
    img.data.Integer? ==> IntegerReady(img)
  }

  /** An RGB8 image: `rgb` holds R, G, B for each pixel, row-major. */
  datatype DecodedImage = DecodedImage(width: nat, height: nat, rgb: seq<bv8>)

  // ---------------------------------------------------------------------------
  // Pass one.

  const XTransRows: seq<seq<nat>> := [
    [2, 1, 1, 2, 1, 1],
    [1, 2, 0, 1, 0, 2],
    [1, 0, 1, 2, 1, 0],
    [2, 1, 1, 2, 1, 1],
    [1, 2, 0, 1, 0, 2],
    [1, 0, 1, 2, 1, 0]
  ]

  /**
    The hard-coded X-Trans colour (0 red, 1 green, 2 blue) of tile position (cx, cy):
    total on the 6x6 tile, so the `unreachable!()` arm of the source never fires.
  */
  function XTrans(cx: nat, cy: nat): (c: nat)
    requires cx < 6 && cy < 6
    ensures c <= 2
  {
    XTransRows[cy][cx]
  }

  function Clamp(t: real): (r: real)
    ensures 0.0 <= r <= 1.0
    ensures 0.0 <= t <= 1.0 ==> r == t
  {
    if t < 0.0 then 0.0 else if t > 1.0 then 1.0 else t
  }

  /**
    `((v - black) / range).clamp(0.0, 1.0)`.  With `white < black` the range is negative
    and the map is reversed: 1 at or below white, 0 at or above black.
  */
  function Normalize(v: nat, black: nat, white: nat): (r: real)
    requires white != black
    ensures 0.0 <= r <= 1.0
    ensures white > black && v <= black ==> r == 0.0
    ensures white > black && v >= white ==> r == 1.0
    ensures white < black && v >= black ==> r == 0.0
    ensures white < black && v <= white ==> r == 1.0
  {
    QuotientBounds(v as real - black as real, white as real - black as real);
    Clamp((v as real - black as real) / (white as real - black as real))
  }

  /** A quotient reaches 1 when the numerator passes the divisor, and is at most 0 against it in sign. */
  lemma QuotientBounds(a: real, d: real)
    requires d != 0.0
    ensures d > 0.0 && a >= d ==> a / d >= 1.0
    ensures d < 0.0 && a <= d ==> a / d >= 1.0
    ensures d > 0.0 && a <= 0.0 ==> a / d <= 0.0
    ensures d < 0.0 && a >= 0.0 ==> a / d <= 0.0
  {
    assert a / d * d == a;
    if d < 0.0 && a <= d {
      assert a / d == (-a) / (-d);
      assert (-a) / (-d) * (-d) == -a;
    }
  }

  /** Between the levels, normalising is the linear map of [black, white] onto [0, 1]. */
  lemma NormalizeLinear(v: nat, black: nat, white: nat)
    requires white > black && black <= v <= white
    ensures Normalize(v, black, white) * (white - black) as real == (v - black) as real
  {
  }

  /** The white-balance multiplier of a colour; 1.0 for a colour outside {0, 1, 2}. */
  function WbCoeff(wb: seq<real>, color: nat): (r: real)
    requires |wb| >= 3
    ensures color <= 2 ==> r == wb[color]
    ensures color > 2 ==> r == 1.0
  {
    match color
    case 0 => wb[0]
    case 1 => wb[1]
    case 2 => wb[2]
    case _ => 1.0
  }

  /** The X-Trans colour of buffer index `k` of a `w`-wide image. */
  function TableColor(w: nat, k: nat): (c: nat)
    requires w > 0
    ensures c <= 2
  {
    XTrans(k % w % 6, k / w % 6)
  }

  /** Channel `c` of buffer index `k` after pass one. */
  function PassOneAt(img: RawImage, k: nat, c: nat): real
    requires IntegerReady(img) && k < img.width * img.height
  {
    var samples := img.data.samples;
    var black, white := img.blackLevels[0], img.whiteLevels[0];
    if TableColor(img.width, k) == c
    then Normalize(samples[k], black, white) * WbCoeff(img.wbCoeffs, c)
    else 0.0
  }

  /** The three buffers after pass one. */
  function PassOne(img: RawImage): (p: Channels)
    requires IntegerReady(img)
    ensures Sized(p, img.width * img.height)
  {
    var n := img.width * img.height;
    Channels(
      seq(n, k requires 0 <= k < n => PassOneAt(img, k, 0)),
      seq(n, k requires 0 <= k < n => PassOneAt(img, k, 1)),
      seq(n, k requires 0 <= k < n => PassOneAt(img, k, 2)))
  }

  function Channel(p: Channels, c: nat): seq<real>
    requires c <= 2
  {
    if c == 0 then p.red else if c == 1 then p.green else p.blue
  }

  /**
    After pass one each pixel holds `normalized * wb[c]` in its table channel `c` only,
    with `normalized` in [0, 1]; the other two buffers are 0.0 at that index.
  */
  lemma PassOneSingleChannel(img: RawImage, k: nat)
    requires IntegerReady(img) && k < img.width * img.height
    ensures var p, c := PassOne(img), TableColor(img.width, k);
      && Channel(p, c)[k] == Normalize(img.data.samples[k], img.blackLevels[0], img.whiteLevels[0]) * img.wbCoeffs[c]
      && (c != 0 ==> p.red[k] == 0.0)
      && (c != 1 ==> p.green[k] == 0.0)
      && (c != 2 ==> p.blue[k] == 0.0)
  {
    var p := PassOne(img);
    assert p.red[k] == PassOneAt(img, k, 0);
    assert p.green[k] == PassOneAt(img, k, 1);
    assert p.blue[k] == PassOneAt(img, k, 2);
  }

  /**
    The body of pass one for pixel (x, y): the sample is normalised, its colour taken
    from the table, white-balanced and stored in that colour's buffer only.
  */
  method StoreKnown(img: RawImage, red: array<real>, green: array<real>, blue: array<real>, x: nat, y: nat)
    requires IntegerReady(img) && x < img.width && y < img.height
    requires red.Length == green.Length == blue.Length == img.width * img.height
    requires red != green && green != blue && red != blue
    requires var i := y * img.width + x; i < red.Length && red[i] == 0.0 && green[i] == 0.0 && blue[i] == 0.0
    modifies red, green, blue
    ensures var i := y * img.width + x;
      && red[..] == old(red[..])[i := PassOneAt(img, i, 0)]
      && green[..] == old(green[..])[i := PassOneAt(img, i, 1)]
      && blue[..] == old(blue[..])[i := PassOneAt(img, i, 2)]
  {
    var w := img.width;
    IndexDivMod(w, x, y);
    var pixelIdx := y * w + x;
    var normalized := Normalize(img.data.samples[pixelIdx], img.blackLevels[0], img.whiteLevels[0]);
    var color := XTrans(x % 6, y % 6);
    var colorValue := normalized * WbCoeff(img.wbCoeffs, color);
    assert color == TableColor(w, pixelIdx);
    assert PassOneAt(img, pixelIdx, 0) == if color == 0 then colorValue else 0.0;
    assert PassOneAt(img, pixelIdx, 1) == if color == 1 then colorValue else 0.0;
    assert PassOneAt(img, pixelIdx, 2) == if color == 2 then colorValue else 0.0;
    if color == 0 {
      red[pixelIdx] := colorValue;
    } else if color == 1 {
      green[pixelIdx] := colorValue;
    } else if color == 2 {
      blue[pixelIdx] := colorValue;
    }
  }

  /** Pass one: the nested loop over rows and columns that fills the known values. */
  method FillKnown(img: RawImage) returns (red: array<real>, green: array<real>, blue: array<real>)
    requires IntegerReady(img)
    ensures fresh(red) && fresh(green) && fresh(blue)
    ensures red != green && green != blue && red != blue
    ensures View(red, green, blue) == PassOne(img)
  {
    var w, h := img.width, img.height;
    var n := w * h;
    red := new real[n](_ => 0.0);
    green := new real[n](_ => 0.0);
    blue := new real[n](_ => 0.0);
    assert FilledUpTo(img, red[..], green[..], blue[..], 0);
    var y, row := 0, 0;
    while y < h
      invariant 0 <= y <= h && row == y * w
      invariant red.Length == n && green.Length == n && blue.Length == n
      invariant FilledUpTo(img, red[..], green[..], blue[..], row)
    {
      FillRow(img, red, green, blue, y, row);
      RowAdvance(w, y);
      y, row := y + 1, row + w;
    }
    assert row == n;
    FilledAll(img, red[..], green[..], blue[..]);
  }

  /** The inner loop of pass one: row `y`, whose first index is `row`. */
  method FillRow(img: RawImage, red: array<real>, green: array<real>, blue: array<real>, y: nat, row: nat)
    requires IntegerReady(img) && y < img.height && row == y * img.width
    requires red != green && green != blue && red != blue
    requires FilledUpTo(img, red[..], green[..], blue[..], row)
    modifies red, green, blue
    ensures FilledUpTo(img, red[..], green[..], blue[..], row + img.width)
  {
    var w, h := img.width, img.height;
    var x := 0;
    while x < w
      invariant 0 <= x <= w
      invariant FilledUpTo(img, red[..], green[..], blue[..], row + x)
    {
      IndexInBounds(w, h, x, y);
      FilledStep(img, red[..], green[..], blue[..], row + x);
      StoreKnown(img, red, green, blue, x, y);
      x := x + 1;
    }
  }

  lemma RowAdvance(w: nat, y: nat)
    ensures y * w + w == (y + 1) * w
  {
  }

  /** The first `i` pixels hold their pass-one values and the rest are still zero. */
  ghost predicate FilledUpTo(img: RawImage, r: seq<real>, g: seq<real>, b: seq<real>, i: nat)
    requires IntegerReady(img)
  {
    var n := img.width * img.height;
    && i <= n && |r| == n && |g| == n && |b| == n
    && (forall k :: 0 <= k < i ==>
          r[k] == PassOneAt(img, k, 0) && g[k] == PassOneAt(img, k, 1) && b[k] == PassOneAt(img, k, 2))
    && (forall k :: i <= k < n ==> r[k] == 0.0 && g[k] == 0.0 && b[k] == 0.0)
  }

  /** Storing pixel `i` extends the filled prefix by one. */
  lemma FilledStep(img: RawImage, r: seq<real>, g: seq<real>, b: seq<real>, i: nat)
    requires IntegerReady(img) && FilledUpTo(img, r, g, b, i) && i < img.width * img.height
    ensures r[i] == 0.0 && g[i] == 0.0 && b[i] == 0.0
    ensures FilledUpTo(img, r[i := PassOneAt(img, i, 0)], g[i := PassOneAt(img, i, 1)], b[i := PassOneAt(img, i, 2)], i + 1)
  {
  }

  /** A prefix covering every pixel is pass one. */
  lemma FilledAll(img: RawImage, r: seq<real>, g: seq<real>, b: seq<real>)
    requires IntegerReady(img) && FilledUpTo(img, r, g, b, img.width * img.height)
    ensures Channels(r, g, b) == PassOne(img)
  {
    var p := PassOne(img);
    assert r == p.red;
    assert g == p.green;
    assert b == p.blue;
  }

  // ---------------------------------------------------------------------------
  // Pass three.

  /** R, G, B bytes of each pixel in turn, `toByte` standing for gamma 2.2 and the `as u8` cast. */
  function Pack(r: seq<real>, g: seq<real>, b: seq<real>, toByte: real -> bv8): seq<bv8>
    requires |r| == |g| == |b|
  {
    if r == [] then []
    else
      var n := |r| - 1;
      Pack(r[..n], g[..n], b[..n], toByte) + [toByte(r[n]), toByte(g[n]), toByte(b[n])]
  }

  /** Packing gives exactly three bytes per pixel, in R, G, B order. */
  lemma {:induction false} PackSpec(r: seq<real>, g: seq<real>, b: seq<real>, toByte: real -> bv8)
    requires |r| == |g| == |b|
    ensures var out := Pack(r, g, b, toByte);
      && |out| == 3 * |r|
      && forall k :: 0 <= k < |r| ==>
           out[3 * k] == toByte(r[k]) && out[3 * k + 1] == toByte(g[k]) && out[3 * k + 2] == toByte(b[k])
  {
    if r != [] {
      var n := |r| - 1;
      var rs, gs, bs := r[..n], g[..n], b[..n];
      PackSpec(rs, gs, bs, toByte);
      var pre := Pack(rs, gs, bs, toByte);
      var out := pre + [toByte(r[n]), toByte(g[n]), toByte(b[n])];
      assert Pack(r, g, b, toByte) == out;
      forall k | 0 <= k < |r|
        ensures out[3 * k] == toByte(r[k]) && out[3 * k + 1] == toByte(g[k]) && out[3 * k + 2] == toByte(b[k])
      {
        if k < n {
          assert out[3 * k] == pre[3 * k] == toByte(rs[k]);
          assert out[3 * k + 1] == pre[3 * k + 1] == toByte(gs[k]);
          assert out[3 * k + 2] == pre[3 * k + 2] == toByte(bs[k]);
        }
      }
    }
  }

  /** Pass three: `rgb.extend_from_slice(&[r, g, b])` for each pixel. */
  method PackRgb(red: array<real>, green: array<real>, blue: array<real>, toByte: real -> bv8)
    returns (rgb: seq<bv8>)
    requires red.Length == green.Length == blue.Length
    ensures rgb == Pack(red[..], green[..], blue[..], toByte)
  {
    rgb := [];
    var i := 0;
    while i < red.Length
      invariant 0 <= i <= red.Length
      invariant rgb == Pack(red[..i], green[..i], blue[..i], toByte)
    {
      assert red[..i + 1][..i] == red[..i] && green[..i + 1][..i] == green[..i] && blue[..i + 1][..i] == blue[..i];
      rgb := rgb + [toByte(red[i]), toByte(green[i]), toByte(blue[i])];
      i := i + 1;
    }
    assert red[..i] == red[..] && green[..i] == green[..] && blue[..i] == blue[..];
  }

  // ---------------------------------------------------------------------------
  // The two branches.

  /** The bytes of the integer branch: pass one, pass two, pass three. */
  function IntegerRgb(img: RawImage, toByte: real -> bv8): seq<bv8>
    requires IntegerReady(img)
  {
    var p := PassTwo(PassOne(img), img.width, img.height, img.cfa);
    Pack(p.red, p.green, p.blue, toByte)
  }

  /** `vec![0; width * height * 3]` of the float branch. */
  function FloatRgb(w: nat, h: nat): (out: seq<bv8>)
    ensures |out| == 3 * (w * h) && forall k :: 0 <= k < |out| ==> out[k] == 0
  {
    seq(3 * (w * h), _ => 0)
  }

  function ConvertedRgb(img: RawImage, toByte: real -> bv8): seq<bv8>
    requires Convertible(img)
  {
    match img.data
    case Integer(_) => IntegerRgb(img, toByte)
    case Float(_) => FloatRgb(img.width, img.height)
  }

  /** Both branches produce exactly `3*(w*h)` bytes. */
  lemma ConvertedLength(img: RawImage, toByte: real -> bv8)
    requires Convertible(img)
    ensures |ConvertedRgb(img, toByte)| == 3 * (img.width * img.height)
  {
    if img.data.Integer? {
      var n := img.width * img.height;
      var p := PassTwo(PassOne(img), img.width, img.height, img.cfa);
      assert |p.red| == n;
      PackSpec(p.red, p.green, p.blue, toByte);
    }
  }

  /** The integer branch, as `load_image` runs it on three freshly allocated buffers. */
  method ConvertInteger(img: RawImage, toByte: real -> bv8) returns (rgb: seq<bv8>)
    requires IntegerReady(img)
    ensures rgb == IntegerRgb(img, toByte)
    ensures |rgb| == 3 * (img.width * img.height)
  {
    var red, green, blue := FillKnown(img);
    InterpolateInPlace(red, green, blue, img.width, img.height, img.cfa);
    rgb := PackRgb(red, green, blue, toByte);
    ConvertedLength(img, toByte);
  }

  // ---------------------------------------------------------------------------
  // `load_image`.

  datatype LoadError =
    | FileMissing                   // `path.exists()` is false
    | DetectFailed(e: DetectError)  // `detect_image_type(path)?`
    | DecodeFailed                  // `decode_file(path)` failed
    | BufferTooSmall                // `RgbImage::from_raw` refused the buffer

  /** `RgbImage::from_raw`: refuses a buffer shorter than `3*(w*h)` bytes. */
  function FromRaw(w: nat, h: nat, buf: seq<bv8>): Option<DecodedImage> {
    if |buf| >= 3 * (w * h) then Some(DecodedImage(w, h, buf)) else None
  }

  /** What `RawProcessor::load_image` returns, as a function of its inputs. */
  function LoadRawResult(exists_: bool, file: Bytes, decoded: Option<RawImage>, toByte: real -> bv8)
    : Result<DecodedImage, LoadError>
    requires decoded.Some? ==> Convertible(decoded.value)
  {
    if !exists_ then Failure(FileMissing)
    else if Detect(file).Failure? then Failure(DetectFailed(Detect(file).error))
    else if decoded.None? then Failure(DecodeFailed)
    else
      var img := decoded.value;
      match FromRaw(img.width, img.height, ConvertedRgb(img, toByte))
      case None => Failure(BufferTooSmall)
      case Some(image) => Success(image)
  }

  /**
    `from_raw` never fails: a decoded image always yields an RGB8 image of its own size
    holding exactly `3*(w*h)` bytes, and the only failures are the missing file, the
    header read and the decoder.
  */
  lemma LoadRawNeverTooSmall(exists_: bool, file: Bytes, decoded: Option<RawImage>, toByte: real -> bv8)
    requires decoded.Some? ==> Convertible(decoded.value)
    ensures var r := LoadRawResult(exists_, file, decoded, toByte);
      && r != Failure(BufferTooSmall)
      && (r.Success? <==> exists_ && |file| >= HeaderSize && decoded.Some?)
      && (r.Success? ==> r.value.width == decoded.value.width && r.value.height == decoded.value.height
                         && |r.value.rgb| == 3 * (r.value.width * r.value.height))
  {
    if decoded.Some? {
      ConvertedLength(decoded.value, toByte);
    }
  }

  /** `RawProcessor::load_image`. */
  method LoadRaw(exists_: bool, file: Bytes, decoded: Option<RawImage>, toByte: real -> bv8)
    returns (r: Result<DecodedImage, LoadError>)
    requires decoded.Some? ==> Convertible(decoded.value)
    ensures r == LoadRawResult(exists_, file, decoded, toByte)
  {
    if !exists_ {
      return Failure(FileMissing);
    }
    var imageType := Detect(file);
    if imageType.Failure? {
      return Failure(DetectFailed(imageType.error));
    }
    if decoded.None? {
      return Failure(DecodeFailed);
    }
    var img := decoded.value;
    var rgbData;
    match img.data {
      case Integer(_) =>
        rgbData := ConvertInteger(img, toByte);
      case Float(_) =>
        rgbData := FloatRgb(img.width, img.height);
    }
    var rgbImage := FromRaw(img.width, img.height, rgbData);
    if rgbImage.None? {
      return Failure(BufferTooSmall);
    }
    return Success(rgbImage.value);
  }
}
