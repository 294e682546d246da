/**
  Header sniffing (src/processors/detector.rs).

  `Detect` classifies a file from its bytes: it reads a 16-byte header and runs an
  ordered chain of byte comparisons, the first match winning.  The file's contents
  are the input, so that the Nikon branch, which re-reads the first 4096 bytes, can be
  written as the code has it.  `Table` is an independent, declarative statement of the
  same rules; `DetectIsFirstMatch` proves the two agree, and with it that the Nikon
  branch is dead and that only the first 16 bytes matter.
*/
module Detector {
  import opened Wrappers

  type Bytes = seq<bv8>

  datatype ImageType =
    | Jpeg | Png | Gif | Tiff | WebP
    | RawFuji | RawCanon | RawNikon | RawSony | RawPanasonic | RawGeneric
    | Unknown
  {
    /** `ImageType::is_raw`: decided by the variant alone. */
    predicate IsRaw() {
      match this
      case RawFuji | RawCanon | RawNikon | RawSony | RawPanasonic | RawGeneric => true
      case _ => false
    }
  }

  /** The two ways the detector's reads can fail. */
  datatype DetectError =
    | HeaderTooShort      // `read_exact` of the 16-byte header
    | ExtendedReadFailed  // `read_exact` of the 4096-byte window in the Nikon branch

  const HeaderSize: nat := 16
  const ExtendedSize: nat := 4096

  // Magic numbers, written out byte by byte.
  const JpegSoi: Bytes := [0xFF, 0xD8]                                      // ITU-T T.81 Table B.1, SOI
  const PngSignature: Bytes := [0x89, 0x50, 0x4E, 0x47, 0x0D, 0x0A, 0x1A, 0x0A] // RFC 2083 section 3.1
  const GifTag: Bytes := [0x47, 0x49, 0x46]                                 // "GIF"
  const Riff: Bytes := [0x52, 0x49, 0x46, 0x46]                             // "RIFF"
  const Webp: Bytes := [0x57, 0x45, 0x42, 0x50]                             // "WEBP"
  const TiffBig: Bytes := [0x4D, 0x4D, 0x00, 0x2A]                          // "MM\0*"
  const TiffLittle: Bytes := [0x49, 0x49, 0x2A, 0x00]                       // "II*\0"
  const Fuji: Bytes := [0x46, 0x55, 0x4A, 0x49]                             // "FUJI"
  const CanonCr2: Bytes := [0x43, 0x52, 0x02]                               // "CR\x02"
  const CanonCr3: Bytes := [0x43, 0x52, 0x03]                               // "CR\x03"
  const Nikon: Bytes := [0x4E, 0x49, 0x4B, 0x4F, 0x4E]                      // "NIKON", five bytes
  const Sony: Bytes := [0x53, 0x4F, 0x4E, 0x59]                             // "SONY"
  const Panasonic: Bytes := [0x49, 0x49, 0x55, 0x00]                        // "IIU\0"
  const Ciff: Bytes := [0x43, 0x49, 0x46, 0x46]                             // "CIFF"
  const Heic: Bytes := [0x48, 0x45, 0x49, 0x43]                             // "HEIC"
  const Dngk: Bytes := [0x44, 0x4E, 0x47, 0x4B]                             // "DNGK"
  const Epak: Bytes := [0x45, 0x50, 0x41, 0x4B]                             // "EPAK"
  const RawMarkers: seq<Bytes> := [Ciff, Heic, Dngk, Epak]

  /** The window of `size` bytes at offset `j` exists and equals `lit`. */
  predicate WindowIs(buf: Bytes, j: nat, size: nat, lit: Bytes) {
    j + size <= |buf| && buf[j..j + size] == lit
  }

  /** `buf.windows(size).any(|w| w == lit)`, scanning the windows from offset `i` on. */
  function AnyWindow(buf: Bytes, size: nat, lit: Bytes, i: nat): bool
    decreases |buf| - i
  {
    if i + size > |buf| then false
    else buf[i..i + size] == lit || AnyWindow(buf, size, lit, i + 1)
  }

  /** The loop over the generic raw markers: does any of them occur as a window? */
  function AnyMarker(buf: Bytes, markers: seq<Bytes>): bool {
    if markers == [] then false
    else AnyWindow(buf, |markers[0]|, markers[0], 0) || AnyMarker(buf, markers[1..])
  }

  predicate IsTiffMagic(h: Bytes)
    requires |h| >= 4
  {
    WindowIs(h, 0, 4, TiffBig) || WindowIs(h, 0, 4, TiffLittle)
  }

  /**
    The Nikon rescan once the 4096-byte window has been read: `windows(4)` of that window
    compared with the five bytes of "NIKON".
  */
  predicate NikonMarkerFound(file: Bytes) {
    |file| >= ExtendedSize && AnyWindow(file[..ExtendedSize], 4, Nikon, 0)
  }

  /** `detect_image_type`, as written: the chain of early returns, including the Nikon branch. */
  function Detect(file: Bytes): (r: Result<ImageType, DetectError>)
    ensures r.Failure? <==> |file| < HeaderSize
    ensures r.Failure? ==> r.error == HeaderTooShort
    ensures |file| >= HeaderSize && file[0..2] == JpegSoi ==> r == Success(Jpeg)
    ensures r != Success(RawNikon)
  {
    if |file| < HeaderSize then Failure(HeaderTooShort)
    else
      var h := file[..HeaderSize];
      if WindowIs(h, 0, 2, JpegSoi) then Success(Jpeg)
      else if WindowIs(h, 0, 8, PngSignature) then Success(Png)
      else if WindowIs(h, 0, 3, GifTag) then Success(Gif)
      else if WindowIs(h, 0, 4, Riff) && WindowIs(h, 8, 4, Webp) then Success(WebP)
      else if IsTiffMagic(h) then Success(Tiff)
      else if WindowIs(h, 0, 4, Fuji) then Success(RawFuji)
      else if WindowIs(h, 8, 3, CanonCr2) || WindowIs(h, 8, 3, CanonCr3) then Success(RawCanon)
      else if IsTiffMagic(h) && |file| < ExtendedSize then Failure(ExtendedReadFailed)
      else if IsTiffMagic(h) && NikonMarkerFound(file) then Success(RawNikon)
      else Success(LateRules(h))
  }

  /** The checks after the Nikon branch: Sony, Panasonic, the generic markers, then `Unknown`. */
  function LateRules(h: Bytes): ImageType
    requires |h| == HeaderSize
  {
    if WindowIs(h, 0, 4, Sony) then RawSony
    else if WindowIs(h, 0, 4, Panasonic) then RawPanasonic
    else if AnyMarker(h, RawMarkers) then RawGeneric
    else Unknown
  }

  // ---------------------------------------------------------------------------
  // The rules as a table: an independent reference for `Detect`.

  /** What a rule looks for in the 16-byte header. */
  datatype Pattern =
    | At(offset: nat, lit: Bytes)        // `lit` at `offset`
    | Both(p: Pattern, q: Pattern)
    | Either(p: Pattern, q: Pattern)
    | Anywhere(markers: seq<Bytes>)      // one of `markers` at any offset

  datatype Rule = Rule(pattern: Pattern, result: ImageType)

  ghost predicate Matches(pat: Pattern, h: Bytes) {
    match pat
    case At(off, lit) => WindowIs(h, off, |lit|, lit)
    case Both(p, q) => Matches(p, h) && Matches(q, h)
    case Either(p, q) => Matches(p, h) || Matches(q, h)
    case Anywhere(ms) => exists k, j :: 0 <= k < |ms| && WindowIs(h, j, |ms[k]|, ms[k])
  }

  /** The detection order, first rule first.  There is no Nikon rule: see `DetectIsFirstMatch`. */
  const Table: seq<Rule> := [
    Rule(At(0, JpegSoi), Jpeg),
    Rule(At(0, PngSignature), Png),
    Rule(At(0, GifTag), Gif),
    Rule(Both(At(0, Riff), At(8, Webp)), WebP),
    Rule(Either(At(0, TiffBig), At(0, TiffLittle)), Tiff),
    Rule(At(0, Fuji), RawFuji),
    Rule(Either(At(8, CanonCr2), At(8, CanonCr3)), RawCanon),
    Rule(At(0, Sony), RawSony),
    Rule(At(0, Panasonic), RawPanasonic),
    Rule(Anywhere(RawMarkers), RawGeneric)
  ]

  /** The result of the first rule that matches, `Unknown` when none does. */
  ghost function FirstMatch(rules: seq<Rule>, h: Bytes): ImageType {
    if rules == [] then Unknown
    else if Matches(rules[0].pattern, h) then rules[0].result
    else FirstMatch(rules[1..], h)
  }

  // ---------------------------------------------------------------------------
  // Window scans.

  /** The recursive window scan finds exactly the windows that exist. */
  lemma {:induction false} AnyWindowSpec(buf: Bytes, size: nat, lit: Bytes, i: nat)
    ensures AnyWindow(buf, size, lit, i) <==> exists j :: i <= j && WindowIs(buf, j, size, lit)
    decreases |buf| - i
  {
    if i + size <= |buf| {
      AnyWindowSpec(buf, size, lit, i + 1);
      if buf[i..i + size] == lit {
        assert WindowIs(buf, i, size, lit);
      }
      if exists j :: i <= j && WindowIs(buf, j, size, lit) {
        var j :| i <= j && WindowIs(buf, j, size, lit);
        assert j == i || (i + 1 <= j && WindowIs(buf, j, size, lit));
      }
    }
  }

  /** The marker loop finds a marker exactly when some marker occurs at some offset. */
  lemma {:induction false} AnyMarkerSpec(buf: Bytes, markers: seq<Bytes>)
    ensures AnyMarker(buf, markers)
        <==> exists k, j :: 0 <= k < |markers| && WindowIs(buf, j, |markers[k]|, markers[k])
  {
    if markers != [] {
      AnyWindowSpec(buf, |markers[0]|, markers[0], 0);
      AnyMarkerSpec(buf, markers[1..]);
      if exists k, j :: 0 <= k < |markers| && WindowIs(buf, j, |markers[k]|, markers[k]) {
        var k, j :| 0 <= k < |markers| && WindowIs(buf, j, |markers[k]|, markers[k]);
        if k > 0 {
          assert markers[1..][k - 1] == markers[k];
        }
      }
      if exists k, j :: 0 <= k < |markers[1..]| && WindowIs(buf, j, |markers[1..][k]|, markers[1..][k]) {
        var k, j :| 0 <= k < |markers[1..]| && WindowIs(buf, j, |markers[1..][k]|, markers[1..][k]);
        assert markers[1..][k] == markers[k + 1];
      }
    }
  }

  /** The Nikon test compares 4-byte windows with a 5-byte literal, so no window ever matches. */
  lemma {:induction false} NikonWindowNeverMatches(buf: Bytes, i: nat)
    ensures !AnyWindow(buf, 4, Nikon, i)
    decreases |buf| - i
  {
    if i + 4 <= |buf| {
      assert |buf[i..i + 4]| != |Nikon|;
      NikonWindowNeverMatches(buf, i + 1);
    }
  }

  // ---------------------------------------------------------------------------
  // Properties of `Detect`.

  /** One step of the first-match search from rule `k` on. */
  lemma FirstMatchStep(rules: seq<Rule>, k: nat, h: Bytes)
    requires k < |rules|
    ensures FirstMatch(rules[k..], h)
         == if Matches(rules[k].pattern, h) then rules[k].result else FirstMatch(rules[k + 1..], h)
  {
    assert rules[k..][1..] == rules[k + 1..];
  }

  /** The first-match search from rule `k` on, unfolded to the end of `Table`. */
  lemma TableFrom(k: nat, h: Bytes)
    requires k <= |Table|
    ensures FirstMatch(Table[k..], h) == FirstMatchFrom(k, h)
    decreases |Table| - k
  {
    if k < |Table| {
      FirstMatchStep(Table, k, h);
      TableFrom(k + 1, h);
    } else {
      assert Table[k..] == [];
    }
  }

  /** `FirstMatch(Table[k..], h)` written as an if-chain over the rule indices. */
  ghost function FirstMatchFrom(k: nat, h: Bytes): ImageType
    requires k <= |Table|
    decreases |Table| - k
  {
    if k == |Table| then Unknown
    else if Matches(Table[k].pattern, h) then Table[k].result
    else FirstMatchFrom(k + 1, h)
  }

  /** The header's first byte rules out every rule whose literal at offset 0 starts differently. */
  lemma FirstByteMismatch(h: Bytes, lit: Bytes)
    requires |h| >= |lit| > 0 && h[0] != lit[0]
    ensures !WindowIs(h, 0, |lit|, lit)
  {
    assert h[0..|lit|][0] == h[0];
  }

  /** `Detect` is the first-match classification by `Table` of the first 16 bytes. */
  lemma DetectIsFirstMatch(file: Bytes)
    ensures Detect(file) == if |file| < HeaderSize then Failure(HeaderTooShort)
                            else Success(FirstMatch(Table, file[..HeaderSize]))
  {
    if |file| >= HeaderSize {
      var h := file[..HeaderSize];
      TableFrom(0, h);
      assert |JpegSoi| == 2 && |PngSignature| == 8 && |GifTag| == 3 && |CanonCr2| == 3 && |CanonCr3| == 3;
      assert |Riff| == |Webp| == |TiffBig| == |TiffLittle| == |Fuji| == 4;
      assert Matches(Table[0].pattern, h) <==> WindowIs(h, 0, 2, JpegSoi);
      assert Matches(Table[1].pattern, h) <==> WindowIs(h, 0, 8, PngSignature);
      assert Matches(Table[2].pattern, h) <==> WindowIs(h, 0, 3, GifTag);
      assert Matches(Table[3].pattern, h) <==> WindowIs(h, 0, 4, Riff) && WindowIs(h, 8, 4, Webp);
      assert Matches(Table[4].pattern, h) <==> IsTiffMagic(h);
      assert Matches(Table[5].pattern, h) <==> WindowIs(h, 0, 4, Fuji);
      assert Matches(Table[6].pattern, h) <==> WindowIs(h, 8, 3, CanonCr2) || WindowIs(h, 8, 3, CanonCr3);
      LateRulesAreLastRules(h);
    }
  }

  /** The checks after the Nikon branch are the last three rules of `Table`. */
  lemma LateRulesAreLastRules(h: Bytes)
    requires |h| == HeaderSize
    ensures LateRules(h) == FirstMatchFrom(7, h)
  {
    AnyMarkerSpec(h, RawMarkers);
    assert |Sony| == |Panasonic| == 4;
    assert Matches(Table[7].pattern, h) <==> WindowIs(h, 0, 4, Sony);
    assert Matches(Table[8].pattern, h) <==> WindowIs(h, 0, 4, Panasonic);
    assert Matches(Table[9].pattern, h) <==> AnyMarker(h, RawMarkers);
  }

  /** Files that agree on their first 16 bytes are classified alike. */
  lemma DetectDependsOnHeaderOnly(f: Bytes, g: Bytes)
    requires |f| >= HeaderSize && |g| >= HeaderSize
    requires f[..HeaderSize] == g[..HeaderSize]
    ensures Detect(f) == Detect(g)
  {
    DetectIsFirstMatch(f);
    DetectIsFirstMatch(g);
  }

  /** Either TIFF magic gives `Tiff`, whatever follows: the Nikon rescan is never reached. */
  lemma TiffMagicIsTiff(file: Bytes)
    requires |file| >= HeaderSize && IsTiffMagic(file)
    ensures Detect(file) == Success(Tiff)
  {
    var h := file[..HeaderSize];
    assert h[0..4] == file[0..4];
    assert h[0] == h[0..4][0];
    FirstByteMismatch(h, JpegSoi);
    FirstByteMismatch(h, PngSignature);
    FirstByteMismatch(h, GifTag);
    FirstByteMismatch(h, Riff);
  }

  /** `RIFF` without `WEBP` at bytes 8-11 is not WebP and is decided by the rules after it. */
  lemma RiffWithoutWebpFallsThrough(file: Bytes)
    requires |file| >= HeaderSize
    requires file[0..4] == Riff && file[8..12] != Webp
    ensures Detect(file) == Success(FirstMatch(Table[4..], file[..HeaderSize]))
    ensures Detect(file) != Success(WebP)
  {
    var h := file[..HeaderSize];
    assert h[0..4] == file[0..4] && h[8..12] == file[8..12];
    RiffHeaderSkipsFirstRules(h);
    DetectIsFirstMatch(file);
  }

  /** A `RIFF` header without `WEBP` matches none of the first four rules, and no later rule gives WebP. */
  lemma RiffHeaderSkipsFirstRules(h: Bytes)
    requires |h| == HeaderSize && h[0..4] == Riff && h[8..12] != Webp
    ensures FirstMatch(Table, h) == FirstMatch(Table[4..], h) != WebP
  {
    assert h[0] == h[0..4][0];
    RiffHeaderMisses(h);
    SkipRules(h, 4);
    LaterRulesNotWebP();
    FirstMatchNeverWebP(Table[4..], h);
  }

  /** A header starting with `R` and without `WEBP` at 8 fails the JPEG, PNG, GIF and WebP tests. */
  lemma RiffHeaderMisses(h: Bytes)
    requires |h| == HeaderSize && h[0] == 0x52 && h[8..12] != Webp
    ensures forall k :: 0 <= k < 4 ==> !Matches(Table[k].pattern, h)
  {
    FirstByteMismatch(h, JpegSoi);
    FirstByteMismatch(h, PngSignature);
    FirstByteMismatch(h, GifTag);
  }

  /** When none of the first `k` rules matches, the search starts at rule `k`. */
  lemma {:induction false} SkipRules(h: Bytes, k: nat)
    requires k <= |Table| && forall j :: 0 <= j < k ==> !Matches(Table[j].pattern, h)
    ensures FirstMatch(Table, h) == FirstMatch(Table[k..], h)
  {
    if k == 0 {
      assert Table[0..] == Table;
    } else {
      SkipRules(h, k - 1);
      FirstMatchStep(Table, k - 1, h);
    }
  }

  /** No rule after the WebP rule gives WebP. */
  lemma LaterRulesNotWebP()
    ensures forall k :: 0 <= k < |Table[4..]| ==> Table[4..][k].result != WebP
  {
  }

  lemma {:induction false} FirstMatchNeverWebP(rules: seq<Rule>, h: Bytes)
    requires forall k :: 0 <= k < |rules| ==> rules[k].result != WebP
    ensures FirstMatch(rules, h) != WebP
  {
    if rules != [] {
      FirstMatchNeverWebP(rules[1..], h);
    }
  }

  /**
    When none of the first nine rules matches, the result is `RawGeneric` exactly when
    one of the four markers occurs at one of the offsets 0..12, and `Unknown` otherwise,
    which is a success, not an error.
  */
  lemma GenericOrUnknown(file: Bytes)
    requires |file| >= HeaderSize
    requires forall k :: 0 <= k < 9 ==> !Matches(Table[k].pattern, file[..HeaderSize])
    ensures Detect(file) == Success(RawGeneric)
        <==> exists k: nat, j: nat :: k < 4 && j <= 12 && WindowIs(file, j, 4, RawMarkers[k])
    ensures Detect(file) != Success(RawGeneric) ==> Detect(file) == Success(Unknown)
  {
    var h := file[..HeaderSize];
    DetectIsFirstMatch(file);
    TableFrom(0, h);
    assert FirstMatchFrom(0, h) == FirstMatchFrom(9, h);
    MarkersInHeader(file);
  }

  /** A marker occurs somewhere in the header exactly when it occurs at offset 0..12 of the file. */
  lemma MarkersInHeader(file: Bytes)
    requires |file| >= HeaderSize
    ensures Matches(Anywhere(RawMarkers), file[..HeaderSize])
        <==> exists k: nat, j: nat :: k < 4 && j <= 12 && WindowIs(file, j, 4, RawMarkers[k])
  {
    var h := file[..HeaderSize];
    if exists k: nat, j: nat :: k < 4 && j <= 12 && WindowIs(file, j, 4, RawMarkers[k]) {
      var k: nat, j: nat :| k < 4 && j <= 12 && WindowIs(file, j, 4, RawMarkers[k]);
      assert |RawMarkers[k]| == 4;
      assert h[j..j + 4] == file[j..j + 4];
      assert WindowIs(h, j, |RawMarkers[k]|, RawMarkers[k]);
    }
    if Matches(Anywhere(RawMarkers), h) {
      var k: nat, j: nat :| k < |RawMarkers| && WindowIs(h, j, |RawMarkers[k]|, RawMarkers[k]);
      assert |RawMarkers[k]| == 4;
      assert h[j..j + 4] == file[j..j + 4];
      assert WindowIs(file, j, 4, RawMarkers[k]);
    }
  }

  /** `is_raw` holds for exactly the six `Raw*` variants. */
  lemma IsRawExactlyRawVariants(t: ImageType)
    ensures t.IsRaw() <==> t in {RawFuji, RawCanon, RawNikon, RawSony, RawPanasonic, RawGeneric}
  {
  }
}
