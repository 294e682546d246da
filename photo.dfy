/**
  The photo record of src/photo.rs: a path, the EXIF summary read once at construction
  and the decoded image once it has been loaded.

  The exif crate is replaced by its output: the list of fields of the container, or
  `None` when opening the file or reading the container fails.  Each field carries its
  tag, its value and the text `display_as(tag)` renders for it.
*/
module PhotoRecord {
  import opened Wrappers
  import opened Decimal
  import opened Detector
  import opened Processors
  import opened RawConvert
  import opened Paths

  // ---------------------------------------------------------------------------
  // EXIF fields and the summary record.

  datatype Tag = Make | Model | ExposureTime | FNumber | ISOSpeed | FocalLength | DateTimeOriginal
               | OtherTag(code: nat)

  /** An unsigned rational of the exif crate (`num` and `denom` are `u32`). */
  datatype Rational = Rational(num: nat, denom: nat)

  /** The field value shapes the dispatch looks at; every other shape is `OtherValue`. */
  datatype Value = RationalValue(rationals: seq<Rational>) | ShortValue(shorts: seq<nat>) | OtherValue

  /** One EXIF field; `shown` is what `value.display_as(tag).to_string()` gives. */
  datatype Field = Field(tag: Tag, value: Value, shown: string)

  /** The `f32` quotient `num as f32 / denom as f32`, kept as its two operands. */
  datatype Ratio = Ratio(num: nat, denom: nat)

  datatype ExifData = ExifData(
    make: Option<string>,
    model: Option<string>,
    exposureTime: Option<string>,
    fNumber: Option<Ratio>,
    iso: Option<nat>,
    focalLength: Option<Ratio>,
    datetime: Option<string>)

  const NoExif := ExifData(None, None, None, None, None, None, None)

  /** The first rational of a rational value; `None` for an empty list or another shape. */
  function FirstRational(v: Value): (r: Option<Rational>)
    ensures r.Some? <==> v.RationalValue? && |v.rationals| > 0
    ensures r.Some? ==> r.value == v.rationals[0]
  {
    if v.RationalValue? && |v.rationals| > 0 then Some(v.rationals[0]) else None
  }

  /** `format!("{}/{}", r.num, r.denom)`. */
  function ExposureText(r: Rational): string {
    NatToString(r.num) + "/" + NatToString(r.denom)
  }

  /** The exposure text determines the rational it was made from. */
  lemma ExposureTextInjective(a: Rational, b: Rational)
    ensures ExposureText(a) == ExposureText(b) ==> a == b
  {
    if ExposureText(a) == ExposureText(b) {
      NatToStringSpec(a.num);
      NatToStringSpec(b.num);
      SplitAtSlash(NatToString(a.num), NatToString(a.denom), NatToString(b.num), NatToString(b.denom));
      NatToStringInjective(a.num, b.num);
      NatToStringInjective(a.denom, b.denom);
    }
  }

  /** Digit strings end at the first `/`, so `x/y == u/v` splits the same way on both sides. */
  lemma SplitAtSlash(x: string, y: string, u: string, v: string)
    requires forall k :: 0 <= k < |x| ==> IsDigit(x[k])
    requires forall k :: 0 <= k < |u| ==> IsDigit(u[k])
    requires x + "/" + y == u + "/" + v
    ensures x == u && y == v
  {
    var s := x + "/" + y;
    assert forall k :: 0 <= k < |x| ==> s[k] == x[k];
    assert forall k :: 0 <= k < |u| ==> s[k] == u[k];
    assert s[|x|] == '/' && s[|u|] == '/';
    assert |x| == |u|;
    assert x == s[..|x|] && u == s[..|u|];
    assert y == s[|x| + 1..] && v == s[|u| + 1..];
  }

  /**
    One iteration of the `load_exif` loop: the field's tag picks the one entry of the
    record it may set; a value of the wrong shape (or an empty rational list) leaves the
    record as it was, except that an empty `Short` list resets `iso` to `None`.
  */
  function ApplyField(d: ExifData, f: Field): (r: ExifData)
    // each entry changes only under its own tag
    ensures !f.tag.Make? ==> r.make == d.make
    ensures !f.tag.Model? ==> r.model == d.model
    ensures !f.tag.ExposureTime? ==> r.exposureTime == d.exposureTime
    ensures !f.tag.FNumber? ==> r.fNumber == d.fNumber
    ensures !f.tag.ISOSpeed? ==> r.iso == d.iso
    ensures !f.tag.FocalLength? ==> r.focalLength == d.focalLength
    ensures !f.tag.DateTimeOriginal? ==> r.datetime == d.datetime
    // and what it becomes there
    ensures f.tag.Make? ==> r.make == Some(f.shown)
    ensures f.tag.Model? ==> r.model == Some(f.shown)
    ensures f.tag.DateTimeOriginal? ==> r.datetime == Some(f.shown)
    ensures f.tag.ExposureTime? ==> (r.exposureTime ==
      if FirstRational(f.value).Some? then Some(ExposureText(f.value.rationals[0])) else d.exposureTime)
    ensures f.tag.FNumber? ==> (r.fNumber ==
      if FirstRational(f.value).Some? then Some(Ratio(f.value.rationals[0].num, f.value.rationals[0].denom)) else d.fNumber)
    ensures f.tag.FocalLength? ==> (r.focalLength ==
      if FirstRational(f.value).Some? then Some(Ratio(f.value.rationals[0].num, f.value.rationals[0].denom)) else d.focalLength)
    ensures f.tag.ISOSpeed? && f.value.ShortValue? ==> r.iso == if |f.value.shorts| > 0 then Some(f.value.shorts[0]) else None
    ensures f.tag.ISOSpeed? && !f.value.ShortValue? ==> r.iso == d.iso
  {
    match f.tag
    case Make => d.(make := Some(f.shown))
    case Model => d.(model := Some(f.shown))
    case ExposureTime =>
      (match FirstRational(f.value)
       case Some(q) => d.(exposureTime := Some(ExposureText(q)))
       case None => d)
    case FNumber =>
      (match FirstRational(f.value)
       case Some(q) => d.(fNumber := Some(Ratio(q.num, q.denom)))
       case None => d)
    case ISOSpeed =>
      (match f.value
       case ShortValue(vs) => d.(iso := if |vs| > 0 then Some(vs[0]) else None)
       case _ => d)
    case FocalLength =>
      (match FirstRational(f.value)
       case Some(q) => d.(focalLength := Some(Ratio(q.num, q.denom)))
       case None => d)
    case DateTimeOriginal => d.(datetime := Some(f.shown))
    case OtherTag(_) => d
  }

  /** The record after applying `fields` in order to `d`. */
  function ApplyAll(d: ExifData, fields: seq<Field>): ExifData {
    if fields == [] then d else ApplyField(ApplyAll(d, fields[..|fields| - 1]), fields[|fields| - 1])
  }

  /** The record `load_exif` builds from the container's fields. */
  function ExifFromFields(fields: seq<Field>): ExifData {
    ApplyAll(NoExif, fields)
  }

  /** The loop of `load_exif` (lines 73-124): a local record updated field by field. */
  method ReadExif(fields: seq<Field>) returns (data: ExifData)
    ensures data == ExifFromFields(fields)
  {
    data := NoExif;
    var i := 0;
    while i < |fields|
      invariant 0 <= i <= |fields|
      invariant data == ApplyAll(NoExif, fields[..i])
    {
      assert fields[..i + 1][..i] == fields[..i];
      data := ApplyField(data, fields[i]);
      i := i + 1;
    }
    assert fields[..i] == fields;
  }

  // ---------------------------------------------------------------------------
  // Properties of the dispatch loop.

  /** Fields are processed in order: the fields of `b` act on the record `a` produced. */
  lemma {:induction false} ApplyAllConcat(d: ExifData, a: seq<Field>, b: seq<Field>)
    ensures ApplyAll(d, a + b) == ApplyAll(ApplyAll(d, a), b)
    decreases |b|
  {
    if b == [] {
      assert a + b == a;
    } else {
      var n := |b| - 1;
      assert (a + b)[..|a + b| - 1] == a + b[..n];
      assert (a + b)[|a + b| - 1] == b[n];
      ApplyAllConcat(d, a, b[..n]);
    }
  }

  predicate Relevant(f: Field) {
    !f.tag.OtherTag?
  }

  function RelevantFields(fields: seq<Field>): (r: seq<Field>)
    ensures forall k :: 0 <= k < |r| ==> Relevant(r[k])
  {
    if fields == [] then []
    else
      var n := |fields| - 1;
      RelevantFields(fields[..n]) + (if Relevant(fields[n]) then [fields[n]] else [])
  }

  /** Fields with an unlisted tag are ignored: dropping them changes nothing. */
  lemma {:induction false} UnlistedTagsIgnored(d: ExifData, fields: seq<Field>)
    ensures ApplyAll(d, RelevantFields(fields)) == ApplyAll(d, fields)
  {
    if fields != [] {
      var n := |fields| - 1;
      UnlistedTagsIgnored(d, fields[..n]);
      if Relevant(fields[n]) {
        ApplyAllConcat(d, RelevantFields(fields[..n]), [fields[n]]);
      } else {
        assert RelevantFields(fields) == RelevantFields(fields[..n]);
      }
    }
  }

  /** The text entry of the record that a text-valued tag sets. */
  function TextEntry(d: ExifData, t: Tag): Option<string>
    requires t == Make || t == Model || t == DateTimeOriginal
  {
    match t
    case Make => d.make
    case Model => d.model
    case DateTimeOriginal => d.datetime
  }

  /** With no field of tag `t`, the entry `t` sets keeps its value. */
  lemma {:induction false} TextEntryKeptWithoutTag(d: ExifData, fields: seq<Field>, t: Tag)
    requires t == Make || t == Model || t == DateTimeOriginal
    requires forall k :: 0 <= k < |fields| ==> fields[k].tag != t
    ensures TextEntry(ApplyAll(d, fields), t) == TextEntry(d, t)
  {
    if fields != [] {
      var n := |fields| - 1;
      forall k | 0 <= k < n ensures fields[..n][k].tag != t {
        assert fields[..n][k] == fields[k];
      }
      TextEntryKeptWithoutTag(d, fields[..n], t);
    }
  }

  /** The last field of tag `t` decides the entry: later fields overwrite earlier ones. */
  lemma {:induction false} LastTextFieldWins(d: ExifData, fields: seq<Field>, t: Tag, i: nat)
    requires t == Make || t == Model || t == DateTimeOriginal
    requires i < |fields| && fields[i].tag == t
    requires forall k :: i < k < |fields| ==> fields[k].tag != t
    ensures TextEntry(ApplyAll(d, fields), t) == Some(fields[i].shown)
  {
    var n := |fields| - 1;
    if i < n {
      assert fields[..n][i] == fields[i];
      forall k | i < k < n ensures fields[..n][k].tag != t {
        assert fields[..n][k] == fields[k];
      }
      LastTextFieldWins(d, fields[..n], t, i);
    }
  }

  /**
    `iso` is decided by the last `ISOSpeed` field whose value is a `Short` list: its
    first element, or `None` for an empty list.
  */
  lemma {:induction false} LastIsoFieldWins(d: ExifData, fields: seq<Field>, i: nat)
    requires i < |fields| && fields[i].tag == ISOSpeed && fields[i].value.ShortValue?
    requires forall k :: i < k < |fields| ==> !(fields[k].tag == ISOSpeed && fields[k].value.ShortValue?)
    ensures var vs := fields[i].value.shorts;
      ApplyAll(d, fields).iso == if |vs| > 0 then Some(vs[0]) else None
  {
    var n := |fields| - 1;
    if i < n {
      assert fields[..n][i] == fields[i];
      forall k | i < k < n ensures !(fields[..n][k].tag == ISOSpeed && fields[..n][k].value.ShortValue?) {
        assert fields[..n][k] == fields[k];
      }
      LastIsoFieldWins(d, fields[..n], i);
    }
  }

  /** A field that sets the rational-valued entry `t`: tag `t` and a non-empty rational list. */
  predicate SetsRational(f: Field, t: Tag) {
    f.tag == t && FirstRational(f.value).Some?
  }

  /**
    The last field that sets a rational-valued entry decides it; later fields of that
    tag whose value holds no rational are skipped.
  */
  lemma {:induction false} LastRationalFieldWins(d: ExifData, fields: seq<Field>, t: Tag, i: nat)
    requires t == ExposureTime || t == FNumber || t == FocalLength
    requires i < |fields| && SetsRational(fields[i], t)
    requires forall k :: i < k < |fields| ==> !SetsRational(fields[k], t)
    ensures var q, r := fields[i].value.rationals[0], ApplyAll(d, fields);
      && (t == ExposureTime ==> r.exposureTime == Some(ExposureText(q)))
      && (t == FNumber ==> r.fNumber == Some(Ratio(q.num, q.denom)))
      && (t == FocalLength ==> r.focalLength == Some(Ratio(q.num, q.denom)))
  {
    var n := |fields| - 1;
    if i < n {
      assert fields[..n][i] == fields[i];
      forall k | i < k < n ensures !SetsRational(fields[..n][k], t) {
        assert fields[..n][k] == fields[k];
      }
      LastRationalFieldWins(d, fields[..n], t, i);
      assert !SetsRational(fields[n], t);
    }
  }

  /** With no field setting the rational-valued entry `t`, that entry keeps its value. */
  lemma {:induction false} RationalEntryKeptWithoutTag(d: ExifData, fields: seq<Field>, t: Tag)
    requires t == ExposureTime || t == FNumber || t == FocalLength
    requires forall k :: 0 <= k < |fields| ==> !SetsRational(fields[k], t)
    ensures var r := ApplyAll(d, fields);
      && (t == ExposureTime ==> r.exposureTime == d.exposureTime)
      && (t == FNumber ==> r.fNumber == d.fNumber)
      && (t == FocalLength ==> r.focalLength == d.focalLength)
  {
    if fields != [] {
      var n := |fields| - 1;
      forall k | 0 <= k < n ensures !SetsRational(fields[..n][k], t) {
        assert fields[..n][k] == fields[k];
      }
      RationalEntryKeptWithoutTag(d, fields[..n], t);
      assert !SetsRational(fields[n], t);
    }
  }

  /** An exposure field with no rational (empty list or another shape) leaves the exposure as it was. */
  lemma ExposureWithoutRationalKept(d: ExifData, fields: seq<Field>, f: Field)
    requires f.tag == ExposureTime && FirstRational(f.value).None?
    ensures ApplyAll(d, fields + [f]) == ApplyAll(d, fields)
  {
    ApplyAllConcat(d, fields, [f]);
  }

  // ---------------------------------------------------------------------------
  // The photo.

  /** Why `Photo::load_image` failed. */
  datatype ImageError = RawFailed(e: LoadError) | OpenFailed

  /**
    `Photo::load_image`: the routing of `get_processor`, then the chosen processor's
    `load_image`.  `openResult` is what `image::open` gives the standard processor.
  */
  function LoadImageResult(file: Bytes, exists_: bool, decoded: Option<RawImage>, openResult: Option<DecodedImage>,
                           toByte: real -> bv8): (r: Result<DecodedImage, ImageError>)
    requires Route(file) == Raw && decoded.Some? ==> Convertible(decoded.value)
    // each failure comes from the processor the file was routed to
    ensures r.Failure? && r.error.RawFailed? ==> Route(file) == Raw
    ensures r == Failure(OpenFailed) ==> Route(file) == Standard
    // the standard route is `image::open`
    ensures Route(file) == Standard ==> (r.Success? <==> openResult.Some?)
    ensures Route(file) == Standard && r.Success? ==> r.value == openResult.value
    // the raw route is the raw processor's `load_image`, its error wrapped
    ensures Route(file) == Raw ==>
      var raw := LoadRawResult(exists_, file, decoded, toByte);
      (r.Success? <==> raw.Success?)
      && (r.Success? ==> r.value == raw.value)
      && (r.Failure? ==> r.error == RawFailed(raw.error))
  {
    match Route(file)
    case Raw =>
      (match LoadRawResult(exists_, file, decoded, toByte)
       case Success(img) => Success(img)
       case Failure(e) => Failure(RawFailed(e)))
    case Standard =>
      (match openResult
       case Some(img) => Success(img)
       case None => Failure(OpenFailed))
  }

  /**
    A file routed to the raw processor passes the processor's second detection, so it
    fails only when it is missing or the decoder refuses it; otherwise it yields a
    `3*w*h`-byte image of the decoder's size.
  */
  lemma RawRoutedImageLoads(file: Bytes, exists_: bool, decoded: Option<RawImage>, openResult: Option<DecodedImage>,
                            toByte: real -> bv8)
    requires decoded.Some? ==> Convertible(decoded.value)
    requires Route(file) == Raw
    ensures var r := LoadImageResult(file, exists_, decoded, openResult, toByte);
      && (r.Success? <==> exists_ && decoded.Some?)
      && (!exists_ ==> r == Failure(RawFailed(FileMissing)))
      && (exists_ && decoded.None? ==> r == Failure(RawFailed(DecodeFailed)))
      && (r.Success? ==> r.value.width == decoded.value.width && r.value.height == decoded.value.height
                         && |r.value.rgb| == 3 * (r.value.width * r.value.height))
  {
    LoadRawNeverTooSmall(exists_, file, decoded, toByte);
  }

  class Photo {
    const path: Path
    var exifData: Option<ExifData>
    var image: Option<DecodedImage>

    /**
      `Photo::new`: the record starts with no EXIF and no image, then `load_exif` runs;
      its failure is swallowed, so construction always succeeds.
    */
    constructor (path: Path, container: Option<seq<Field>>)
      ensures this.path == path && image == None
      ensures exifData == if container.Some? then Some(ExifFromFields(container.value)) else None
    {
      this.path := path;
      exifData := None;
      image := None;
      new;
      var _ := LoadExif(container);
    }

    /**
      `load_exif`: `container` is `None` when the file cannot be opened or its EXIF
      container cannot be read; then the method fails and `exifData` is untouched.
    */
    method LoadExif(container: Option<seq<Field>>) returns (ok: bool)
      modifies this
      ensures ok <==> container.Some?
      ensures exifData == if container.Some? then Some(ExifFromFields(container.value)) else old(exifData)
      ensures image == old(image)
    {
      if container.None? {
        return false;
      }
      var data := ReadExif(container.value);
      exifData := Some(data);
      return true;
    }

    /** `set_image`: only the image changes. */
    method SetImage(img: DecodedImage)
      modifies this
      ensures image == Some(img)
      ensures exifData == old(exifData)
    {
      image := Some(img);
    }
  }

  /** `Photo::new(path)`, which returns `Ok` on every input. */
  method NewPhoto(path: Path, container: Option<seq<Field>>) returns (r: Result<Photo, string>)
    ensures r.Success?
    ensures fresh(r.value) && r.value.path == path && r.value.image == None
    ensures r.value.exifData == if container.Some? then Some(ExifFromFields(container.value)) else None
  {
    var photo := new Photo(path, container);
    return Success(photo);
  }
}
