/**
  The text lines `PhotoView::view` (src/ui.rs) shows above the image: the file name,
  and, when the photo has EXIF data, the camera, the date and the exposure settings.

  The two `f32` renderings (`{:.1}` of the f-number, `{}` of the focal length) are
  parameters; the rational exposure text and the ISO number are rendered exactly.
*/
module Caption {
  import opened Wrappers
  import opened Decimal
  import opened Paths
  import opened PhotoRecord

  const Bullet: string := " \U{2022} "

  /** `format!("File: {}", file_name().unwrap_or_default())`. */
  function FileLine(p: Path): (line: string)
    ensures |line| >= 6 && line[..6] == "File: "
    ensures FileName(p).None? ==> line == "File: "
    ensures FileName(p).Some? ==> line[6..] == FileName(p).value
  {
    "File: " + (match FileName(p) case Some(name) => name case None => "")
  }

  /**
    The camera line: `make model` when both are known, otherwise whichever is known,
    otherwise `Unknown Camera`.
  */
  function CameraLine(d: ExifData): (line: string)
    ensures d.make.Some? ==> |line| >= |d.make.value| && line[..|d.make.value|] == d.make.value
    ensures d.model.Some? ==> |line| >= |d.model.value| && line[|line| - |d.model.value|..] == d.model.value
    ensures d.make.Some? && d.model.Some? ==> |line| == |d.make.value| + 1 + |d.model.value| && line[|d.make.value|] == ' '
    ensures d.make.Some? && d.model.None? ==> line == d.make.value
    ensures d.make.None? && d.model.Some? ==> line == d.model.value
    ensures d.make.None? && d.model.None? ==> line == "Unknown Camera"
  {
    match (d.make, d.model)
    case (Some(make), Some(model)) => make + " " + model
    case (Some(make), None) => make
    case (None, Some(model)) => model
    case (None, None) => "Unknown Camera"
  }

  function Opt<T>(o: Option<T>, render: T -> string): seq<string> {
    if o.Some? then [render(o.value)] else []
  }

  function Count<T>(o: Option<T>): nat {
    if o.Some? then 1 else 0
  }

  /** The settings entries, present ones only, in the order exposure, f-number, ISO, focal length. */
  function Settings(d: ExifData, showFNumber: Ratio -> string, showFocal: Ratio -> string): seq<string> {
    Opt(d.exposureTime, (e: string) => e + "s")
    + Opt(d.fNumber, (f: Ratio) => "f/" + showFNumber(f))
    + Opt(d.iso, (i: nat) => "ISO " + NatToString(i))
    + Opt(d.focalLength, (f: Ratio) => showFocal(f) + "mm")
  }

  /** Lines 41-54: the settings vector grown by conditional pushes. */
  method BuildSettings(d: ExifData, showFNumber: Ratio -> string, showFocal: Ratio -> string)
    returns (settings: seq<string>)
    ensures settings == Settings(d, showFNumber, showFocal)
  {
    settings := [];
    if d.exposureTime.Some? {
      settings := settings + [d.exposureTime.value + "s"];
    }
    if d.fNumber.Some? {
      settings := settings + ["f/" + showFNumber(d.fNumber.value)];
    }
    if d.iso.Some? {
      settings := settings + ["ISO " + NatToString(d.iso.value)];
    }
    if d.focalLength.Some? {
      settings := settings + [showFocal(d.focalLength.value) + "mm"];
    }
  }

  /**
    Each present setting sits at the position given by the number of present settings
    before it in the fixed order, so it is listed once and in that order; the list is
    empty exactly when all four are absent.
  */
  lemma SettingsFixedOrder(d: ExifData, showFNumber: Ratio -> string, showFocal: Ratio -> string)
    ensures var s := Settings(d, showFNumber, showFocal);
      var e, f, i, l := Count(d.exposureTime), Count(d.fNumber), Count(d.iso), Count(d.focalLength);
      && |s| == e + f + i + l
      && (d.exposureTime.Some? ==> s[0] == d.exposureTime.value + "s")
      && (d.fNumber.Some? ==> s[e] == "f/" + showFNumber(d.fNumber.value))
      && (d.iso.Some? ==> s[e + f] == "ISO " + NatToString(d.iso.value))
      && (d.focalLength.Some? ==> s[e + f + i] == showFocal(d.focalLength.value) + "mm")
      && (s == [] <==> d.exposureTime.None? && d.fNumber.None? && d.iso.None? && d.focalLength.None?)
  {
  }

  /** `parts.join(sep)`. */
  function Join(parts: seq<string>, sep: string): string {
    if parts == [] then ""
    else if |parts| == 1 then parts[0]
    else Join(parts[..|parts| - 1], sep) + sep + parts[|parts| - 1]
  }

  /** Joining two non-empty lists is joining each and putting one separator between them. */
  lemma {:induction false} JoinConcat(a: seq<string>, b: seq<string>, sep: string)
    requires a != [] && b != []
    ensures Join(a + b, sep) == Join(a, sep) + sep + Join(b, sep)
    decreases |b|
  {
    var n := |b| - 1;
    assert (a + b)[..|a + b| - 1] == a + b[..n];
    assert (a + b)[|a + b| - 1] == b[n];
    if n > 0 {
      JoinConcat(a, b[..n], sep);
    }
  }

  /** The joined text holds every part and one separator between neighbours. */
  lemma {:induction false} JoinLength(parts: seq<string>, sep: string)
    requires parts != []
    ensures |Join(parts, sep)| == SumLengths(parts) + (|parts| - 1) * |sep|
  {
    if |parts| > 1 {
      var init, last := parts[..|parts| - 1], parts[|parts| - 1];
      JoinLength(init, sep);
      assert parts == init + [last];
      SumLengthsSnoc(init, last);
      assert Join(parts, sep) == Join(init, sep) + sep + last;
      SeparatorCount(|init|, |sep|);
    }
  }

  lemma SeparatorCount(n: nat, k: nat)
    requires n >= 1
    ensures (n - 1) * k + k == n * k
  {
  }

  function SumLengths(parts: seq<string>): nat {
    if parts == [] then 0 else |parts[0]| + SumLengths(parts[1..])
  }

  lemma {:induction false} SumLengthsSnoc(parts: seq<string>, last: string)
    ensures SumLengths(parts + [last]) == SumLengths(parts) + |last|
  {
    if parts != [] {
      assert (parts + [last])[1..] == parts[1..] + [last];
      SumLengthsSnoc(parts[1..], last);
    }
  }

  /** The caption lines, in display order. */
  function CaptionLines(p: Path, exif: Option<ExifData>, showFNumber: Ratio -> string, showFocal: Ratio -> string)
    : seq<string>
  {
    [FileLine(p)]
    + match exif
      case None => []
      case Some(d) =>
        var settings := Settings(d, showFNumber, showFocal);
        [CameraLine(d)]
        + Opt(d.datetime, (t: string) => "Date: " + t)
        + (if settings != [] then [Join(settings, Bullet)] else [])
  }

  /**
    The file line always comes first; without EXIF data it is the only line.  With EXIF
    data the camera line follows, then the date line exactly when the date is present,
    then the joined settings exactly when at least one setting is present.
  */
  lemma CaptionShape(p: Path, exif: Option<ExifData>, showFNumber: Ratio -> string, showFocal: Ratio -> string)
    ensures var lines := CaptionLines(p, exif, showFNumber, showFocal);
      && |lines| >= 1 && lines[0] == FileLine(p)
      && (exif.None? <==> |lines| == 1)
      && (exif.Some? ==>
            var d := exif.value;
            var settings := Settings(d, showFNumber, showFocal);
            var t := Count(d.datetime);
            && |lines| == 2 + t + (if settings != [] then 1 else 0)
            && lines[1] == CameraLine(d)
            && (d.datetime.Some? ==> lines[2] == "Date: " + d.datetime.value)
            && (settings != [] ==> lines[2 + t] == Join(settings, Bullet)))
  {
  }

  /** Lines 19-58 of `view`: the info column grown line by line. */
  method ViewLines(photo: Photo, showFNumber: Ratio -> string, showFocal: Ratio -> string) returns (info: seq<string>)
    ensures info == CaptionLines(photo.path, photo.exifData, showFNumber, showFocal)
  {
    info := [];
    var name := match FileName(photo.path) case Some(n) => n case None => "";
    info := info + ["File: " + name];
    if photo.exifData.Some? {
      var exif := photo.exifData.value;
      info := info + [CameraLine(exif)];
      if exif.datetime.Some? {
        info := info + ["Date: " + exif.datetime.value];
      }
      var settings := BuildSettings(exif, showFNumber, showFocal);
      if settings != [] {
        info := info + [Join(settings, Bullet)];
      }
    }
  }
}
