/**
  Processor routing (src/processors/mod.rs) and the two `can_handle` predicates
  (src/processors/standard.rs, src/processors/raw.rs).

  The trait objects of the Rust code become a closed tag: `get_processor` returns
  `Raw` or `Standard`.  Each decision is a function of the detection result, which is
  `Detector.Detect` of the file (or any other failure of the detector's reads).
*/
module Processors {
  import opened Wrappers
  import opened Detector

  datatype ProcessorKind = Standard | Raw

  type Detection = Result<ImageType, DetectError>

  /** `get_processor`: raw types go to the raw processor; anything else, and any detection error, to the standard one. */
  function GetProcessor(d: Detection): (k: ProcessorKind)
    ensures k == Raw <==> d.Success? && d.value.IsRaw()
    ensures d.Failure? ==> k == Standard
  {
    match d
    case Success(t) => if t.IsRaw() then Raw else Standard
    case Failure(_) => Standard
  }

  /** `StandardProcessor::can_handle`. */
  function StandardCanHandle(d: Detection): (b: bool)
    ensures b <==> d.Success? && d.value in {Jpeg, Png, Gif, WebP, Tiff}
  {
    match d
    case Success(t) => t.Jpeg? || t.Png? || t.Gif? || t.WebP? || t.Tiff?
    case Failure(_) => false
  }

  /** `RawProcessor::can_handle`. */
  function RawCanHandle(d: Detection): (b: bool)
    ensures b <==> d.Success? && d.value in {RawFuji, RawCanon, RawNikon, RawSony, RawPanasonic, RawGeneric}
  {
    match d
    case Success(t) => t.IsRaw()
    case Failure(_) => false
  }

  /** The routing of a file, from its bytes. */
  function Route(file: Bytes): (k: ProcessorKind)
    ensures k == Raw <==> |file| >= HeaderSize && Detect(file).value.IsRaw()
    ensures |file| < HeaderSize ==> k == Standard
  {
    GetProcessor(Detect(file))
  }

  /** The raw processor is chosen exactly when it would say it can handle the file. */
  lemma RawChosenIffRawCanHandle(d: Detection)
    ensures GetProcessor(d) == Raw <==> RawCanHandle(d)
  {
  }

  /** Whenever the standard processor can handle the file, it is the one chosen. */
  lemma StandardCanHandleImpliesChosen(d: Detection)
    ensures StandardCanHandle(d) ==> GetProcessor(d) == Standard
  {
  }

  /** The two `can_handle` predicates are never both true. */
  lemma CanHandleDisjoint(d: Detection)
    ensures !(StandardCanHandle(d) && RawCanHandle(d))
  {
  }

  /** `Unknown` is accepted by neither processor, and yet is routed to the standard one. */
  lemma UnknownIsOrphan()
    ensures !StandardCanHandle(Success(Unknown)) && !RawCanHandle(Success(Unknown))
    ensures GetProcessor(Success(Unknown)) == Standard
  {
  }

  /**
    Routing by file bytes: a file shorter than the header goes to the standard processor,
    and so does every TIFF-magic file (Nikon raws included).
  */
  lemma RouteOfShortAndTiffFiles(file: Bytes)
    ensures |file| < HeaderSize ==> Route(file) == Standard
    ensures |file| >= HeaderSize && IsTiffMagic(file) ==> Route(file) == Standard
  {
    if |file| >= HeaderSize && IsTiffMagic(file) {
      TiffMagicIsTiff(file);
    }
  }

  /** The standard processor accepts exactly the files routed to it, minus errors and `Unknown`. */
  lemma StandardCanHandleIffRoutedAndKnown(d: Detection)
    ensures StandardCanHandle(d) <==> GetProcessor(d) == Standard && d.Success? && d.value != Unknown
  {
  }
}
