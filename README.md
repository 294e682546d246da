# PhotoFlow core in Dafny

This project models the core of PhotoFlow, a desktop photo viewer written in Rust, and proves properties of that model. The model covers:

- **Header sniffing** (`Detector`). Detection is a total function from a file's bytes to an `ImageType` or a read error. It is proved equal to a declarative first-match rule table.
- **Processor routing** (`Processors`). `get_processor` and the two `can_handle` predicates, as functions of the detection result.
- **Raw-to-RGB conversion** (`RawConvert`, `Demosaic`). Both modules keep the source's array form:
  - pass one fills three fresh `array<real>` channel buffers;
  - pass two interpolates in place;
  - pass three packs the bytes.

  Each method is proved equal to a pure specification, and the properties are proved on that specification.
- **The photo record** (`PhotoRecord`): a class with a constant path, plus the EXIF tag-dispatch loop taken over the field list that the EXIF reader produces.
- **The viewer state machine** (`Viewer`). A class with the `update` handlers, plus the directory scan with its extension filter (`Paths`).
- **Caption text** (`Caption`): the info lines shown above the photo.

The modules, in dependency order, are `Wrappers`, `Detector`, `Processors`, `Demosaic`, `RawConvert`, `Decimal`, `Paths`, `PhotoRecord`, `Viewer` and `Caption`, one file each.

Inputs from the outside world become parameters:

| Outside world | Parameter |
|---|---|
| File contents | `file: Bytes` |
| `path.exists()` | `exists_` |
| The raw decoder's output | `Option<RawImage>`, holding samples, levels, white-balance coefficients and a CFA colour function |
| `image::open` | `openResult` |
| The EXIF reader | `Option<seq<Field>>` |
| The folder dialog and `read_dir` | `Option<Option<seq<Option<Path>>>>` |
| Gamma plus the `as u8` cast | `toByte: real -> bv8` |
| The two `f32` renderings of the caption | `showFNumber`, `showFocal` |

Where the code does less than its own names, comments and tests suggest, the model follows the code:

- **Nikon raws.** The TIFF check returns early, so Nikon raws are classified `Tiff`, not `RawNikon`. The Nikon test also compares 4-byte windows with the 5-byte `NIKON`. Both are proved (`TiffMagicIsTiff`, `NikonWindowNeverMatches`, `Detect`'s `r != Success(RawNikon)`).
- **Gamma.** The comment at src/processors/raw.rs:51 announces "format-specific adjustments", but the code uses one fixed gamma of 2.2 (raw.rs:264-268) with a truncating cast, whatever the format, and no rounding. Both are inside the `toByte` parameter.
- **Colour lookup.** Pass one takes each pixel's colour from a hard-coded 6×6 X-Trans table. Pass two uses the decoder's CFA descriptor instead.
- **Interior pixels.** Pass two only fills an entry when some neighbour of the entry's own channel is positive. Interior pixels are therefore not always filled. `MeanBounds` states exactly when an entry stays 0.0.
- **Float samples.** The float branch (raw.rs:273-275, marked as a TODO there) produces an all-zero buffer. It does not normalise float samples.
- **No image cache.** The test at src/processors/tests.rs:33-42 expects a second `Photo::new` of the same file to hit a cache and return with an image. The code has no cache, so none is modelled, and `Photo::new` leaves `image` empty.

## Model

| member | source | states |
|---|---|---|
| Detector.Detect | src/processors/detector.rs:37-126 | The early-return chain, in source order, including the Nikon re-read. The result is an error exactly when the file is shorter than the 16-byte header. Any header starting `FF D8` is `Jpeg`. `RawNikon` is never produced. |
| Detector.DetectIsFirstMatch | src/processors/detector.rs:39-125 | `Detect` equals the first-match classification of the first 16 bytes by the independent rule table (Nikon rule absent). A short file gives `HeaderTooShort`. |
| Detector.DetectDependsOnHeaderOnly | src/processors/detector.rs:39-125 | Two files that agree on their first 16 bytes get the same result. |
| Detector.TiffMagicIsTiff | src/processors/detector.rs:65-68 | `MM\0*` or `II*\0` at bytes 0-3 gives `Tiff` whatever follows, so the Nikon branch (lines 85-95) is never reached. |
| Detector.NikonWindowNeverMatches | src/processors/detector.rs:91 | No 4-byte window ever equals the 5-byte `NIKON`, so the test fails even when reached. |
| Detector.RiffWithoutWebpFallsThrough | src/processors/detector.rs:59-62 | `RIFF` without `WEBP` at bytes 8-11 is not `WebP`; it is decided by the table's rules from TIFF on. |
| Detector.GenericOrUnknown | src/processors/detector.rs:110-125 | When no earlier rule matches, the result is `RawGeneric` iff one of `CIFF`/`HEIC`/`DNGK`/`EPAK` occurs at an offset 0..12 of the header. Otherwise it is `Unknown`, which is a success. |
| Detector.AnyWindowSpec | src/processors/detector.rs:91 | The recursive `windows(n).any(==)` scan is true iff some window of that size from the start offset on equals the literal. |
| Detector.AnyMarkerSpec | src/processors/detector.rs:117-122 | The marker loop succeeds iff some marker occurs as a window of the header. |
| Detector.IsRawExactlyRawVariants | src/processors/detector.rs:24-34 | `is_raw` holds for exactly the six `Raw*` variants. |
| Processors.GetProcessor | src/processors/mod.rs:22-38 | Definition: Raw iff detection is `Ok(t)` with `t.is_raw()`. A detection error routes to Standard. |
| Processors.StandardCanHandle | src/processors/standard.rs:17-29 | Definition: true exactly for `Ok` of Jpeg, Png, Gif, WebP or Tiff; false on a detection error. |
| Processors.RawCanHandle | src/processors/raw.rs:19-24 | Definition: true exactly for `Ok` of one of the six `Raw*` variants; false on a detection error. |
| Processors.Route | src/processors/mod.rs:22-38 | The processor `get_processor` picks for a file's bytes: Raw exactly when the file has a full header whose detected type is raw; a file shorter than the header goes to Standard. |
| Processors.RawChosenIffRawCanHandle | src/processors/mod.rs:23-31 | Raw is chosen exactly when `RawProcessor::can_handle` holds on the same detection result. |
| Processors.StandardCanHandleImpliesChosen | src/processors/mod.rs:26-30 | Whenever `StandardProcessor::can_handle` holds, Standard is chosen. |
| Processors.CanHandleDisjoint | src/processors/standard.rs:19-26 | The two `can_handle` predicates are never both true. |
| Processors.UnknownIsOrphan | src/processors/mod.rs:29 | `Unknown` is accepted by neither processor, yet is routed to Standard. |
| Processors.RouteOfShortAndTiffFiles | src/processors/mod.rs:23-36 | A file shorter than the header, and every TIFF-magic file (Nikon raws included), goes to the standard processor. |
| Processors.StandardCanHandleIffRoutedAndKnown | src/processors/standard.rs:19-27 | Standard accepts exactly the results routed to it, minus errors and `Unknown`. |
| RawConvert.XTrans | src/processors/raw.rs:110-128 | The X-Trans table is total on the 6×6 tile and always yields a channel in {0,1,2}, so `unreachable!()` never fires. |
| RawConvert.TableColor | src/processors/raw.rs:110-112 | The lookup on `(x%6, y%6)` of a buffer index is a channel in {0,1,2}. |
| RawConvert.Clamp | src/processors/raw.rs:107 | `clamp(0.0, 1.0)` yields a value in [0,1] and leaves values already in range unchanged. |
| RawConvert.Normalize | src/processors/raw.rs:106-107 | `(v - black)/range` clamped into [0,1] for any non-zero range. With `white > black`: 0 at or below black, 1 at or above white. With `white < black` the map is reversed: 0 at or above black, 1 at or below white. |
| RawConvert.WbCoeff | src/processors/raw.rs:131-136 | Definition: the white-balance coefficient of colour 0, 1 or 2, and 1.0 for any other colour. |
| RawConvert.NormalizeLinear | src/processors/raw.rs:106 | Between the levels, normalising is the linear map of [black, white] onto [0, 1]. |
| RawConvert.PassOne | src/processors/raw.rs:95-148 | Pass one yields three buffers of exactly `w*h` entries. |
| RawConvert.PassOneSingleChannel | src/processors/raw.rs:95-97 | After pass one, each pixel holds `normalized*wb[c]` in its table channel `c`, and the other two buffers are 0.0 at that index. |
| RawConvert.StoreKnown | src/processors/raw.rs:101-146 | One pixel of pass one writes only entry `y*w+x`, giving each buffer its pass-one value there. |
| RawConvert.FillRow | src/processors/raw.rs:101-147 | The inner loop over one row: if the pixels before the row's first index hold their pass-one values and the rest are 0.0, then afterwards the same holds up to the end of the row. |
| RawConvert.FillKnown | src/processors/raw.rs:95-148 | The nested loop allocates three distinct fresh buffers and leaves them equal to the pass-one specification. |
| RawConvert.PackSpec | src/processors/raw.rs:265-270 | Packing yields exactly `3*n` bytes, with R, G, B of pixel `k` at `3k`, `3k+1`, `3k+2`. |
| RawConvert.PackRgb | src/processors/raw.rs:265-270 | The `extend_from_slice` loop computes exactly the packing of the three buffers. |
| RawConvert.FloatRgb | src/processors/raw.rs:273-276 | Definition: the float branch is `3*w*h` zero bytes. |
| RawConvert.ConvertedLength | src/processors/raw.rs:265-276 | Both branches produce exactly `3*w*h` bytes. |
| RawConvert.ConvertInteger | src/processors/raw.rs:66-272 | Pass one, in-place pass two and pass three on arrays compute the bytes of the pure pipeline, whose length is `3*w*h`. |
| RawConvert.LoadRawNeverTooSmall | src/processors/raw.rs:26-285 | `from_raw` never fails. `load_image` succeeds iff the file exists, has a full header and decodes. The image has the decoder's size and `3*w*h` bytes. |
| RawConvert.LoadRaw | src/processors/raw.rs:26-285 | `load_image`'s error chain: missing file, then detection error, then decoder error, then buffer size. It ends with the converted image. |
| Demosaic.NeighboursInBounds | src/processors/raw.rs:172-244 | For interior pixels, every neighbour index `i±1`, `i±w`, `i±1±w` lies in `[0, w*h)`, with no subtraction below zero. |
| Demosaic.MeanBounds | src/processors/raw.rs:178-180 | A filled value lies between the smallest and largest positive neighbour and is positive. It is 0.0 exactly when no neighbour is positive. |
| Demosaic.Fill | src/processors/raw.rs:171-181 | Filling one channel entry changes only that entry. It takes the mean of the positive neighbours when the entry is exactly 0.0, else keeps it. |
| Demosaic.StepAt | src/processors/raw.rs:169-248 | At buffer index `i` of colour `c`, only entry `i` changes. A red pixel (`c = 0`) fills green from the cross neighbours and blue from the diagonal ones. A green pixel fills red and blue from the cross. A blue pixel fills red from the diagonal and green from the cross. The pixel's own channel is kept, and an unknown colour changes nothing. |
| Demosaic.Step | src/processors/raw.rs:161-166 | Interior pixel (x, y) is buffer index `y*w+x`, whose cross and diagonal neighbours all lie inside the buffers. The buffers keep their size. |
| Demosaic.PassTwo | src/processors/raw.rs:161-251 | Pass two keeps the three buffers at `w*h` entries. |
| Demosaic.PassTwoKeeps | src/processors/raw.rs:161-251 | After pass two, every border entry keeps its pass-one value. No non-zero value is overwritten (the write-only-if-zero rule). |
| Demosaic.FillAt | src/processors/raw.rs:171-181 | The array update of one channel entry equals `Fill` on the old buffer. |
| Demosaic.InterpolateAt | src/processors/raw.rs:169-248 | The in-place update of buffer index `i` equals `StepAt` on the old buffers. |
| Demosaic.InterpolatePixel | src/processors/raw.rs:163-248 | The array update of interior pixel (x, y), with the colour from the CFA descriptor, equals `Step` on the old buffers. |
| Demosaic.InterpolateInPlace | src/processors/raw.rs:161-251 | The in-place nested loop leaves the buffers equal to pass two: the raster-order fold of `Step` over the interior, so values filled earlier feed later pixels. |
| Decimal.NatToStringSpec | src/photo.rs:96 | `{}` of an unsigned number is a non-empty digit string with no leading zero that parses back to the number. |
| Decimal.NatToStringInjective | src/photo.rs:96 | Different numbers render differently. |
| PhotoRecord.FirstRational | src/photo.rs:94-95 | Definition: `rationals.first()` of a `Rational` value: present exactly for a non-empty rational list. |
| PhotoRecord.ExposureTextInjective | src/photo.rs:96 | The `"num/denom"` text determines the rational it came from. |
| PhotoRecord.ApplyField | src/photo.rs:86-123 | One loop iteration changes only the record entry of the field's tag. Make, Model and DateTimeOriginal set the displayed text. The three rational tags use the first rational or leave the entry alone. ISOSpeed with a Short list sets its first element, and an empty list resets to `None`. |
| PhotoRecord.ReadExif | src/photo.rs:73-124 | The loop builds the fold of the fields, in order, starting from the empty record. |
| PhotoRecord.ApplyAllConcat | src/photo.rs:84-124 | Fields are processed in order: a split list acts as its first part followed by its second. |
| PhotoRecord.UnlistedTagsIgnored | src/photo.rs:122 | Dropping every field with an unlisted tag gives the same record. |
| PhotoRecord.LastTextFieldWins | src/photo.rs:87-92 | The last Make/Model/DateTimeOriginal field decides that entry: later fields overwrite earlier ones. |
| PhotoRecord.TextEntryKeptWithoutTag | src/photo.rs:87-92 | Without a field of that tag, the entry keeps its value. |
| PhotoRecord.LastIsoFieldWins | src/photo.rs:107-111 | `iso` is the first element of the last Short-valued ISOSpeed field, or `None` if that list is empty. |
| PhotoRecord.LastRationalFieldWins | src/photo.rs:93-118 | The last ExposureTime/FNumber/FocalLength field with a non-empty rational list decides that entry (`"num/denom"`, or the ratio): later such fields overwrite earlier ones, and fields of that tag without a rational are skipped. |
| PhotoRecord.RationalEntryKeptWithoutTag | src/photo.rs:93-118 | Without a field of that tag carrying a rational, the exposure, f-number or focal-length entry keeps its value. |
| PhotoRecord.ExposureWithoutRationalKept | src/photo.rs:93-98 | An ExposureTime field with no rational leaves the record as it was. |
| PhotoRecord.LoadImageResult | src/photo.rs:56-64 | `load_image` delegates to the routed processor. On the standard route it succeeds exactly when `image::open` does, with that image. On the raw route it gives the raw processor's result, with the error wrapped. A raw error arises only on the raw route, and an open error only on the standard route. The decoder output is constrained only on the raw route. |
| PhotoRecord.RawRoutedImageLoads | src/photo.rs:56-64 | A file routed to Raw passes the raw processor's second detection. It fails only if missing or undecodable, and otherwise yields a `3*w*h`-byte image of the decoder's size. |
| PhotoRecord.Photo.constructor | src/photo.rs:30-42 | The photo keeps the given path, has no image, and has EXIF data iff the container was read. |
| PhotoRecord.Photo.LoadExif | src/photo.rs:67-129 | Fails iff the container cannot be read, and then leaves `exifData` untouched. Otherwise stores the record built by the loop. |
| PhotoRecord.Photo.SetImage | src/photo.rs:52-54 | Sets `image` to the given image and leaves `exifData` unchanged (`path` is a constant). |
| PhotoRecord.NewPhoto | src/photo.rs:30-42 | `Photo::new` always returns `Ok`, with the given path and no image, even when EXIF loading fails. |
| Paths.LastIndexOf | src/main.rs:85 | The last occurrence of a character, or none. |
| Paths.FileName | src/ui.rs:23 | A file name, when present, is never empty, `.` or `..`. |
| Paths.Lower | src/main.rs:86 | Definition: lower-casing keeps the length and maps each character through ASCII lower-casing. |
| Paths.TrimTrailing | src/main.rs:85 | Dropping trailing separators and `.` components leaves a prefix of the path. |
| Paths.FileNameOfEntry | src/main.rs:84-85 | The file name of `dir/name` is `name` for a name without separator that does not end in `.`. |
| Paths.Extension | src/main.rs:85 | `Path::extension`: when present, the extension is the dot-free text after a `.` that is not the file name's first character, and it ends the name. It is absent only when there is no file name, the name has no `.`, or its only `.` is the leading one. |
| Paths.ExtensionOfEntry | src/main.rs:85 | `dir/stem.ext` has extension `ext` when `ext` has no `.` and `stem` is non-empty. |
| Paths.HiddenEntryHasNoExtension | src/main.rs:85 | `dir/.name` with no other `.` has no extension, so it is dropped. |
| Paths.EntryWithoutDotHasNoExtension | src/main.rs:85 | An entry without a `.` in its name has no extension, so it is dropped. |
| Paths.IsPhotoFile | src/main.rs:85-89 | The extension filter: a kept path has a file name and an extension of 3 or 4 characters, which lower-cased is `jpg`, `jpeg`, `raf` or `raw` (both directions in `EntryKeptIffExtensionListed`). |
| Paths.EntryEndingInDotDropped | src/main.rs:85-89 | An entry whose name ends in `.` (such as `photo.`) has the empty extension, or no file name at all, so the filter drops it. |
| Paths.EntryKeptIffExtensionListed | src/main.rs:85-89 | An entry is kept exactly when its lower-cased extension is `jpg`, `jpeg`, `raf` or `raw`. |
| Paths.UpperCaseJpgKept | src/main.rs:86-87 | `stem.JPG` is kept: the comparison is after lower-casing. |
| Viewer.KeptPathsSpec | src/main.rs:80-93 | The scan keeps exactly the readable entries that pass the extension filter. |
| Viewer.KeptPathsConcat | src/main.rs:82-92 | The scan preserves listing order. |
| Viewer.ScanDirectory | src/main.rs:75-97 | The pushing loop computes the filtered listing. No folder gives `Error("No directory selected")`, and a failed `read_dir` gives an empty list. |
| Viewer.FirstWithPath | src/main.rs:188 | `iter_mut().find`: the first photo whose path matches, or none when no path matches. |
| Viewer.PhotoFlow.constructor | src/main.rs:52-62 | Starts with no photos, no selection and no error, so the invariant holds initially. |
| Viewer.PhotoFlow.FindPhoto | src/main.rs:188 | The search loop returns the first index whose path matches. |
| Viewer.PhotoFlow.OnDirectoryLoaded | src/main.rs:102-132 | Clears the error. A non-empty list replaces the photos with one fresh photo per path, selects 0 and requests `paths[0]`. An empty list changes nothing else. The "No valid photos" branch is unreachable. |
| Viewer.PhotoFlow.OnPhotoSelected | src/main.rs:133-146 | An in-range index is selected and requested. Otherwise nothing changes. |
| Viewer.PhotoFlow.OnNextPhoto | src/main.rs:147-162 | Moves forward and requests a load only when `current + 1 < len`. Otherwise nothing changes. |
| Viewer.PhotoFlow.OnPreviousPhoto | src/main.rs:163-178 | Moves back and requests a load only when `current > 0`. Otherwise nothing changes. |
| Viewer.PhotoFlow.OnImageLoaded | src/main.rs:184-196 | With an image: sets the image of the first photo whose path matches, and no other. No EXIF, no selection and no error changes, and nothing happens when no path matches. Without an image: sets `error` to `"Failed to load image: " + path` and touches no photo. |
| Viewer.PhotoFlow.Update | src/main.rs:68-198 | Preserves "`current_photo` is `None` or in range" and photo distinctness. The folder dialog is requested exactly for `LoadDirectory`. Every load request is for the selected photo. Only `ImageLoaded` changes a photo object. Each message has its handler's effect: `LoadDirectory` changes no state and asks for the folder dialog; `DirectoryLoaded`, `PhotoSelected`, `NextPhoto`, `PreviousPhoto` and `ImageLoaded` as in the handler rows; `Error` sets only the error. |
| Caption.FileLine | src/ui.rs:22-25 | The first line is `"File: "` followed by the file name, or nothing after it if the path has no file name. |
| Caption.CameraLine | src/ui.rs:29-34 | `"make model"`, `make`, `model` or `"Unknown Camera"`, according to which are present. |
| Caption.BuildSettings | src/ui.rs:41-54 | The conditional pushes compute the settings list. |
| Caption.SettingsFixedOrder | src/ui.rs:41-54 | The settings appear in the fixed order exposure+"s", "f/"+fnum, "ISO "+iso, focal+"mm", each only when present. The list is empty iff all four are absent. |
| Caption.JoinConcat | src/ui.rs:56 | Joining concatenated lists puts one separator between the two joins. |
| Caption.JoinLength | src/ui.rs:56 | The joined text is the parts plus one separator between neighbours. |
| Caption.CaptionShape | src/ui.rs:22-58 | The file line is first and is alone without EXIF. With EXIF: the camera line, then `"Date: "+d` iff present, then the `" • "`-joined settings iff non-empty. |
| Caption.ViewLines | src/ui.rs:19-58 | The line-by-line building of the info column computes the caption lines of the photo. |

## Left out

- File I/O is not modelled: `File::open`, `read_exact`, `seek`, `path.exists()`, `fs::read_dir` and the folder dialog. Their results are inputs. A failed `File::open` in the detector is not distinguished from a short read.
- `rawloader::decode_file`, `image::open` and the exif crate's `Reader`/`display_as` are foreign code. The model takes their outputs as inputs.
- RawConvert.Normalize, Demosaic.StepAt and RawConvert.PackSpec work over `real`, not `f32`. They do not model rounding, NaN, or `powf(1/2.2)` with the saturating `as u8` cast, which is the opaque `toByte`.
- PhotoRecord.Ratio keeps the f-number and focal length as numerator and denominator. The `f32` division is not evaluated, and the caption's `{:.1}`/`{}` renderings of them are parameters.
- RawConvert.IntegerReady requires `w, h >= 1`, `|samples| >= w*h`, a non-zero level range (`white != black`), three white-balance coefficients and a non-empty CFA tile. On a zero range the `f32` division at src/processors/raw.rs:106 thresholds the image at the black level. A sample above black gives +inf, which `clamp` turns into 1.0. A sample below black gives -inf, which becomes 0.0. Only a sample equal to black gives 0/0 = NaN, which `clamp` keeps and `as u8` at raw.rs:266 turns into byte 0. The model does not cover this case. Its debug sampling loop underflows on a zero height or a zero width (`height as usize - 1`, `width as usize - 1` at src/processors/raw.rs:86-87), and pass two panics on an empty CFA tile (`x % cfa.width`, raw.rs:164). None of these is reported as an error. A reversed range (`white < black`) is accepted, as in the code. `Normalize` then maps values in the reverse direction and still lies in [0,1].
- The integers are unbounded. None of the following is modelled for wrap-around: the `u32`/`usize` casts of width and height, the `u32` products `width * height` (src/processors/raw.rs:94-96 and 265) and `width * height * 3` (raw.rs:275), or `current + 1`. The code's products can wrap on very large images; the model's `w*h` never does.
- The debug sampling loops and the discarded `_exif` record in `load_image` are logging-only and are not modelled.
- The iced runtime is not modelled: `Command::perform`, the asynchronous delivery and ordering of messages, and the widgets (the `view` of main.rs, ui.rs:60-78). `update` is a sequential reducer. ui.rs:63 calls `get_rgb_data`, which is not defined in src/photo.rs, so it is not modelled.
- Paths.FileName and Paths.Extension model Unix `/`-separated strings only. Rust's full component normalisation is not modelled; the model handles trailing separators and trailing `.` components only.
- Paths.Lower is ASCII `to_lowercase`; it does not model Unicode case mapping or `to_string_lossy`.
- Viewer.FirstWithPath compares paths as strings, whereas Rust's `Path` equality compares components (so `a//b` equals `a/b` in Rust).
- The image cache that src/processors/tests.rs:33-42 expects does not exist in the code, so it is not modelled; the tests themselves are not modelled.
- `PhotoFlow::title` and `main` are not modelled; they have no logic.
