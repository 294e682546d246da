/**
  The application state of src/main.rs and its `update` reducer.

  `update` runs one message at a time: it changes `photos`, `currentPhoto` and `error`
  and returns the one command the iced runtime is asked to perform, which here is either
  nothing, the folder dialog, or loading the image at a path.  The runtime's delivery of
  the resulting messages, and their order, is not part of the model.
*/
module Viewer {
  import opened Wrappers
  import opened Paths
  import opened PhotoRecord
  import opened RawConvert

  datatype Message =
    | LoadDirectory
    | DirectoryLoaded(paths: seq<Path>)
    | PhotoSelected(index: nat)
    | NextPhoto
    | PreviousPhoto
    | Error(text: string)
    | ImageLoaded(path: Path, image: Option<DecodedImage>)

  /** What `update` asks the runtime to do next. */
  datatype Command = NoCommand | PickDirectory | LoadImage(path: Path)

  // ---------------------------------------------------------------------------
  // The folder scan started by `LoadDirectory` (lines 75-97).

  /** The entries of a listing that pass the extension filter, in listing order; unreadable entries are skipped. */
  function KeptPaths(entries: seq<Option<Path>>): seq<Path> {
    if entries == [] then []
    else
      var n := |entries| - 1;
      KeptPaths(entries[..n])
        + (if entries[n].Some? && IsPhotoFile(entries[n].value) then [entries[n].value] else [])
  }

  /** Filtering a listing keeps exactly its readable photo entries and nothing else. */
  lemma {:induction false} KeptPathsSpec(entries: seq<Option<Path>>)
    ensures forall p :: p in KeptPaths(entries) <==> Some(p) in entries && IsPhotoFile(p)
  {
    if entries != [] {
      var n := |entries| - 1;
      KeptPathsSpec(entries[..n]);
      assert entries == entries[..n] + [entries[n]];
    }
  }

  /** Filtering one more entry appends it when it is a readable photo entry. */
  lemma KeptPathsStep(entries: seq<Option<Path>>, i: nat)
    requires i < |entries|
    ensures KeptPaths(entries[..i + 1]) == KeptPaths(entries[..i])
      + (if entries[i].Some? && IsPhotoFile(entries[i].value) then [entries[i].value] else [])
  {
    assert entries[..i + 1][..i] == entries[..i];
  }

  /** Filtering a listing split in two filters each part, so the listing order is kept. */
  lemma {:induction false} KeptPathsConcat(a: seq<Option<Path>>, b: seq<Option<Path>>)
    ensures KeptPaths(a + b) == KeptPaths(a) + KeptPaths(b)
    decreases |b|
  {
    if b == [] {
      assert a + b == a;
    } else {
      var n := |b| - 1;
      assert (a + b)[..|a + b| - 1] == a + b[..n];
      assert (a + b)[|a + b| - 1] == b[n];
      KeptPathsConcat(a, b[..n]);
    }
  }

  /**
    The message the folder scan produces.  `picked` is the dialog's answer: `None` when
    no folder was chosen, else the result of `read_dir` (`None` when it fails), whose
    entries are `None` where an entry could not be read.
  */
  function ScanResult(picked: Option<Option<seq<Option<Path>>>>): Message {
    match picked
    case None => Error("No directory selected")
    case Some(None) => DirectoryLoaded([])
    case Some(Some(entries)) => DirectoryLoaded(KeptPaths(entries))
  }

  /** The body of the `LoadDirectory` task: the loop pushing each kept entry. */
  method ScanDirectory(picked: Option<Option<seq<Option<Path>>>>) returns (msg: Message)
    ensures msg == ScanResult(picked)
  {
    if picked.None? {
      return Error("No directory selected");
    }
    var paths: seq<Path> := [];
    if picked.value.Some? {
      var entries := picked.value.value;
      var i := 0;
      while i < |entries|
        invariant 0 <= i <= |entries|
        invariant paths == KeptPaths(entries[..i])
      {
        var entry := entries[i];
        KeptPathsStep(entries, i);
        if entry.Some? {
          var path := entry.value;
          if IsPhotoFile(path) {
            paths := paths + [path];
          }
        }
        i := i + 1;
      }
      assert entries[..i] == entries;
    }
    return DirectoryLoaded(paths);
  }

  // ---------------------------------------------------------------------------
  // The state.

  /** The index of the first photo with path `p`, as `iter_mut().find` locates it. */
  function FirstWithPath(photos: seq<Photo>, p: Path): (r: Option<nat>)
    ensures r.Some? ==> r.value < |photos| && photos[r.value].path == p
                        && forall k :: 0 <= k < r.value ==> photos[k].path != p
    ensures r.None? <==> forall k :: 0 <= k < |photos| ==> photos[k].path != p
  {
    if photos == [] then None
    else if photos[0].path == p then Some(0)
    else match FirstWithPath(photos[1..], p)
      case Some(i) => Some(i + 1)
      case None => None
  }

  predicate Distinct(photos: seq<Photo>) {
    forall i, j :: 0 <= i < j < |photos| ==> photos[i] != photos[j]
  }

  /** The EXIF summary `Photo::new` stores for a container. */
  function ExifOf(container: Option<seq<Field>>): Option<ExifData> {
    if container.Some? then Some(ExifFromFields(container.value)) else None
  }

  class PhotoFlow {
    var photos: seq<Photo>
    var currentPhoto: Option<nat>
    var error: Option<string>

    /** The selection is absent or names a photo, and no photo object appears twice. */
    ghost predicate Valid()
      reads this
    {
      && (currentPhoto.Some? ==> currentPhoto.value < |photos|)
      && Distinct(photos)
    }

    /** `PhotoFlow::new`: no photos, no selection, no error. */
    constructor ()
      ensures Valid()
      ensures photos == [] && currentPhoto == None && error == None
    {
      photos := [];
      currentPhoto := None;
      error := None;
    }

    /** The search of `ImageLoaded` for the first photo whose path is `p`. */
    method FindPhoto(p: Path) returns (r: Option<nat>)
      ensures r == FirstWithPath(photos, p)
    {
      var i := 0;
      while i < |photos|
        invariant 0 <= i <= |photos|
        invariant forall k :: 0 <= k < i ==> photos[k].path != p
      {
        if photos[i].path == p {
          return Some(i);
        }
        i := i + 1;
      }
      return None;
    }

    /**
      `DirectoryLoaded(paths)`: the error is cleared and one photo is built per path
      (`Photo::new` never fails, so none is dropped).  With at least one path the photos
      are replaced, the first is selected and its image is requested; with none, the
      photos and the selection stay as they were.
    */
    method OnDirectoryLoaded(paths: seq<Path>, exifOf: Path -> Option<seq<Field>>) returns (cmd: Command)
      requires Valid()
      modifies this
      ensures Valid()
      ensures error == None
      ensures |paths| > 0 ==>
        && |photos| == |paths|
        && (forall i :: 0 <= i < |paths| ==>
              fresh(photos[i]) && photos[i].path == paths[i] && photos[i].image == None
              && photos[i].exifData == ExifOf(exifOf(paths[i])))
        && currentPhoto == Some(0)
        && cmd == LoadImage(paths[0])
      ensures |paths| == 0 ==> photos == old(photos) && currentPhoto == old(currentPhoto) && cmd == NoCommand
    {
      error := None;
      var loaded: seq<Photo> := [];
      var i := 0;
      while i < |paths|
        invariant 0 <= i <= |paths|
        invariant photos == old(photos) && currentPhoto == old(currentPhoto) && error == None
        invariant |loaded| == i && Distinct(loaded)
        invariant forall k :: 0 <= k < i ==>
          fresh(loaded[k]) && loaded[k].path == paths[k] && loaded[k].image == None
          && loaded[k].exifData == ExifOf(exifOf(paths[k]))
      {
        var r := NewPhoto(paths[i], exifOf(paths[i]));
        if r.Success? {
          loaded := loaded + [r.value];
        }
        i := i + 1;
      }
      if |loaded| > 0 {
        photos := loaded;
        currentPhoto := Some(0);
        return LoadImage(photos[0].path);
      }
      // Lines 127-129: only reachable if some path produced no photo.
      error := if |paths| > 0 then Some("No valid photos found in directory") else None;
      return NoCommand;
    }

    /** `PhotoSelected(index)`: an index in range becomes the selection and is loaded; any other changes nothing. */
    method OnPhotoSelected(index: nat) returns (cmd: Command)
      requires Valid()
      modifies this
      ensures Valid()
      ensures photos == old(photos) && error == old(error)
      ensures index < |photos| ==> currentPhoto == Some(index) && cmd == LoadImage(photos[index].path)
      ensures index >= |photos| ==> currentPhoto == old(currentPhoto) && cmd == NoCommand
    {
      if index < |photos| {
        currentPhoto := Some(index);
        return LoadImage(photos[index].path);
      }
      return NoCommand;
    }

    /** `NextPhoto`: the selection moves forward by one when a next photo exists. */
    method OnNextPhoto() returns (cmd: Command)
      requires Valid()
      modifies this
      ensures Valid()
      ensures photos == old(photos) && error == old(error)
      ensures var c := old(currentPhoto);
        if c.Some? && c.value + 1 < |photos|
        then currentPhoto == Some(c.value + 1) && cmd == LoadImage(photos[c.value + 1].path)
        else currentPhoto == c && cmd == NoCommand
    {
      if currentPhoto.Some? {
        var current := currentPhoto.value;
        if current + 1 < |photos| {
          currentPhoto := Some(current + 1);
          return LoadImage(photos[current + 1].path);
        }
      }
      return NoCommand;
    }

    /** `PreviousPhoto`: the selection moves back by one unless it is the first photo. */
    method OnPreviousPhoto() returns (cmd: Command)
      requires Valid()
      modifies this
      ensures Valid()
      ensures photos == old(photos) && error == old(error)
      ensures var c := old(currentPhoto);
        if c.Some? && c.value > 0
        then currentPhoto == Some(c.value - 1) && cmd == LoadImage(photos[c.value - 1].path)
        else currentPhoto == c && cmd == NoCommand
    {
      if currentPhoto.Some? {
        var current := currentPhoto.value;
        if current > 0 {
          currentPhoto := Some(current - 1);
          return LoadImage(photos[current - 1].path);
        }
      }
      return NoCommand;
    }

    /**
      `ImageLoaded(path, image)`: a loaded image goes to the first photo with that path,
      and no other photo changes; a failed load only records the error.
    */
    method OnImageLoaded(path: Path, image: Option<DecodedImage>) returns (cmd: Command)
      requires Valid()
      modifies this, photos
      ensures Valid()
      ensures photos == old(photos) && currentPhoto == old(currentPhoto) && cmd == NoCommand
      ensures forall k :: 0 <= k < |photos| ==> photos[k].exifData == old(photos[k].exifData)
      ensures image.Some? ==> error == old(error)
      ensures image.Some? && FirstWithPath(photos, path).Some? ==>
        var i := FirstWithPath(photos, path).value;
        photos[i].image == image
        && forall k :: 0 <= k < |photos| && k != i ==> photos[k].image == old(photos[k].image)
      ensures image.Some? && FirstWithPath(photos, path).None? ==>
        forall k :: 0 <= k < |photos| ==> photos[k].image == old(photos[k].image)
      ensures image.None? ==>
        error == Some("Failed to load image: " + path)
        && forall k :: 0 <= k < |photos| ==> photos[k].image == old(photos[k].image)
    {
      if image.Some? {
        var found := FindPhoto(path);
        if found.Some? {
          photos[found.value].SetImage(image.value);
        }
      } else {
        error := Some("Failed to load image: " + path);
      }
      return NoCommand;
    }

    /** `update`: one message, handled as the match of lines 69-197 does. */
    method Update(msg: Message, exifOf: Path -> Option<seq<Field>>) returns (cmd: Command)
      requires Valid()
      modifies this, photos
      ensures Valid()
      ensures cmd == PickDirectory <==> msg == LoadDirectory
      ensures cmd.LoadImage? ==> currentPhoto.Some? && cmd.path == photos[currentPhoto.value].path
      // only `ImageLoaded` touches a photo object
      ensures !msg.ImageLoaded? ==> forall k :: 0 <= k < |old(photos)| ==>
        old(photos)[k].image == old(photos[k].image) && old(photos)[k].exifData == old(photos[k].exifData)
      // and each message does what its handler does
      ensures msg.LoadDirectory? ==>
        photos == old(photos) && currentPhoto == old(currentPhoto) && error == old(error)
      ensures msg.DirectoryLoaded? ==> error == None
      ensures msg.DirectoryLoaded? && |msg.paths| > 0 ==>
        && |photos| == |msg.paths|
        && (forall i :: 0 <= i < |msg.paths| ==>
              fresh(photos[i]) && photos[i].path == msg.paths[i] && photos[i].image == None
              && photos[i].exifData == ExifOf(exifOf(msg.paths[i])))
        && currentPhoto == Some(0)
        && cmd == LoadImage(msg.paths[0])
      ensures msg.DirectoryLoaded? && |msg.paths| == 0 ==>
        photos == old(photos) && currentPhoto == old(currentPhoto) && cmd == NoCommand
      ensures msg.PhotoSelected? || msg.NextPhoto? || msg.PreviousPhoto? ==>
        photos == old(photos) && error == old(error)
      ensures msg.PhotoSelected? ==>
        if msg.index < |photos|
        then currentPhoto == Some(msg.index) && cmd == LoadImage(photos[msg.index].path)
        else currentPhoto == old(currentPhoto) && cmd == NoCommand
      ensures msg.NextPhoto? ==> var c := old(currentPhoto);
        if c.Some? && c.value + 1 < |photos|
        then currentPhoto == Some(c.value + 1) && cmd == LoadImage(photos[c.value + 1].path)
        else currentPhoto == c && cmd == NoCommand
      ensures msg.PreviousPhoto? ==> var c := old(currentPhoto);
        if c.Some? && c.value > 0
        then currentPhoto == Some(c.value - 1) && cmd == LoadImage(photos[c.value - 1].path)
        else currentPhoto == c && cmd == NoCommand
      ensures msg.Error? ==>
        photos == old(photos) && currentPhoto == old(currentPhoto) && error == Some(msg.text) && cmd == NoCommand
      ensures msg.ImageLoaded? ==>
        photos == old(photos) && currentPhoto == old(currentPhoto) && cmd == NoCommand
        && (forall k :: 0 <= k < |photos| ==> photos[k].exifData == old(photos[k].exifData))
      ensures msg.ImageLoaded? && msg.image.Some? ==> error == old(error)
      ensures msg.ImageLoaded? && msg.image.Some? && FirstWithPath(photos, msg.path).Some? ==>
        var i := FirstWithPath(photos, msg.path).value;
        photos[i].image == msg.image
        && forall k :: 0 <= k < |photos| && k != i ==> photos[k].image == old(photos[k].image)
      ensures msg.ImageLoaded? && msg.image.Some? && FirstWithPath(photos, msg.path).None? ==>
        forall k :: 0 <= k < |photos| ==> photos[k].image == old(photos[k].image)
      ensures msg.ImageLoaded? && msg.image.None? ==>
        error == Some("Failed to load image: " + msg.path)
        && forall k :: 0 <= k < |photos| ==> photos[k].image == old(photos[k].image)
    {
      match msg {
        case LoadDirectory =>
          cmd := PickDirectory;
        case DirectoryLoaded(paths) =>
          cmd := OnDirectoryLoaded(paths, exifOf);
        case PhotoSelected(index) =>
          cmd := OnPhotoSelected(index);
        case NextPhoto =>
          cmd := OnNextPhoto();
        case PreviousPhoto =>
          cmd := OnPreviousPhoto();
        case Error(text) =>
          error := Some(text);
          cmd := NoCommand;
        case ImageLoaded(path, image) =>
          cmd := OnImageLoaded(path, image);
      }
    }
  }
}
