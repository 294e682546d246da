/**
  The parts of Rust's `std::path::Path` that the viewer relies on, over `/`-separated
  strings: `file_name()`, `extension()`, and `to_lowercase()` restricted to ASCII.
*/
module Paths {
  import opened Wrappers

  type Path = string

  /** The position of the last `c` in `s`. */
  function LastIndexOf(s: string, c: char): (r: Option<nat>)
    ensures r.Some? ==> r.value < |s| && s[r.value] == c && forall k :: r.value < k < |s| ==> s[k] != c
    ensures r.None? ==> forall k :: 0 <= k < |s| ==> s[k] != c
  {
    if s == [] then None
    else if s[|s| - 1] == c then Some(|s| - 1)
    else LastIndexOf(s[..|s| - 1], c)
  }

  /** Trailing separators and trailing `.` components do not count as components. */
  function TrimTrailing(s: string): (r: string)
    ensures |r| <= |s| && r == s[..|r|]
  {
    if |s| >= 1 && s[|s| - 1] == '/' then TrimTrailing(s[..|s| - 1])
    else if |s| >= 2 && s[|s| - 2..] == "/." then TrimTrailing(s[..|s| - 2])
    else s
  }

  /** The last component of a path: what follows its last separator. */
  function LastComponent(p: Path): string {
    var t := TrimTrailing(p);
    match LastIndexOf(t, '/')
    case Some(i) => t[i + 1..]
    case None => t
  }

  /** `Path::file_name`: no name for a path that ends in `..`, that is `.`, or that is empty or a root. */
  function FileName(p: Path): (r: Option<string>)
    ensures r.Some? ==> r.value != "" && r.value != "." && r.value != ".."
  {
    var c := LastComponent(p);
    if c == "" || c == "." || c == ".." then None else Some(c)
  }

  /**
    `Path::extension`: what follows the last `.` of the file name, unless the name has no
    `.` or its only `.` is the first character.
  */
  function Extension(p: Path): (r: Option<string>)
    // an extension is the dot-free text after a `.` that is not the name's first character
    ensures r.Some? ==> FileName(p).Some?
    ensures r.Some? ==>
      var name, e := FileName(p).value, r.value;
      && |e| + 1 < |name| && name[|name| - |e| - 1] == '.' && name[|name| - |e|..] == e
      && NoChar(e, '.')
    // and there is none only without a file name, without a `.`, or with a leading `.` alone
    ensures r.None? && FileName(p).Some? ==>
      var name := FileName(p).value;
      NoChar(name, '.') || (name[0] == '.' && NoChar(name[1..], '.'))
  {
    match FileName(p)
    case None => None
    case Some(name) =>
      match LastIndexOf(name, '.')
      case None => None
      case Some(i) => if i == 0 then None else Some(name[i + 1..])
  }

  function LowerChar(c: char): char {
    if 'A' <= c <= 'Z' then (c as int - 'A' as int + 'a' as int) as char else c
  }

  /** `to_lowercase` on ASCII text. */
  function Lower(s: string): (r: string)
    ensures |r| == |s| && forall k :: 0 <= k < |s| ==> r[k] == LowerChar(s[k])
  {
    seq(|s|, k requires 0 <= k < |s| => LowerChar(s[k]))
  }

  /** The directory filter: a lower-cased extension of `jpg`, `jpeg`, `raf` or `raw`. */
  predicate IsPhotoFile(p: Path)
    ensures IsPhotoFile(p) ==> FileName(p).Some? && Extension(p).Some? && |Extension(p).value| in {3, 4}
  {
    match Extension(p)
    case None => false
    case Some(ext) => var e := Lower(ext); e == "jpg" || e == "jpeg" || e == "raf" || e == "raw"
  }

  predicate NoChar(s: string, c: char) {
    forall k :: 0 <= k < |s| ==> s[k] != c
  }

  /** The component after `dir/` of an entry whose name has no separator and does not end in `.`. */
  lemma FileNameOfEntry(dir: string, name: string)
    requires name != "" && NoChar(name, '/') && name[|name| - 1] != '.'
    ensures FileName(dir + "/" + name) == Some(name)
  {
    var s := dir + "/" + name;
    assert s[|s| - 1] == name[|name| - 1];
    assert s[|s| - 2..] != "/." by {
      assert s[|s| - 2..][1] == s[|s| - 1];
    }
    assert TrimTrailing(s) == s;
    assert s[|dir|] == '/';
    forall k | |dir| < k < |s| ensures s[k] != '/' {
      assert s[k] == name[k - |dir| - 1];
    }
    assert LastIndexOf(s, '/') == Some(|dir|);
    assert s[|dir| + 1..] == name;
    assert name != "." && name != "..";
  }

  /** An entry whose name ends in `.` has the empty extension (or no file name at all), so it is dropped. */
  lemma EntryEndingInDotDropped(dir: string, stem: string)
    requires stem != "" && NoChar(stem, '/')
    ensures !IsPhotoFile(dir + "/" + stem + ".")
  {
    var name := stem + ".";
    var s := dir + "/" + name;
    assert s == dir + "/" + stem + ".";
    assert s[|s| - 2..] != "/." by {
      assert s[|s| - 2..][0] == stem[|stem| - 1];
    }
    assert TrimTrailing(s) == s;
    assert s[|dir|] == '/';
    forall k | |dir| < k < |s| ensures s[k] != '/' {
      assert s[k] == name[k - |dir| - 1];
    }
    assert LastIndexOf(s, '/') == Some(|dir|);
    assert s[|dir| + 1..] == name;
    assert LastIndexOf(name, '.') == Some(|stem|);
    assert name[|stem| + 1..] == "";
  }

  /** In `stem.ext` with no `.` in `ext`, the last `.` is the one after `stem`. */
  lemma LastDotOfName(stem: string, ext: string)
    requires NoChar(ext, '.')
    ensures var name := stem + "." + ext;
      LastIndexOf(name, '.') == Some(|stem|) && name[|stem| + 1..] == ext
  {
    var name := stem + "." + ext;
    forall k | |stem| < k < |name| ensures name[k] != '.' {
      assert name[k] == ext[k - |stem| - 1];
    }
    assert name[|stem|] == '.';
    assert name[|stem| + 1..] == ext;
  }

  /** `stem.ext` has no separator when neither part has one, and it ends like `ext`. */
  lemma NameWithoutSeparator(stem: string, ext: string)
    requires ext != "" && NoChar(stem, '/') && NoChar(ext, '/')
    ensures var name := stem + "." + ext;
      NoChar(name, '/') && name[|name| - 1] == ext[|ext| - 1]
  {
    var name := stem + "." + ext;
    forall k | 0 <= k < |name| ensures name[k] != '/' {
      if k < |stem| { assert name[k] == stem[k]; }
      else if k > |stem| { assert name[k] == ext[k - |stem| - 1]; }
    }
  }

  /** An entry `dir/stem.ext` has extension `ext` when `ext` holds no `.` and `stem` is non-empty. */
  lemma ExtensionOfEntry(dir: string, stem: string, ext: string)
    requires stem != "" && ext != "" && NoChar(stem, '/') && NoChar(ext, '/') && NoChar(ext, '.')
    ensures Extension(dir + "/" + stem + "." + ext) == Some(ext)
  {
    var name := stem + "." + ext;
    assert dir + "/" + stem + "." + ext == dir + "/" + name;
    NameWithoutSeparator(stem, ext);
    FileNameOfEntry(dir, name);
    LastDotOfName(stem, ext);
  }

  /** A hidden file `dir/.name` with no other `.` has no extension: `.jpg` is not a JPEG entry. */
  lemma HiddenEntryHasNoExtension(dir: string, name: string)
    requires name != "" && NoChar(name, '/') && NoChar(name, '.')
    ensures Extension(dir + "/." + name) == None
  {
    var n := "." + name;
    assert dir + "/." + name == dir + "/" + n;
    assert n[|n| - 1] == name[|name| - 1];
    forall k | 0 <= k < |n| ensures n[k] != '/' {
      if k > 0 { assert n[k] == name[k - 1]; }
    }
    FileNameOfEntry(dir, n);
    forall k | 0 < k < |n| ensures n[k] != '.' {
      assert n[k] == name[k - 1];
    }
    LastIndexOfIs(n, '.', 0);
  }

  /** The last `c` is at `i` when `s[i]` is `c` and no later character is. */
  lemma LastIndexOfIs(s: string, c: char, i: nat)
    requires i < |s| && s[i] == c && forall k :: i < k < |s| ==> s[k] != c
    ensures LastIndexOf(s, c) == Some(i)
  {
    var r := LastIndexOf(s, c);
    assert r.Some?;
    assert r.value <= i && r.value >= i;
  }

  /** An entry whose name has no `.` has no extension. */
  lemma EntryWithoutDotHasNoExtension(dir: string, name: string)
    requires name != "" && NoChar(name, '/') && NoChar(name, '.')
    ensures Extension(dir + "/" + name) == None
  {
    FileNameOfEntry(dir, name);
  }

  /** An entry `dir/stem.ext` is kept exactly when `ext`, lower-cased, is one of the four. */
  lemma EntryKeptIffExtensionListed(dir: string, stem: string, ext: string)
    requires stem != "" && ext != "" && NoChar(stem, '/') && NoChar(ext, '/') && NoChar(ext, '.')
    ensures IsPhotoFile(dir + "/" + stem + "." + ext) <==>
      Lower(ext) == "jpg" || Lower(ext) == "jpeg" || Lower(ext) == "raf" || Lower(ext) == "raw"
  {
    ExtensionOfEntry(dir, stem, ext);
  }

  /** Upper-case spellings are kept: `PHOTO.JPG` is a photo entry. */
  lemma UpperCaseJpgKept(dir: string, stem: string)
    requires stem != "" && NoChar(stem, '/')
    ensures IsPhotoFile(dir + "/" + stem + ".JPG")
  {
    var ext := "JPG";
    assert dir + "/" + stem + ".JPG" == dir + "/" + stem + "." + ext;
    assert NoChar(ext, '/') && NoChar(ext, '.') by {
      forall k | 0 <= k < |ext| ensures ext[k] != '/' && ext[k] != '.' {
        assert ext[k] == 'J' || ext[k] == 'P' || ext[k] == 'G';
      }
    }
    ExtensionOfEntry(dir, stem, ext);
    LowerJpg();
  }

  lemma LowerJpg()
    ensures Lower("JPG") == "jpg"
  {
    var e := Lower("JPG");
    assert LowerChar('J') == 'j' && LowerChar('P') == 'p' && LowerChar('G') == 'g';
    assert e[0] == 'j' && e[1] == 'p' && e[2] == 'g';
  }
}
