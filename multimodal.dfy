/**
 * `MultiModalEnhancer.detect_modality`: the modality of a file is read off
 * the extension of its path, lower-cased and without the dot, by looking it
 * up in three format lists.
 */
module MultiModal {
  import opened Wrappers
  import opened Text

  /** `SUPPORTED_FORMATS`, in the dict's insertion order. */
  const SupportedFormats: seq<(string, seq<string>)> := [
    ("image", ["jpg", "jpeg", "png", "gif", "webp"]),
    ("audio", ["mp3", "wav", "ogg", "aac"]),
    ("video", ["mp4", "webm", "avi", "mov"])
  ]

  // ---------------------------------------------------------------------
  // Path.name and Path.suffix of a POSIX path
  // ---------------------------------------------------------------------

  /** The text after the last `/` of `p` (all of `p` when it has none). */
  function LastSegment(p: string): (seg: string)
    ensures |seg| <= |p| && '/' !in seg
  {
    if p == [] || p[|p| - 1] == '/' then []
    else LastSegment(p[..|p| - 1]) + [p[|p| - 1]]
  }

  /**
   * `Path(p).name`: the last component of the path. Empty components (from
   * `//` or a trailing `/`) and `.` components are not components, so the
   * name is one whole component: no `/` in it, and never `.`.
   */
  function Name(p: string): (name: string)
    ensures |name| <= |p|
    ensures '/' !in name && name != "."
    decreases |p|
  {
    var seg := LastSegment(p);
    if seg != [] && seg != "." then seg
    else if |seg| == |p| then []
    else Name(p[..|p| - |seg| - 1])
  }

  /** Index of the last `c` in `s`, or -1: Python's `s.rfind(c)`. */
  function RFind(s: string, c: char): (i: int)
    ensures -1 <= i < |s|
    ensures 0 <= i ==> s[i] == c
    ensures forall j :: i < j < |s| ==> s[j] != c
  {
    if s == [] then -1
    else if s[|s| - 1] == c then |s| - 1
    else RFind(s[..|s| - 1], c)
  }

  /**
   * `Path.suffix` of a file name: from its last `.` on, provided that dot is
   * neither the first character (a hidden file) nor the last. A suffix is a
   * dot followed by at least one character that is not a dot, and it ends
   * the name.
   */
  function Suffix(name: string): (suffix: string)
    ensures |suffix| <= |name|
    ensures suffix == [] <==> !(0 < RFind(name, '.') < |name| - 1)
    ensures suffix != [] ==>
      && |suffix| >= 2 && suffix[0] == '.' && '.' !in suffix[1..]
      && suffix == name[|name| - |suffix|..]
  {
    var i := RFind(name, '.');
    if 0 < i < |name| - 1 then name[i..] else ""
  }

  /** `file_path.suffix.lower().lstrip('.')`: no dot is left in it. */
  function Extension(p: string): (ext: string)
    ensures '.' !in ext
  {
    LStrip(Lower(Suffix(Name(p))), '.')
  }

  /**
   * The extension is empty when the name has no dot, or when its last dot
   * is its first or its last character; otherwise it is the lower-cased
   * text after the name's last dot, which is never empty and holds no dot.
   */
  lemma ExtensionOf(p: string)
    ensures var name, i := Name(p), RFind(Name(p), '.');
      && (Extension(p) == [] <==> !(0 < i < |name| - 1))
      && (0 < i < |name| - 1 ==> Extension(p) == Lower(name[i + 1..]))
      && '.' !in Extension(p)
  {
    var name := Name(p);
    assert Extension(p) == LStrip(Lower(Suffix(name)), '.');
    SuffixExtension(name);
  }

  lemma SuffixExtension(name: string)
    ensures var i := RFind(name, '.');
      && (LStrip(Lower(Suffix(name)), '.') == [] <==> !(0 < i < |name| - 1))
      && (0 < i < |name| - 1 ==> LStrip(Lower(Suffix(name)), '.') == Lower(name[i + 1..]))
      && '.' !in LStrip(Lower(Suffix(name)), '.')
  {
    var i := RFind(name, '.');
    if 0 < i < |name| - 1 {
      DottedSuffix(name, i);
    } else {
      assert Suffix(name) == [];
    }
  }

  lemma DottedSuffix(name: string, i: int)
    requires i == RFind(name, '.') && 0 < i < |name| - 1
    ensures LStrip(Lower(Suffix(name)), '.') == Lower(name[i + 1..]) != []
    ensures '.' !in Lower(name[i + 1..])
  {
    var after := name[i + 1..];
    SuffixOfDotted(name, i);
    NoDotAfter(name, i);
    LowerDot(after);
    LowerKeepsDots(after);
  }

  lemma SuffixOfDotted(name: string, i: int)
    requires i == RFind(name, '.') && 0 < i < |name| - 1
    ensures Suffix(name) == ['.'] + name[i + 1..]
  {
    assert name[i..] == [name[i]] + name[i + 1..];
  }

  lemma NoDotAfter(name: string, i: int)
    requires i == RFind(name, '.') && 0 <= i < |name|
    ensures '.' !in name[i + 1..]
  {
    var after := name[i + 1..];
    forall k | 0 <= k < |after| ensures after[k] != '.' {
      assert after[k] == name[i + 1 + k];
    }
  }

  lemma LowerDot(after: string)
    requires after != [] && after[0] != '.'
    ensures LStrip(Lower(['.'] + after), '.') == Lower(after)
  {
    assert (['.'] + after)[1..] == after;
    assert Lower(['.'] + after) == ['.'] + Lower(after);
    assert Lower(after)[0] == LowerChar(after[0]);
  }

  lemma LowerKeepsDots(s: string)
    ensures '.' in Lower(s) ==> '.' in s
  {
    if '.' in Lower(s) {
      var k :| 0 <= k < |s| && Lower(s)[k] == '.';
      assert s[k] == '.';
    }
  }

  // ---------------------------------------------------------------------
  // The lookup
  // ---------------------------------------------------------------------

  /** The first modality of `table` whose formats include `ext`. */
  function FirstModality(table: seq<(string, seq<string>)>, ext: string): Option<string> {
    if table == [] then None
    else if ext in table[0].1 then Some(table[0].0)
    else FirstModality(table[1..], ext)
  }

  /** The modality `detect_modality` reports for an extension. */
  function ModalityOf(ext: string): Option<string> {
    FirstModality(SupportedFormats, ext)
  }

  /**
   * `detect_modality`, with `formats` standing for `self.SUPPORTED_FORMATS`
   * (`SupportedFormats` in the class as written): the formats are tried in
   * table order and the first list holding the extension names the
   * modality; no list holding it gives `None`.
   */
  method DetectModality(formats: seq<(string, seq<string>)>, filePath: string) returns (modality: Option<string>)
    ensures modality == FirstModality(formats, Extension(filePath))
    ensures modality.Some? <==> exists k :: 0 <= k < |formats| && Extension(filePath) in formats[k].1
  {
    var ext := Extension(filePath);
    modality := FindModality(formats, ext);
  }

  /** The loop of `detect_modality`, on the extension already computed. */
  method FindModality(formats: seq<(string, seq<string>)>, ext: string) returns (modality: Option<string>)
    ensures modality == FirstModality(formats, ext)
    ensures modality.Some? <==> exists k :: 0 <= k < |formats| && ext in formats[k].1
  {
    for i := 0 to |formats|
      invariant forall j :: 0 <= j < i ==> ext !in formats[j].1
    {
      if ext in formats[i].1 {
        FirstModalityAt(formats, ext, i);
        assert 0 <= i < |formats| && ext in formats[i].1;
        return Some(formats[i].0);
      }
    }
    FirstModalityNone(formats, ext);
    assert !exists k :: 0 <= k < |formats| && ext in formats[k].1;
    return None;
  }

  lemma {:induction false} FirstModalityAt(table: seq<(string, seq<string>)>, ext: string, k: nat)
    requires k < |table| && ext in table[k].1
    requires forall j :: 0 <= j < k ==> ext !in table[j].1
    ensures FirstModality(table, ext) == Some(table[k].0)
  {
    if k > 0 {
      assert ext !in table[0].1;
      FirstModalityAt(table[1..], ext, k - 1);
    }
  }

  lemma {:induction false} FirstModalityNone(table: seq<(string, seq<string>)>, ext: string)
    requires forall j :: 0 <= j < |table| ==> ext !in table[j].1
    ensures FirstModality(table, ext) == None
  {
    if table != [] {
      FirstModalityNone(table[1..], ext);
    }
  }

  lemma {:induction false} FirstModalityFound(table: seq<(string, seq<string>)>, ext: string)
    ensures FirstModality(table, ext).Some? ==>
      exists k :: 0 <= k < |table| && table[k].0 == FirstModality(table, ext).value && ext in table[k].1
  {
    if table != [] && ext !in table[0].1 {
      FirstModalityFound(table[1..], ext);
      if FirstModality(table, ext).Some? {
        var k :| 0 <= k < |table[1..]| && table[1..][k].0 == FirstModality(table, ext).value && ext in table[1..][k].1;
        assert table[k + 1] == table[1..][k];
      }
    }
  }

  /** No extension is listed under two modalities. */
  lemma FormatsDisjoint()
    ensures forall i, j, e :: 0 <= i < j < |SupportedFormats| && e in SupportedFormats[i].1 ==> e !in SupportedFormats[j].1
  {
  }

  /**
   * A modality is reported exactly when its list holds the extension; the
   * lists being disjoint, the table order does not decide anything.
   */
  lemma ModalityIff(ext: string, m: string)
    ensures ModalityOf(ext) == Some(m) <==>
      exists k :: 0 <= k < |SupportedFormats| && SupportedFormats[k].0 == m && ext in SupportedFormats[k].1
  {
    var table := SupportedFormats;
    FormatsDisjoint();
    if k :| 0 <= k < |table| && table[k].0 == m && ext in table[k].1 {
      FirstModalityAt(table, ext, k);
    }
    FirstModalityFound(table, ext);
  }

  /** A path with no `/` in it is its own last segment. */
  lemma {:induction false} LastSegmentOfPlain(p: string)
    requires '/' !in p
    ensures LastSegment(p) == p
  {
    if p != [] {
      var front := p[..|p| - 1];
      assert '/' !in front by {
        forall k | 0 <= k < |front| ensures front[k] != '/' {
          assert front[k] == p[k];
        }
      }
      LastSegmentOfPlain(front);
      assert p[..|p| - 1] + [p[|p| - 1]] == p;
    }
  }

  /** A name free of `/`, other than `""` and `.`, names itself. */
  lemma NameOfPlain(p: string)
    requires '/' !in p && p != [] && p != "."
    ensures Name(p) == p
  {
    LastSegmentOfPlain(p);
  }

  /** After a `/`, a last segment free of `/` is the whole of what follows. */
  lemma {:induction false} LastSegmentAfterSlash(d: string, n: string)
    requires '/' !in n
    ensures LastSegment(d + "/" + n) == n
  {
    var p := d + "/" + n;
    if n == [] {
      assert p[|p| - 1] == '/';
    } else {
      var front, last := n[..|n| - 1], n[|n| - 1];
      assert '/' !in front by {
        forall k | 0 <= k < |front| ensures front[k] != '/' {
          assert front[k] == n[k];
        }
      }
      assert p[|p| - 1] == last != '/';
      assert p[..|p| - 1] == d + "/" + front;
      assert LastSegment(p) == LastSegment(d + "/" + front) + [last];
      LastSegmentAfterSlash(d, front);
      assert front + [last] == n;
    }
  }

  /**
   * The name of a path in a directory is the part after the last `/`,
   * whatever the directory part holds: `img/cat.jpg` is named `cat.jpg`.
   */
  lemma NameInDirectory(d: string, n: string)
    requires '/' !in n && n != [] && n != "."
    ensures Name(d + "/" + n) == n
  {
    LastSegmentAfterSlash(d, n);
  }

  /** A trailing `/` does not change the name. */
  lemma NameOfTrailingSlash(p: string)
    ensures Name(p + "/") == Name(p)
  {
    assert (p + "/")[..|p|] == p;
  }

  /** `RFind` finds the last occurrence. */
  lemma {:induction false} RFindAt(s: string, c: char, i: int)
    requires 0 <= i < |s| && s[i] == c
    requires forall j :: i < j < |s| ==> s[j] != c
    ensures RFind(s, c) == i
  {
    if i < |s| - 1 {
      RFindAt(s[..|s| - 1], c, i);
    }
  }

  /** The extension of a plain file name with a dot past its first character and before its last. */
  lemma PlainExtension(p: string, i: int)
    requires '/' !in p && p != "."
    requires 0 < i < |p| - 1 && p[i] == '.'
    requires forall j :: i < j < |p| ==> p[j] != '.'
    ensures Extension(p) == Lower(p[i + 1..])
  {
    NameOfPlain(p);
    RFindAt(p, '.', i);
    DottedSuffix(p, i);
  }

  /**
   * A file name `stem.ext`, with no dot in `ext`, has extension `ext` in
   * lower case, whatever dots `stem` holds.
   */
  lemma StemExtension(stem: string, ext: string)
    requires stem != [] && ext != []
    requires '/' !in stem && '/' !in ext && '.' !in ext
    ensures Extension(stem + "." + ext) == Lower(ext)
  {
    var p := stem + "." + ext;
    var i := |stem|;
    assert '/' !in p by {
      forall k | 0 <= k < |p| ensures p[k] != '/' {
        if k > i { assert p[k] == ext[k - i - 1]; } else if k < i { assert p[k] == stem[k]; }
      }
    }
    forall j | i < j < |p| ensures p[j] != '.' {
      assert p[j] == ext[j - i - 1];
    }
    assert p[i + 1..] == ext;
    PlainExtension(p, i);
  }

  /** The lookup on the extensions of the examples below. */
  lemma KnownModalities()
    ensures ModalityOf("jpg") == Some("image")
    ensures ModalityOf("mp4") == Some("video")
    ensures ModalityOf("gz") == None && ModalityOf("") == None
  {
    FirstModalityAt(SupportedFormats, "mp4", 2);
  }

  /** An upper-case extension is found: `Cat.JPG` is an image. */
  lemma UpperCaseExtension()
    ensures Extension("Cat.JPG") == "jpg"
    ensures ModalityOf(Extension("Cat.JPG")) == Some("image")
  {
    assert "Cat.JPG" == "Cat" + "." + "JPG";
    StemExtension("Cat", "JPG");
    LowerJpg();
    KnownModalities();
  }

  lemma LowerJpg()
    ensures Lower("JPG") == "jpg"
  {
  }

  /** A hidden file has no extension: `.png` is not an image. */
  lemma HiddenFile()
    ensures Extension(".png") == ""
    ensures ModalityOf(Extension(".png")) == None
  {
    var p := ".png";
    NameOfPlain(p);
    RFindAt(p, '.', 0);
    SuffixExtension(p);
    KnownModalities();
  }

  /** Only the last suffix counts: `a.tar.gz` has extension `gz`, which no list holds. */
  lemma LastSuffixOnly()
    ensures Extension("a.tar.gz") == "gz"
    ensures ModalityOf(Extension("a.tar.gz")) == None
  {
    assert "a.tar.gz" == "a.tar" + "." + "gz";
    StemExtension("a.tar", "gz");
    assert Lower("gz") == "gz";
    KnownModalities();
  }

  /** The directory part does not count: `d/n` has the extension of `n`. */
  lemma DirectoryIgnored(d: string, n: string)
    requires '/' !in n && n != [] && n != "."
    ensures Extension(d + "/" + n) == Extension(n)
  {
    NameInDirectory(d, n);
    NameOfPlain(n);
    SameNameSameExtension(d + "/" + n, n);
  }

  /** A trailing `/` does not hide the name: `v.mp4/` is a video. */
  lemma TrailingSlash()
    ensures Extension("v.mp4/") == "mp4"
    ensures ModalityOf(Extension("v.mp4/")) == Some("video")
  {
    TrailingSlashExtension();
    KnownModalities();
  }

  lemma TrailingSlashExtension()
    ensures Extension("v.mp4/") == "mp4"
  {
    var name := "v.mp4";
    assert "v.mp4/" == name + "/";
    NameOfTrailingSlash(name);
    SameNameSameExtension(name + "/", name);
    PlainMp4();
  }

  /** The extension depends on the path only through its name. */
  lemma SameNameSameExtension(p: string, q: string)
    requires Name(p) == Name(q)
    ensures Extension(p) == Extension(q)
  {
  }

  lemma PlainMp4()
    ensures Extension("v.mp4") == "mp4"
  {
    assert "v.mp4" == "v" + "." + "mp4";
    StemExtension("v", "mp4");
    assert Lower("mp4") == "mp4";
  }
}
