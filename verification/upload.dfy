/** `allowed_file`: an uploaded chart is accepted when its name has a dot
    and the text after the last dot, lower-cased, is one of the image
    extensions. */
module Upload {
  import opened Text

  /** `ALLOWED_EXTENSIONS`. */
  const AllowedExtensions: set<string> := {"png", "jpg", "jpeg", "gif", "webp"}

  /** The position of the last `c` in `s`. */
  function LastIndex(s: string, c: char): (i: nat)
    requires c in s
    ensures i < |s| && s[i] == c
    ensures forall j :: i < j < |s| ==> s[j] != c
    decreases |s|
  {
    if s[|s| - 1] == c then |s| - 1
    else
      assert c in s[..|s| - 1] by {
        var k :| 0 <= k < |s| && s[k] == c;
        assert s[..|s| - 1][k] == c;
      }
      LastIndex(s[..|s| - 1], c)
  }

  /** `filename.rsplit('.', 1)[1]`: the text after the last dot. */
  function Extension(filename: string): (e: string)
    requires '.' in filename
    ensures '.' !in e
    ensures |e| < |filename| && filename[|filename| - |e| - 1] == '.'
    ensures filename[|filename| - |e|..] == e
  {
    var i := LastIndex(filename, '.');
    var e := filename[i + 1..];
    assert '.' !in e by {
      forall k | 0 <= k < |e| ensures e[k] != '.' {
        assert e[k] == filename[i + 1 + k];
      }
    }
    e
  }

  /** `filename` ends in a dot followed by `ext`, up to the case of its
      letters. */
  ghost predicate EndsWithExtension(filename: string, ext: string) {
    && |ext| < |filename| && filename[|filename| - |ext| - 1] == '.'
    && Lower(filename[|filename| - |ext|..]) == ext
  }

  /** `allowed_file(filename)`: accepted exactly when the name ends in a
      dot and one of the extensions, up to the case of its letters. */
  function AllowedFile(filename: string): (b: bool)
    ensures '.' !in filename ==> !b
    ensures b <==> exists ext :: ext in AllowedExtensions && EndsWithExtension(filename, ext)
  {
    var b := '.' in filename && Lower(Extension(filename)) in AllowedExtensions;
    AllowedByEnding(filename);
    b
  }

  /** The last-dot test agrees with the ending test. */
  lemma AllowedByEnding(filename: string)
    ensures ('.' in filename && Lower(Extension(filename)) in AllowedExtensions) <==>
      exists ext :: ext in AllowedExtensions && EndsWithExtension(filename, ext)
  {
    if '.' in filename && Lower(Extension(filename)) in AllowedExtensions {
      ExtensionIsEnding(filename);
    }
    if ext :| ext in AllowedExtensions && EndsWithExtension(filename, ext) {
      AllowedDotFree(ext);
      EndingIsExtension(filename, ext);
    }
  }

  /** A name with a dot ends in a dot and its own extension. */
  lemma ExtensionIsEnding(filename: string)
    requires '.' in filename
    ensures EndsWithExtension(filename, Lower(Extension(filename)))
  {
  }

  /** No allowed extension holds a dot. */
  lemma AllowedDotFree(ext: string)
    requires ext in AllowedExtensions
    ensures '.' !in ext
  {
  }

  /** A name that ends in a dot and a dot-free extension, up to case, has
      that ending as its extension. */
  lemma EndingIsExtension(filename: string, ext: string)
    requires EndsWithExtension(filename, ext) && '.' !in ext
    ensures '.' in filename && Lower(Extension(filename)) == ext
  {
    var n := |filename| - |ext|;
    var x := filename[n..];
    var stem := filename[..n - 1];
    assert '.' !in x by {
      forall k | 0 <= k < |x| ensures x[k] != '.' {
        assert LowerChar(x[k]) == ext[k];
      }
    }
    assert filename == stem + "." + x;
    ExtensionOfJoin(stem, x);
  }

  /** Splitting a name at its last dot gives back the stem and the
      extension it was made of. */
  lemma ExtensionOfJoin(stem: string, ext: string)
    requires '.' !in ext
    ensures '.' in stem + "." + ext
    ensures Extension(stem + "." + ext) == ext
  {
    var f := stem + "." + ext;
    assert f[|stem|] == '.';
    assert f[|f| - |ext|..] == ext;
  }

  /** A name is accepted exactly when it is some stem, a dot, and an
      extension without dots whose lower-case form is allowed. */
  lemma AllowedFileIff(stem: string, ext: string)
    requires '.' !in ext
    ensures AllowedFile(stem + "." + ext) <==> Lower(ext) in AllowedExtensions
  {
    ExtensionOfJoin(stem, ext);
  }

  /** A name without a dot is refused. */
  lemma NoDotRefused(filename: string)
    requires '.' !in filename
    ensures !AllowedFile(filename)
  {
  }

  /** The case of the extension does not matter. */
  lemma UpperCaseAccepted(f: string)
    requires f == "chart.PNG"
    ensures AllowedFile(f)
  {
    assert Lower(f[6..]) == "png";
    assert EndsWithExtension(f, "png");
  }

  /** Only the last extension is looked at. */
  lemma LastExtensionDecides(f: string)
    requires f == "chart.png.exe"
    ensures !AllowedFile(f)
  {
    ExeParts();
    AllowedFileIff("chart.png", "exe");
  }

  /** "chart.png.exe" is the stem "chart.png", a dot, and "exe", which is
      not an allowed extension in any case. */
  lemma ExeParts()
    ensures "chart.png.exe" == "chart.png" + "." + "exe"
    ensures '.' !in "exe" && Lower("exe") !in AllowedExtensions
  {
    assert Lower("exe") == "exe";
  }
}
