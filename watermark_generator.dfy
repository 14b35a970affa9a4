/**
 * The logo side of the universal watermark system: the logos found in the logo directory,
 * the one currently chosen, choosing another by number or by file name, and the image type
 * written into a logo's data URI.  The directory listing and the encoded image bytes are
 * parameters.
 */
module WatermarkGenerator {
  import opened Wrappers
  import opened PyStr
  import opened Paths
  import opened Sorting
  import opened FileHandler

  /** The lower-cased suffixes of image files taken as logos. */
  const ImageFormats: seq<string> := [".png", ".jpg", ".jpeg", ".gif", ".bmp"]

  /**
   * `scan_logos`: nothing when the directory is missing, else the paths of its files whose
   * lower-cased suffix is an image format, sorted.  It is the file listing with the image
   * formats as the wanted extensions.
   */
  method ScanLogos(logoDir: string, dirExists: bool, entries: seq<Entry>) returns (logos: seq<string>)
    ensures logos == ListedFiles(logoDir, dirExists, entries, Some(ImageFormats))
  {
    logos := ListFiles(logoDir, dirExists, entries, Some(ImageFormats));
  }

  /** The found logos are sorted, and are exactly the image files of the directory. */
  lemma ScannedLogos(logoDir: string, entries: seq<Entry>)
    ensures var r := ListedFiles(logoDir, true, entries, Some(ImageFormats));
            Sorted(r) &&
            forall p :: p in r <==>
              exists e :: e in entries && e.isFile && Lower(Suffix(e.name)) in ImageFormats && p == JoinPath(logoDir, e.name)
  {
    ListedFilesSpec(logoDir, entries, Some(ImageFormats));
  }

  /** The file names of the logos. */
  function Names(logos: seq<string>): (r: seq<string>)
    ensures |r| == |logos| && forall j :: 0 <= j < |logos| ==> r[j] == Name(logos[j])
  {
    seq(|logos|, j requires 0 <= j < |logos| => Name(logos[j]))
  }

  /** The index of the first occurrence of `x` in `s`. */
  function FirstIndex(s: seq<string>, x: string): (r: Option<nat>)
    ensures r.Some? ==> r.value < |s| && s[r.value] == x && x !in s[..r.value]
    ensures r.None? ==> x !in s
  {
    if s == [] then None
    else if s[0] == x then Some(0)
    else
      var rest := FirstIndex(s[1..], x);
      assert s == [s[0]] + s[1..];
      if rest.None? then None
      else
        assert s[..rest.value + 1] == [s[0]] + s[1..][..rest.value];
        Some(rest.value + 1)
  }

  /**
   * Which logo `select_logo` picks: none when there are no logos; with an index, the
   * `index`-th logo counting from 1 when it is in range, else none; otherwise, with a file
   * name, the first logo of that name; with neither, none.
   */
  function Selection(logos: seq<string>, index: Option<int>, filename: Option<string>): (r: Option<nat>)
    ensures r.Some? ==> r.value < |logos|
  {
    if logos == [] then None
    else if index.Some? then
      if 1 <= index.value <= |logos| then Some(index.value - 1) else None
    else if filename.Some? then FirstIndex(Names(logos), filename.value)
    else None
  }

  /**
   * The index, when given, decides alone: the file name is then ignored.  A file name alone
   * picks a logo of that name, or fails only when no logo has that name.
   */
  lemma SelectionPrecedence(logos: seq<string>, index: Option<int>, filename: Option<string>)
    ensures index.Some? ==> Selection(logos, index, filename) == Selection(logos, index, None)
    ensures index.None? && filename.Some? && Selection(logos, index, filename).Some? ==>
              Name(logos[Selection(logos, index, filename).value]) == filename.value
    ensures index.None? && filename.Some? && Selection(logos, index, filename).None? ==>
              forall j :: 0 <= j < |logos| ==> Name(logos[j]) != filename.value
  {
  }

  /** The image type in a logo's data URI: the lower-cased suffix without its dot, `jpg` read as `jpeg`. */
  function ImageType(logo: string): string
  {
    var ext := Lower(Suffix(Name(logo)));
    var t := if ext == [] then [] else ext[1..];
    if t == "jpg" then "jpeg" else t
  }

  /** A logo found by the scan is typed as one of the four image types. */
  lemma ImageTypeOfLogo(logo: string)
    requires Lower(Suffix(Name(logo))) in ImageFormats
    ensures ImageType(logo) in ["png", "jpeg", "gif", "bmp"]
    ensures Lower(Suffix(Name(logo))) in [".jpg", ".jpeg"] <==> ImageType(logo) == "jpeg"
  {
    var ext := Lower(Suffix(Name(logo)));
    assert ext[1..] == (if ext == ".png" then "png" else if ext == ".jpg" then "jpg" else if ext == ".jpeg" then "jpeg"
                         else if ext == ".gif" then "gif" else "bmp");
  }

  class WatermarkSystem {
    /** The logos found when the system was set up, sorted. */
    var logos: seq<string>
    /** The logo used for watermarking, if any. */
    var currentLogo: Option<string>

    /** The current logo is one of the logos, and there is one whenever there are logos. */
    predicate Valid()
      reads this
    {
      (currentLogo.Some? ==> currentLogo.value in logos) && (logos != [] ==> currentLogo.Some?)
    }

    /** Scans the logo directory and starts with the first logo found, or none. */
    constructor(logoDir: string, dirExists: bool, entries: seq<Entry>)
      ensures logos == ListedFiles(logoDir, dirExists, entries, Some(ImageFormats))
      ensures currentLogo == (if logos == [] then None else Some(logos[0]))
      ensures Valid()
    {
      var found := ScanLogos(logoDir, dirExists, entries);
      logos := found;
      currentLogo := if found == [] then None else Some(found[0]);
    }

    /**
     * `select_logo`: reports whether a logo was picked, makes it the current logo when one
     * was, and otherwise changes nothing.
     */
    method SelectLogo(index: Option<int>, filename: Option<string>) returns (ok: bool)
      requires Valid()
      modifies this
      ensures logos == old(logos) && Valid()
      ensures ok <==> Selection(logos, index, filename).Some?
      ensures ok ==> currentLogo == Some(logos[Selection(logos, index, filename).value])
      ensures !ok ==> currentLogo == old(currentLogo)
    {
      if logos == [] {
        return false;
      }
      if index.Some? {
        if 1 <= index.value <= |logos| {
          currentLogo := Some(logos[index.value - 1]);
          return true;
        } else {
          return false;
        }
      }
      if filename.Some? {
        ghost var names := Names(logos);
        var i := 0;
        while i < |logos|
          invariant 0 <= i <= |logos|
          invariant filename.value !in names[..i]
        {
          if Name(logos[i]) == filename.value {
            FirstIndexIs(names, filename.value, i);
            assert Selection(logos, index, filename) == Some(i);
            currentLogo := Some(logos[i]);
            return true;
          }
          assert names[..i + 1] == names[..i] + [names[i]];
          i := i + 1;
        }
        assert names[..i] == names;
        assert Selection(logos, index, filename) == None;
        return false;
      }
      return false;
    }

    /**
     * `get_logo_base64`: the data URI of the given logo, else of the current one; empty when
     * there is neither or the file is missing.  `encoded` is the file's Base64 text.
     */
    function LogoDataUri(logoPath: Option<string>, logoExists: bool, encoded: string): (r: string)
      reads this
      ensures r == [] <==> (logoPath.None? && currentLogo.None?) || !logoExists
      ensures r != [] ==> EndsWith(r, ";base64," + encoded)
    {
      var logo := if logoPath.Some? then logoPath else currentLogo;
      if logo.None? || !logoExists then []
      else
        var uri := "data:image/" + ImageType(logo.value) + ";base64," + encoded;
        assert uri == "data:image/" + ImageType(logo.value) + (";base64," + encoded);
        ConcatEnds("data:image/" + ImageType(logo.value), ";base64," + encoded);
        uri
    }
  }

  /** The first occurrence is found by scanning up to it. */
  lemma {:induction false} FirstIndexIs(s: seq<string>, x: string, i: nat)
    requires i < |s| && s[i] == x && x !in s[..i]
    ensures FirstIndex(s, x) == Some(i)
  {
    if i > 0 {
      assert s[0] in s[..i];
      assert s[1..][..i - 1] == s[1..i];
      assert forall y :: y in s[1..i] ==> y in s[..i];
      FirstIndexIs(s[1..], x, i - 1);
    }
  }
}
