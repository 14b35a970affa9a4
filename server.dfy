/**
 * The upload check of the web front-end: which file extensions are accepted for documents
 * and for images, and whether an uploaded file name has one of them.
 */
module Server {
  import opened PyStr
  import opened Paths

  /** Extensions accepted for a manuscript upload. */
  const DocumentExtensions: set<string> :=
    {"md", "markdown", "txt", "html", "htm", "pdf", "docx", "epub", "odt", "rtf", "tex", "latex", "rst", "org"}

  /** Extensions accepted for an image upload. */
  const ImageExtensions: set<string> := {"png", "jpg", "jpeg", "gif", "bmp"}

  /** The accepted extensions, by kind of upload. */
  const AllowedExtensions: map<string, set<string>> := map["document" := DocumentExtensions, "image" := ImageExtensions]

  /** Python `filename.rsplit('.', 1)[1]`: the text after the last `.`. */
  function LastExtension(filename: string): (r: string)
    requires '.' in filename
    ensures '.' !in r
    ensures exists k :: 0 <= k < |filename| && filename[k] == '.' && r == filename[k + 1..]
  {
    var k := RFind(filename, '.');
    assert k >= 0;
    filename[k + 1..]
  }

  /**
   * `allowed_file`: the name has a `.`, and the text after its last `.`, lower-cased, is
   * an extension accepted for the kind of upload (an unknown kind accepts none).
   */
  function AllowedFile(filename: string, fileType: string): (r: bool)
    ensures r ==> '.' in filename && fileType in AllowedExtensions
  {
    '.' in filename &&
    Lower(LastExtension(filename)) in (if fileType in AllowedExtensions then AllowedExtensions[fileType] else {})
  }

  /** A name without a `.` is refused, and so is any name for an unknown kind of upload. */
  lemma AllowedFileRefusals(filename: string, fileType: string)
    ensures '.' !in filename ==> !AllowedFile(filename, fileType)
    ensures fileType !in AllowedExtensions ==> !AllowedFile(filename, fileType)
  {
  }

  /**
   * A name made of any stem, a `.` and an extension without `.` is accepted exactly when the
   * extension, in any case, is among the accepted ones.
   */
  lemma AllowedFileExtension(stem: string, ext: string, fileType: string)
    requires '.' !in ext
    requires fileType in AllowedExtensions
    ensures AllowedFile(stem + "." + ext, fileType) <==> Lower(ext) in AllowedExtensions[fileType]
  {
    var f := stem + "." + ext;
    assert f[|stem|] == '.';
    var k := RFind(f, '.');
    assert k == |stem|;
    assert LastExtension(f) == ext;
  }

  /** The check does not depend on the case of the name. */
  lemma AllowedFileIgnoresCase(filename: string, fileType: string)
    ensures AllowedFile(Lower(filename), fileType) == AllowedFile(filename, fileType)
  {
    DotsOfLower(filename);
    if '.' in filename {
      ExtensionOfLower(filename);
      LowerIdempotent(LastExtension(filename));
    }
  }

  lemma DotsOfLower(s: string)
    ensures ('.' in Lower(s)) == ('.' in s)
  {
    var g := Lower(s);
    if '.' in s {
      var k :| 0 <= k < |s| && s[k] == '.';
      assert g[k] == '.';
    }
    if '.' in g {
      var k :| 0 <= k < |g| && g[k] == '.';
      assert s[k] == '.';
    }
  }

  lemma ExtensionOfLower(s: string)
    requires '.' in s && '.' in Lower(s)
    ensures LastExtension(Lower(s)) == Lower(LastExtension(s))
  {
    LowerKeepsDots(s);
    var k := RFind(s, '.');
    assert Lower(s)[k + 1..] == Lower(s[k + 1..]);
  }

  /** Lower-casing leaves the dots where they were. */
  lemma {:induction false} LowerKeepsDots(s: string)
    ensures RFind(Lower(s), '.') == RFind(s, '.')
    decreases |s|
  {
    if s != [] {
      var t := s[..|s| - 1];
      LowerKeepsDots(t);
      assert Lower(s)[..|s| - 1] == Lower(t);
    }
  }

  lemma LowerIdempotent(s: string)
    ensures Lower(Lower(s)) == Lower(s)
  {
  }

  /** No extension is accepted both as a document and as an image. */
  lemma KindsDisjoint()
    ensures DocumentExtensions !! ImageExtensions
  {
  }
}
