/**
 * The parts of `pathlib.PurePath` the modelled code uses, on paths written as text with
 * `/` between components: joining, the final component (`name`), its suffix and its stem.
 * Paths are plain text, not parsed: empty or `.` components, absolute names and trailing
 * slashes are kept as written, where `PurePath` normalises them.
 */
module Paths {
  import opened PyStr

  /** `s.rfind(c)`: the index of the last `c`, or -1. */
  function RFind(s: string, c: char): (r: int)
    ensures -1 <= r < |s|
    ensures r >= 0 ==> s[r] == c
    ensures forall k :: r < k < |s| ==> s[k] != c
    decreases |s|
  {
    if s == [] then -1
    else if s[|s| - 1] == c then |s| - 1
    else RFind(s[..|s| - 1], c)
  }

  /** `directory / name`, as the two texts joined by one `/`. */
  function JoinPath(directory: string, name: string): (r: string)
    ensures '/' !in name ==> Name(r) == name
  {
    var p := directory + "/" + name;
    assert p[|directory|] == '/';
    assert p[|directory| + 1..] == name;
    p
  }

  /** `PurePath(p).name`: the text after the last `/`. */
  function Name(p: string): (r: string)
    ensures '/' !in r
    ensures EndsWith(p, r)
  {
    p[RFind(p, '/') + 1..]
  }

  /** Where the suffix of a final component starts: its last `.`, unless that is first or last. */
  function SuffixStart(name: string): (i: int)
    ensures -1 <= i < |name|
  {
    var i := RFind(name, '.');
    if 0 < i < |name| - 1 then i else -1
  }

  /** `PurePath(name).suffix` for a final component `name`. */
  function Suffix(name: string): (r: string)
    ensures r == [] || (|r| >= 2 && r[0] == '.')
  {
    var i := SuffixStart(name);
    if i < 0 then [] else name[i..]
  }

  /** `PurePath(name).stem` for a final component `name`. */
  function Stem(name: string): (r: string)
    ensures |r| <= |name| && r == name[..|r|]
  {
    var i := SuffixStart(name);
    if i < 0 then name else name[..i]
  }

  /**
   * The stem and the suffix split the name.  The suffix is empty or is a `.` followed by at
   * least one character and no other `.`, and the stem is never empty when the suffix is not.
   */
  lemma StemSuffix(name: string)
    ensures Stem(name) + Suffix(name) == name
    ensures Suffix(name) == [] || (|Suffix(name)| >= 2 && Suffix(name)[0] == '.' && '.' !in Suffix(name)[1..])
    ensures Suffix(name) != [] ==> Stem(name) != []
  {
    var i := SuffixStart(name);
    if i >= 0 {
      assert name[..i] + name[i..] == name;
      SuffixShape(name, i);
    }
  }

  /** From a `.` at `i` with no `.` after it, the text is `.` and then at least one non-`.` character. */
  lemma SuffixShape(name: string, i: int)
    requires 0 < i < |name| - 1 && name[i] == '.'
    requires forall k :: i < k < |name| ==> name[k] != '.'
    ensures |name[i..]| >= 2 && name[i..][0] == '.' && '.' !in name[i..][1..]
  {
    var tail := name[i + 1..];
    assert name[i..][1..] == tail;
    forall k | 0 <= k < |tail| ensures tail[k] != '.' {
      assert tail[k] == name[i + 1 + k];
    }
  }

  /** A name with a proper extension: `report.md` has stem `report` and suffix `.md`. */
  lemma SuffixExample()
    ensures Suffix("report.md") == ".md" && Stem("report.md") == "report"
    ensures Suffix(".bashrc") == [] && Suffix("notes.") == []
  {
    assert RFind("report.md", '.') == 6;
    var r := RFind(".bashrc", '.');
    assert ".bashrc"[0] == '.';
    assert r <= 0;
    assert RFind("notes.", '.') == 5;
  }
}
