/**
 * The e-book converter's own logic: the blank line it inserts before Markdown lists, the YAML
 * front matter it writes for Pandoc, the choice of PDF engine, and the output names of a
 * conversion run.  Pandoc itself, the engines and the file system are outside the model:
 * whether a tool is installed and whether a conversion produced its file are parameters.
 */
module Converter {
  import opened Wrappers
  import opened PyStr
  import TextNormalizer
  import PageNumbering

  const SupportedFormats: seq<string> := ["epub", "pdf", "html", "docx", "md"]
  const PdfEngines: seq<string> := ["wkhtmltopdf", "pdflatex", "weasyprint"]

  // ---------------------------------------------------------------- PDF engine

  /** `get_available_pdf_engine`: the first engine, in the fixed order, that is installed. */
  method AvailablePdfEngine(installed: string -> bool) returns (engine: Option<string>)
    ensures engine.None? <==> forall i :: 0 <= i < |PdfEngines| ==> !installed(PdfEngines[i])
    ensures engine.Some? ==>
              exists i :: 0 <= i < |PdfEngines| && PdfEngines[i] == engine.value && installed(engine.value) &&
                          forall j :: 0 <= j < i ==> !installed(PdfEngines[j])
  {
    var i := 0;
    while i < |PdfEngines|
      invariant 0 <= i <= |PdfEngines|
      invariant forall j :: 0 <= j < i ==> !installed(PdfEngines[j])
    {
      if installed(PdfEngines[i]) {
        return Some(PdfEngines[i]);
      }
      i := i + 1;
    }
    return None;
  }

  // ---------------------------------------------------------------- blank line before lists

  /** Number of ASCII digits that start `s`. */
  function DigitRun(s: string): (n: nat)
    ensures n <= |s|
    ensures forall k :: 0 <= k < n ==> IsAsciiDigit(s[k])
    ensures n < |s| ==> !IsAsciiDigit(s[n])
  {
    if s == [] || !IsAsciiDigit(s[0]) then 0 else 1 + DigitRun(s[1..])
  }

  /** `re.match(r'^\d+\.\s', s)`. */
  predicate NumberedItem(s: string)
  {
    var n := DigitRun(s);
    n >= 1 && n + 1 < |s| && s[n] == '.' && IsSpace(s[n + 1])
  }

  /** A stripped line that starts a list item: `- `, `* ` or a number, a dot and whitespace. */
  predicate ListItem(s: string)
  {
    StartsWith(s, "- ") || StartsWith(s, "* ") || NumberedItem(s)
  }

  /**
   * Between two stripped lines a blank one is missing: the first has content, is not a
   * heading and not itself a list item, and the second starts a list item.
   */
  predicate OpensList(current: string, next: string)
  {
    current != [] && current[0] != '#' && !ListItem(current) && ListItem(next)
  }

  /** A blank line goes after line `i`: it is not the last line and it opens a list. */
  predicate NeedsBlank(lines: seq<string>, i: nat)
  {
    i + 1 < |lines| && OpensList(Strip(lines[i]), Strip(lines[i + 1]))
  }

  /** For each line, whether a blank line goes in after it. */
  function Gaps(lines: seq<string>): (r: seq<bool>)
    ensures |r| == |lines|
    ensures forall i :: 0 <= i < |lines| ==> r[i] == NeedsBlank(lines, i)
  {
    seq(|lines|, i requires 0 <= i < |lines| => NeedsBlank(lines, i))
  }

  /** The result list after the first `n` lines have been copied, with a blank after each marked line. */
  function Spaced(lines: seq<string>, gaps: seq<bool>, n: nat): seq<string>
    requires n <= |lines| == |gaps|
  {
    if n == 0 then []
    else Spaced(lines, gaps, n - 1) + [lines[n - 1]] + (if gaps[n - 1] then [""] else [])
  }

  /** How many blank lines go in before line `i`. */
  function BlanksBefore(gaps: seq<bool>, i: nat): nat
    requires i <= |gaps|
  {
    if i == 0 then 0 else BlanksBefore(gaps, i - 1) + (if gaps[i - 1] then 1 else 0)
  }

  /** `_ensure_blank_before_lists` as a function of the text. */
  function BlankBeforeLists(content: string): string
  {
    var lines := Split(content, '\n');
    Join(Spaced(lines, Gaps(lines), |lines|), '\n')
  }

  /** The test the loop of `_ensure_blank_before_lists` makes after copying line `i`. */
  method BlankAfter(lines: seq<string>, i: nat) returns (blank: bool)
    requires i < |lines|
    ensures blank == Gaps(lines)[i]
  {
    blank := false;
    if i < |lines| - 1 {
      var current := Strip(lines[i]);
      var next := Strip(lines[i + 1]);
      blank := OpensList(current, next);
    }
  }

  /** `_ensure_blank_before_lists`: copy each line, adding an empty one where a list follows. */
  method EnsureBlankBeforeLists(content: string) returns (out: string)
    ensures out == BlankBeforeLists(content)
  {
    var lines := Split(content, '\n');
    ghost var gaps := Gaps(lines);
    var result: seq<string> := [];
    var i := 0;
    while i < |lines|
      invariant 0 <= i <= |lines|
      invariant result == Spaced(lines, gaps, i)
    {
      ghost var prev := result;
      result := result + [lines[i]];
      var blank := BlankAfter(lines, i);
      if blank {
        result := result + [""];
      }
      assert result == prev + [lines[i]] + (if gaps[i] then [""] else []);
      i := i + 1;
    }
    out := Join(result, '\n');
  }

  lemma {:induction false} SpacedLength(lines: seq<string>, gaps: seq<bool>, n: nat)
    requires n <= |lines| == |gaps|
    ensures |Spaced(lines, gaps, n)| == n + BlanksBefore(gaps, n)
  {
    if n > 0 {
      SpacedLength(lines, gaps, n - 1);
    }
  }

  /** Copying more lines only extends the result. */
  lemma {:induction false} SpacedPrefix(lines: seq<string>, gaps: seq<bool>, m: nat, n: nat)
    requires m <= n <= |lines| == |gaps|
    ensures Spaced(lines, gaps, m) <= Spaced(lines, gaps, n)
  {
    if m < n {
      SpacedPrefix(lines, gaps, m, n - 1);
    }
  }

  /**
   * Line `i` of the input sits at position `i + BlanksBefore(i)` of the result, and is
   * followed by an inserted empty line when it is marked.
   */
  lemma SpacedAt(lines: seq<string>, gaps: seq<bool>, n: nat, i: nat)
    requires i < n <= |lines| == |gaps|
    ensures i + BlanksBefore(gaps, i) < |Spaced(lines, gaps, n)|
    ensures Spaced(lines, gaps, n)[i + BlanksBefore(gaps, i)] == lines[i]
    ensures gaps[i] ==>
              i + BlanksBefore(gaps, i) + 1 < |Spaced(lines, gaps, n)| && Spaced(lines, gaps, n)[i + BlanksBefore(gaps, i) + 1] == ""
  {
    SpacedLength(lines, gaps, i);
    SpacedPrefix(lines, gaps, i + 1, n);
  }

  /**
   * The spaced line list holds one entry per input line plus one per marked line, and input
   * line `i` sits after the `BlanksBefore(i)` blanks inserted ahead of it.
   */
  lemma SpacedPositions(lines: seq<string>, gaps: seq<bool>)
    requires |lines| == |gaps|
    ensures |Spaced(lines, gaps, |lines|)| == |lines| + BlanksBefore(gaps, |lines|)
    ensures forall i :: 0 <= i < |lines| ==> LineAt(Spaced(lines, gaps, |lines|), i + BlanksBefore(gaps, i), lines[i])
  {
    var s := Spaced(lines, gaps, |lines|);
    SpacedLength(lines, gaps, |lines|);
    forall i | 0 <= i < |lines|
      ensures LineAt(s, i + BlanksBefore(gaps, i), lines[i])
    {
      SpacedAt(lines, gaps, |lines|, i);
    }
  }

  /** An empty line follows input line `i` in the spaced list exactly where `i` is marked. */
  lemma SpacedBlanks(lines: seq<string>, gaps: seq<bool>)
    requires |lines| == |gaps|
    ensures forall i :: 0 <= i < |lines| && gaps[i] ==> LineAt(Spaced(lines, gaps, |lines|), i + BlanksBefore(gaps, i) + 1, "")
  {
    var s := Spaced(lines, gaps, |lines|);
    forall i | 0 <= i < |lines| && gaps[i]
      ensures LineAt(s, i + BlanksBefore(gaps, i) + 1, "")
    {
      SpacedAt(lines, gaps, |lines|, i);
    }
  }

  /** Position `k` of `s` exists and holds `line`. */
  predicate LineAt(s: seq<string>, k: nat, line: string)
  {
    k < |s| && s[k] == line
  }

  /** The last line is never followed by an inserted blank. */
  lemma SpacedLast(lines: seq<string>)
    requires |lines| >= 1
    ensures var s := Spaced(lines, Gaps(lines), |lines|);
            |s| >= 1 && s[|s| - 1] == lines[|lines| - 1]
  {
  }

  /** Without any marked line, nothing is inserted. */
  lemma {:induction false} SpacedIdentity(lines: seq<string>, gaps: seq<bool>, n: nat)
    requires n <= |lines| == |gaps|
    requires forall i :: 0 <= i < n ==> !gaps[i]
    ensures Spaced(lines, gaps, n) == lines[..n]
  {
    if n > 0 {
      SpacedIdentity(lines, gaps, n - 1);
      assert lines[..n] == lines[..n - 1] + [lines[n - 1]];
    }
  }

  /** Text in which no content line is directly followed by a list item comes back unchanged. */
  lemma BlankBeforeListsIdentity(content: string, lines: seq<string>)
    requires lines == Split(content, '\n')
    requires forall i :: 0 <= i < |lines| ==> !NeedsBlank(lines, i)
    ensures BlankBeforeLists(content) == content
  {
    var gaps := Gaps(lines);
    forall i | 0 <= i < |lines| ensures !gaps[i] {
      assert gaps[i] == NeedsBlank(lines, i);
    }
    SpacedIdentity(lines, gaps, |lines|);
    assert lines[..|lines|] == lines;
    JoinSplit(content, '\n');
  }

  /** Every entry of the spaced list is an input line or empty, so none holds a line feed. */
  lemma {:induction false} SpacedElements(lines: seq<string>, gaps: seq<bool>, n: nat)
    requires n <= |lines| == |gaps|
    requires forall i :: 0 <= i < |lines| ==> '\n' !in lines[i]
    ensures forall k :: 0 <= k < |Spaced(lines, gaps, n)| ==> '\n' !in Spaced(lines, gaps, n)[k]
  {
    if n > 0 {
      SpacedElements(lines, gaps, n - 1);
    }
  }

  /** Splitting the result into lines gives exactly the spaced line list. */
  lemma BlankBeforeListsLines(content: string)
    ensures var lines := Split(content, '\n');
            Split(BlankBeforeLists(content), '\n') == Spaced(lines, Gaps(lines), |lines|)
  {
    var lines := Split(content, '\n');
    SpacedLength(lines, Gaps(lines), |lines|);
    SpacedElements(lines, Gaps(lines), |lines|);
    SplitJoin(Spaced(lines, Gaps(lines), |lines|), '\n');
  }

  lemma ExampleLines()
    ensures Split("Intro\n- a", '\n') == ["Intro", "- a"]
  {
    assert Join(["Intro", "- a"], '\n') == "Intro" + "\n" + "- a";
    assert "Intro" + "\n" + "- a" == "Intro\n- a";
    SplitJoin(["Intro", "- a"], '\n');
  }

  lemma ExampleNeedsBlank()
    ensures NeedsBlank(["Intro", "- a"], 0)
    ensures !NeedsBlank(["Intro", "- a"], 1)
  {
    assert LeadingSpace("Intro") == 0 && TrailingSpace("Intro") == 0;
    assert LeadingSpace("- a") == 0 && TrailingSpace("- a") == 0;
    assert Strip("Intro") == "Intro";
    assert Strip("- a") == "- a";
    assert StartsWith("- a", "- ");
  }

  /** A line of text followed directly by a bullet gets a blank line in between. */
  lemma BlankBeforeListsExample()
    ensures BlankBeforeLists("Intro\n- a") == "Intro\n\n- a"
  {
    ExampleLines();
    ExampleGaps();
    ExampleSpaced();
    ExampleJoin();
  }

  lemma ExampleGaps()
    ensures Gaps(["Intro", "- a"]) == [true, false]
  {
    ExampleNeedsBlank();
  }

  lemma ExampleSpaced()
    ensures Spaced(["Intro", "- a"], [true, false], 2) == ["Intro", "", "- a"]
  {
  }

  lemma ExampleJoin()
    ensures Join(["Intro", "", "- a"], '\n') == "Intro\n\n- a"
  {
    assert Join(["Intro", "", "- a"], '\n') == "Intro" + "\n" + "" + "\n" + "- a";
  }

  /**
   * `normalize_content`: the normalizer's pipeline, then the blank lines before lists.
   */
  method NormalizeContent(content: string, nfkd: string -> string, isCombining: char -> bool) returns (out: string)
    ensures out == BlankBeforeLists(TextNormalizer.Normalized(content, nfkd, isCombining))
  {
    var normalized := TextNormalizer.NormalizeText(content, nfkd, isCombining);
    out := EnsureBlankBeforeLists(normalized);
  }

  // ---------------------------------------------------------------- front matter

  function Quoted(key: string, value: string): string
  {
    key + ": \"" + value + "\""
  }

  /** Each line prefixed with two spaces. */
  function Indented(lines: seq<string>): (r: seq<string>)
    ensures |r| == |lines|
  {
    if lines == [] then [] else Indented(lines[..|lines| - 1]) + ["  " + lines[|lines| - 1]]
  }

  /** Indenting keeps every line, in order, behind two spaces. */
  lemma {:induction false} IndentedSpec(lines: seq<string>)
    ensures forall k :: 0 <= k < |lines| ==> Indented(lines)[k] == "  " + lines[k]
  {
    if lines != [] {
      IndentedSpec(lines[..|lines| - 1]);
    }
  }

  /** The numbering lines: `documentclass` for front matter, then the indented LaTeX header. */
  function NumberingLines(config: PageNumbering.Value, hasFrontmatter: bool): Result<seq<string>, PageNumbering.ConfigError>
  {
    var on :- PageNumbering.Index(config, "enabled");
    if !PageNumbering.Truthy(on) then Ok([])
    else
      var header :- PageNumbering.LatexHeader(config);
      Ok(NumberingFrom(hasFrontmatter, header))
  }

  /** The numbering lines once numbering is on and the LaTeX header is known. */
  function NumberingFrom(hasFrontmatter: bool, header: string): seq<string>
  {
    (if hasFrontmatter then ["documentclass: book"] else []) + IncludesBlock(header)
  }

  /** The `header-includes` literal block holding a non-empty LaTeX header, one indented line per header line. */
  function IncludesBlock(header: string): seq<string>
  {
    if header != [] then ["header-includes: |"] + Indented(Split(header, '\n')) else []
  }

  /** The front matter lines around the numbering block. */
  function MetadataFrom(title: string, author: string, subtitle: string, today: string, numbering: seq<string>): seq<string>
  {
    ["---", Quoted("title", title), Quoted("author", author)] +
    (if subtitle != [] then [Quoted("subtitle", subtitle)] else []) +
    [Quoted("date", today), "toc: true", "toc-depth: 3"] +
    numbering +
    ["---", ""]
  }

  /** The text `create_metadata` returns, or the error its configuration look-ups raise. */
  function Metadata(title: string, author: string, subtitle: string, hasFrontmatter: bool,
                    today: string, config: PageNumbering.Value): (r: Result<string, PageNumbering.ConfigError>)
    ensures r.Ok? <==> NumberingLines(config, hasFrontmatter).Ok?
    ensures r.Ok? ==> StartsWith(r.value, "---\n")
  {
    var numbering :- NumberingLines(config, hasFrontmatter);
    Ok(Join(MetadataFrom(title, author, subtitle, today, numbering), '\n'))
  }

  /** Appends the `header-includes` block for `header`, line by line. */
  method AppendHeaderIncludes(block: seq<string>, header: string) returns (out: seq<string>)
    ensures out == block + IncludesBlock(header)
  {
    out := block;
    if header != [] {
      out := out + ["header-includes: |"];
      ghost var opening := out;
      var parts := Split(header, '\n');
      var i := 0;
      assert parts[..0] == [];
      while i < |parts|
        invariant 0 <= i <= |parts|
        invariant out == opening + Indented(parts[..i])
      {
        IndentedSnoc(parts, i);
        assert (opening + Indented(parts[..i])) + ["  " + parts[i]] == opening + (Indented(parts[..i]) + ["  " + parts[i]]);
        out := out + ["  " + parts[i]];
        i := i + 1;
      }
      assert parts[..|parts|] == parts;
      assert out == block + (["header-includes: |"] + Indented(parts));
    } else {
      assert out == block + [];
    }
  }

  /** The page-numbering part of `create_metadata`. */
  method NumberingBlock(config: PageNumbering.Value, hasFrontmatter: bool)
    returns (r: Result<seq<string>, PageNumbering.ConfigError>)
    ensures r == NumberingLines(config, hasFrontmatter)
  {
    var on := PageNumbering.Index(config, "enabled");
    if on.Err? {
      return Err(on.error);
    }
    var block: seq<string> := [];
    if PageNumbering.Truthy(on.value) {
      if hasFrontmatter {
        block := block + ["documentclass: book"];
      }
      var header := PageNumbering.GenerateLatexHeader(config);
      if header.Err? {
        return Err(header.error);
      }
      assert block == (if hasFrontmatter then ["documentclass: book"] else []);
      block := AppendHeaderIncludes(block, header.value);
    }
    r := Ok(block);
  }

  /**
   * `create_metadata`, with today's date (`%Y-%m-%d`) given as a parameter.  A configuration
   * whose look-ups fail raises, as the dictionary accesses do.
   */
  method CreateMetadata(title: string, author: string, subtitle: string, hasFrontmatter: bool,
                        today: string, config: PageNumbering.Value) returns (r: Result<string, PageNumbering.ConfigError>)
    ensures r == Metadata(title, author, subtitle, hasFrontmatter, today, config)
  {
    var metadata := ["---", Quoted("title", title), Quoted("author", author)];
    ghost var head := metadata;
    ghost var sub: seq<string> := if subtitle != [] then [Quoted("subtitle", subtitle)] else [];
    if subtitle != [] {
      metadata := metadata + [Quoted("subtitle", subtitle)];
    } else {
      assert metadata == head + sub;
    }
    metadata := metadata + [Quoted("date", today), "toc: true", "toc-depth: 3"];
    var block := NumberingBlock(config, hasFrontmatter);
    if block.Err? {
      return Err(block.error);
    }
    metadata := metadata + block.value + ["---", ""];
    assert metadata == head + sub + [Quoted("date", today), "toc: true", "toc-depth: 3"] + block.value + ["---", ""];
    r := Ok(Join(metadata, '\n'));
  }

  lemma IndentedSnoc(parts: seq<string>, i: nat)
    requires i < |parts|
    ensures Indented(parts[..i + 1]) == Indented(parts[..i]) + ["  " + parts[i]]
  {
    assert parts[..i + 1][..i] == parts[..i];
  }

  lemma QuotedKeysDiffer(a: string, b: string)
    ensures Quoted("date", a) != Quoted("subtitle", b)
  {
    assert Quoted("date", a)[1] == 'a';
    assert Quoted("subtitle", b)[1] == 'u';
  }

  /**
   * The front matter opens with `---` and the title and author lines, has a subtitle line
   * exactly when the subtitle is non-empty, ends with the numbering block and then `---`
   * and an empty line.
   */
  lemma MetadataShape(title: string, author: string, subtitle: string, today: string, numbering: seq<string>)
    ensures var m := MetadataFrom(title, author, subtitle, today, numbering);
            |m| >= 8 + |numbering| &&
            m[..3] == ["---", Quoted("title", title), Quoted("author", author)] &&
            (subtitle != [] <==> m[3] == Quoted("subtitle", subtitle)) &&
            m[|m| - 2 - |numbering|..] == numbering + ["---", ""]
  {
    QuotedKeysDiffer(today, subtitle);
  }

  /**
   * With numbering on, a `header-includes: |` block appears exactly when the LaTeX header is
   * non-empty, and then every header line follows it indented by two spaces.
   */
  lemma NumberingFromSpec(hasFrontmatter: bool, header: string)
    ensures var n := NumberingFrom(hasFrontmatter, header);
            var front := if hasFrontmatter then ["documentclass: book"] else [];
            if header != []
            then n == front + ["header-includes: |"] + Indented(Split(header, '\n'))
            else n == front && forall k :: 0 <= k < |n| ==> n[k] != "header-includes: |"
  {
    var n := NumberingFrom(hasFrontmatter, header);
    if header == [] {
      forall k | 0 <= k < |n| ensures n[k] != "header-includes: |" {
        assert n[k] == "documentclass: book";
        assert n[k][0] != "header-includes: |"[0];
      }
    }
  }

  // ---------------------------------------------------------------- convert

  /** One entry of the result list of `convert`. */
  datatype OutputFile = OutputFile(name: string, format: string)

  /** Why `convert` raised: Pandoc is missing, or the numbering configuration could not be read. */
  datatype ConvertError = PandocMissing | BadNumbering(error: PageNumbering.ConfigError)

  function SlugChar(c: char): char
  {
    var l := LowerChar(c);
    if l == ' ' || l == '_' then '-' else l
  }

  /** The base file name: the title lower-cased, with spaces and underscores turned into `-`. */
  function Slug(title: string): (r: string)
    ensures |r| == |title|
  {
    ReplaceCharOneForOne(Lower(title), ' ', '-');
    ReplaceCharOneForOne(ReplaceChar(Lower(title), ' ', "-"), '_', '-');
    ReplaceChar(ReplaceChar(Lower(title), ' ', "-"), '_', "-")
  }

  /** The slug maps the title character by character, so it has neither spaces nor underscores. */
  lemma SlugSpec(title: string)
    ensures |Slug(title)| == |title|
    ensures forall k :: 0 <= k < |title| ==> Slug(title)[k] == SlugChar(title[k])
    ensures ' ' !in Slug(title) && '_' !in Slug(title)
  {
    var lowered := Lower(title);
    ReplaceCharOneForOne(lowered, ' ', '-');
    ReplaceCharOneForOne(ReplaceChar(lowered, ' ', "-"), '_', '-');
  }

  /** The files a run yields: supported formats, in the order requested, whose conversion produced a file. */
  function Outputs(formats: seq<string>, slug: string, produced: string -> bool): (r: seq<OutputFile>)
    ensures |r| <= |formats|
  {
    if formats == [] then []
    else
      var rest := Outputs(formats[1..], slug, produced);
      if formats[0] in SupportedFormats && produced(formats[0]) then [OutputFile(slug + "." + formats[0], formats[0])] + rest
      else rest
  }

  /** Every output is a supported, produced format named after the slug, and every such format yields one. */
  lemma {:induction false} OutputsSpec(formats: seq<string>, slug: string, produced: string -> bool)
    ensures forall k :: 0 <= k < |Outputs(formats, slug, produced)| ==>
              var o := Outputs(formats, slug, produced)[k];
              o.format in formats && o.format in SupportedFormats && produced(o.format) && o.name == slug + "." + o.format
    ensures forall f :: f in formats && f in SupportedFormats && produced(f) ==>
              exists k :: 0 <= k < |Outputs(formats, slug, produced)| && Outputs(formats, slug, produced)[k].format == f
  {
    if formats != [] {
      OutputsSpec(formats[1..], slug, produced);
      var r := Outputs(formats, slug, produced);
      var rest := Outputs(formats[1..], slug, produced);
      forall f | f in formats && f in SupportedFormats && produced(f)
        ensures exists k :: 0 <= k < |r| && r[k].format == f
      {
        if f == formats[0] {
          assert r[0].format == f;
        } else {
          assert f in formats[1..];
          var k :| 0 <= k < |rest| && rest[k].format == f;
          assert r[|r| - |rest| + k] == rest[k];
        }
      }
    }
  }

  /**
   * `convert`, for its outputs: it raises when Pandoc is missing, then when the front matter
   * (built without `has_frontmatter`) cannot be made; otherwise it walks the requested formats
   * in order, skips unsupported ones and keeps those whose conversion produced a file
   * (`produced`, standing for Pandoc's success and the file's existence).
   */
  method Convert(pandocInstalled: bool, formats: seq<string>, title: string, author: string, subtitle: string,
                 today: string, config: PageNumbering.Value, produced: string -> bool)
    returns (r: Result<seq<OutputFile>, ConvertError>)
    ensures !pandocInstalled <==> r == Err(PandocMissing)
    ensures pandocInstalled && Metadata(title, author, subtitle, false, today, config).Err? ==>
              r == Err(BadNumbering(Metadata(title, author, subtitle, false, today, config).error))
    ensures pandocInstalled && Metadata(title, author, subtitle, false, today, config).Ok? ==>
              r == Ok(Outputs(formats, Slug(title), produced))
  {
    if !pandocInstalled {
      return Err(PandocMissing);
    }
    var metadata := CreateMetadata(title, author, subtitle, false, today, config);
    if metadata.Err? {
      return Err(BadNumbering(metadata.error));
    }
    var results := CollectOutputs(formats, Slug(title), produced);
    r := Ok(results);
  }

  /** The loop over the requested formats in `convert`. */
  method CollectOutputs(formats: seq<string>, base: string, produced: string -> bool)
    returns (results: seq<OutputFile>)
    ensures results == Outputs(formats, base, produced)
  {
    results := [];
    var i := 0;
    assert formats[0..] == formats;
    while i < |formats|
      invariant 0 <= i <= |formats|
      invariant results + Outputs(formats[i..], base, produced) == Outputs(formats, base, produced)
    {
      var fmt := formats[i];
      assert formats[i..][1..] == formats[i + 1..];
      if fmt in SupportedFormats && produced(fmt) {
        results := results + [OutputFile(base + "." + fmt, fmt)];
      }
      i := i + 1;
    }
    assert formats[|formats|..] == [];
    assert Outputs([], base, produced) == [];
  }
}
