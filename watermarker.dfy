/**
 * The document watermarker: which files it accepts and how it dispatches them, the opacity
 * clamp, the CSS and overlay it puts into HTML, the front matter, comment and footer it puts
 * into Markdown, and the names of the files it writes.  File contents, the clock and the
 * encoded logo are parameters; the PDF and DOCX bodies are not modelled.
 */
module Watermarker {
  import opened Wrappers
  import opened PyStr
  import opened Paths

  /** The lower-cased suffixes `apply_watermark` accepts. */
  const SupportedFormats: seq<string> := [".pdf", ".html", ".htm", ".docx", ".md", ".markdown"]

  /** The writer a supported file is handed to. */
  datatype Kind = Html | Pdf | Docx | Markdown

  datatype WatermarkError =
    | InputNotFound
    | UnsupportedFormat(ext: string)
    | TextRequired       // the PDF writer refuses an empty watermark text

  /** A watermarking job that passed the checks: the writer, the clamped opacity and the files written. */
  datatype Job = Job(kind: Kind, opacity: real, output: string, metadata: string)

  /** The suffixes each writer handles. */
  function Extensions(k: Kind): seq<string>
  {
    match k
    case Html => [".html", ".htm"]
    case Pdf => [".pdf"]
    case Docx => [".docx"]
    case Markdown => [".md", ".markdown"]
  }

  /** The `if`/`elif` chain choosing the writer for a lower-cased suffix. */
  function Dispatch(ext: string): (r: Option<Kind>)
    ensures r.Some? ==> ext in Extensions(r.value)
    ensures r.None? ==> forall k: Kind :: ext !in Extensions(k)
  {
    if ext in [".html", ".htm"] then Some(Html)
    else if ext == ".pdf" then Some(Pdf)
    else if ext == ".docx" then Some(Docx)
    else if ext in [".md", ".markdown"] then Some(Markdown)
    else None
  }

  /**
   * The writers' suffixes are exactly the supported formats, so the closing "unsupported
   * format" branch of the dispatch is never reached once the format check has passed.
   */
  lemma DispatchTotal(ext: string)
    ensures Dispatch(ext).Some? <==> ext in SupportedFormats
  {
    if ext in SupportedFormats {
      var i :| 0 <= i < |SupportedFormats| && SupportedFormats[i] == ext;
      assert ext in Extensions(Kind.Pdf) || ext in Extensions(Kind.Html) || ext in Extensions(Kind.Docx)
        || ext in Extensions(Kind.Markdown);
    }
  }

  /** `max(0.0, min(1.0, opacity))`. */
  function Clamp(x: real): (r: real)
    ensures 0.0 <= r <= 1.0
    ensures 0.0 <= x <= 1.0 ==> r == x
    ensures x < 0.0 ==> r == 0.0
    ensures x > 1.0 ==> r == 1.0
  {
    var m := if x < 1.0 then x else 1.0;
    if m > 0.0 then m else 0.0
  }

  /** Clamping twice is clamping once. */
  lemma ClampIdempotent(x: real)
    ensures Clamp(Clamp(x)) == Clamp(x)
  {
  }

  /** `f"{input_file.stem}_watermarked{input_file.suffix}"`. */
  function OutputName(name: string): string
  {
    Stem(name) + "_watermarked" + Suffix(name)
  }

  /** `f"{output_path.stem}.watermark.json"`. */
  function MetadataName(output: string): string
  {
    Stem(output) + ".watermark.json"
  }

  /**
   * The output keeps the input's suffix and adds `_watermarked` to its stem, so the metadata
   * file is named after the input's stem.
   */
  lemma OutputNameParts(name: string)
    requires Suffix(name) != []
    ensures Suffix(OutputName(name)) == Suffix(name)
    ensures Stem(OutputName(name)) == Stem(name) + "_watermarked"
    ensures MetadataName(OutputName(name)) == Stem(name) + "_watermarked" + ".watermark.json"
  {
    StemSuffix(name);
    var stem, suffix := Stem(name), Suffix(name);
    var out := OutputName(name);
    var i := |stem| + |"_watermarked"|;
    assert out[i..] == suffix;
    assert out[i] == '.';
    assert forall k :: i < k < |out| ==> out[k] == suffix[1..][k - i - 1];
    assert RFind(out, '.') == i;
    assert out[..i] == stem + "_watermarked";
  }

  /** The output and metadata names of a file name without `/` have none either. */
  lemma NoSlashInNames(name: string)
    requires '/' !in name && Suffix(name) != []
    ensures '/' !in OutputName(name)
    ensures '/' !in Stem(name) + "_watermarked" + ".watermark.json"
  {
    StemSuffix(name);
    var stem, suffix := Stem(name), Suffix(name);
    assert '/' !in stem && '/' !in suffix;
    assert '/' !in "_watermarked" && '/' !in ".watermark.json";
  }

  /** Where a job's output and metadata files go. */
  lemma JobFiles(name: string, outputDir: string)
    requires '/' !in name && Suffix(name) != []
    ensures Name(JoinPath(outputDir, OutputName(name))) == OutputName(name)
    ensures Name(JoinPath(outputDir, MetadataName(OutputName(name)))) == Stem(name) + "_watermarked" + ".watermark.json"
  {
    OutputNameParts(name);
    NoSlashInNames(name);
  }

  /**
   * `apply_watermark`: a missing input, then an unsupported lower-cased suffix, are refused;
   * the opacity is clamped and the file goes to the writer for its suffix, the PDF writer
   * refusing an empty text.  The output and its metadata go into `outputDir`.
   */
  function ApplyWatermark(inputExists: bool, input: string, text: string, opacity: real, outputDir: string)
    : (r: Result<Job, WatermarkError>)
    ensures !inputExists ==> r == Err(InputNotFound)
    ensures r.Ok? ==> Lower(Suffix(Name(input))) in Extensions(r.value.kind) && 0.0 <= r.value.opacity <= 1.0
    ensures r.Ok? ==> r.value.opacity == Clamp(opacity)
  {
    if !inputExists then Err(InputNotFound)
    else
      var name := Name(input);
      var ext := Lower(Suffix(name));
      if ext !in SupportedFormats then Err(UnsupportedFormat(ext))
      else
        DispatchTotal(ext);
        var kind := Dispatch(ext).value;
        if kind == Pdf && text == [] then Err(TextRequired)
        else
          var output := OutputName(name);
          Ok(Job(kind, Clamp(opacity), JoinPath(outputDir, output), JoinPath(outputDir, MetadataName(output))))
  }

  /** An empty text is refused exactly for an existing PDF. */
  lemma TextRequiredExactly(inputExists: bool, input: string, text: string, opacity: real, outputDir: string)
    ensures ApplyWatermark(inputExists, input, text, opacity, outputDir) == Err(TextRequired)
            <==> inputExists && Lower(Suffix(Name(input))) == ".pdf" && text == []
  {
    var ext := Lower(Suffix(Name(input)));
    DispatchPdf(ext);
    if inputExists && ext in SupportedFormats {
      DispatchTotal(ext);
    }
    if ext == ".pdf" {
      assert ext in SupportedFormats;
    }
  }

  /** Only `.pdf` goes to the PDF writer. */
  lemma DispatchPdf(ext: string)
    ensures Dispatch(ext) == Some(Pdf) <==> ext == ".pdf"
  {
  }

  /**
   * The refusals of `apply_watermark`: an unsupported suffix names itself, and an empty text
   * is refused exactly for an existing PDF.
   */
  lemma ApplyWatermarkErrors(inputExists: bool, input: string, text: string, opacity: real, outputDir: string)
    ensures var ext := Lower(Suffix(Name(input)));
            inputExists && ext !in SupportedFormats ==>
              ApplyWatermark(inputExists, input, text, opacity, outputDir) == Err(UnsupportedFormat(ext))
    ensures var ext := Lower(Suffix(Name(input)));
            (ApplyWatermark(inputExists, input, text, opacity, outputDir) == Err(TextRequired)
             <==> inputExists && ext == ".pdf" && text == [])
  {
    TextRequiredExactly(inputExists, input, text, opacity, outputDir);
  }

  /** An accepted job writes `<stem>_watermarked<suffix>` and `<stem>_watermarked.watermark.json`. */
  lemma ApplyWatermarkFiles(inputExists: bool, input: string, text: string, opacity: real, outputDir: string)
    requires ApplyWatermark(inputExists, input, text, opacity, outputDir).Ok?
    ensures var job := ApplyWatermark(inputExists, input, text, opacity, outputDir).value;
            Name(job.output) == OutputName(Name(input))
            && Name(job.metadata) == Stem(Name(input)) + "_watermarked" + ".watermark.json"
  {
    var name := Name(input);
    var ext := Lower(Suffix(name));
    assert ext in SupportedFormats;
    assert |Suffix(name)| == |ext| > 0;
    JobFiles(name, outputDir);
  }

  // ----- HTML -----

  /** The positions with a placement of their own. */
  const Positions: set<string> := {"center", "top-left", "top-right", "bottom-left", "bottom-right"}

  /** `position_styles.get(position, position_styles['center'])`. */
  function PositionStyle(position: string): string
  {
    if position == "top-left" then "top: 20px; left: 20px;"
    else if position == "top-right" then "top: 20px; right: 20px;"
    else if position == "bottom-left" then "bottom: 20px; left: 20px;"
    else if position == "bottom-right" then "bottom: 20px; right: 20px;"
    else "top: 50%; left: 50%; transform: translate(-50%, -50%);"
  }

  function CssHead(): string
  {
    "\n        <style>\n        .watermark-overlay {\n            position: fixed;\n            "
  }

  function CssOpacity(): string
  {
    "\n            opacity: "
  }

  function CssTail(): string
  {
    ";\n            z-index: 9999;\n            pointer-events: none;\n            text-align: center;\n        }\n"
      + "        .watermark-overlay img {\n            max-width: 150px;\n            max-height: 150px;\n"
      + "            display: block;\n            margin: 0 auto 10px auto;\n        }\n"
      + "        .watermark-overlay .watermark-text {\n            font-size: 14px;\n            color: #333;\n"
      + "            font-family: Arial, sans-serif;\n        }\n"
      + "        @media print {\n            .watermark-overlay {\n                position: absolute;\n            }\n        }\n"
      + "        </style>\n        "
  }

  /** `generate_watermark_css`; `opacityText` is how Python prints the clamped opacity. */
  function WatermarkCss(position: string, opacityText: string): (r: string)
    ensures EndsWith(r, opacityText + CssTail())
  {
    var placed := CssHead() + PositionStyle(position) + CssOpacity();
    ConcatEnds(placed, opacityText + CssTail());
    placed + (opacityText + CssTail())
  }

  /** A position without a placement of its own is placed like `center`. */
  lemma PositionFallback(position: string)
    requires position !in Positions
    ensures PositionStyle(position) == PositionStyle("center")
  {
  }

  const OverlayOpen := "<div class=\"watermark-overlay\">"
  const OverlayClose := "</div>"

  function LogoImage(logo: string): string
  {
    "<img src=\"" + logo + "\" alt=\"Watermark Logo\">"
  }

  function TextDiv(text: string): string
  {
    "<div class=\"watermark-text\">" + text + OverlayClose
  }

  /** The image element, present when there is an encoded logo. */
  function LogoPart(logo: string): string
  {
    if logo != [] then LogoImage(logo) else []
  }

  /** The text element, present when there is watermark text. */
  function TextPart(text: string): string
  {
    if text != [] then TextDiv(text) else []
  }

  /** The overlay `<div>` holding the logo image and the text. */
  function Overlay(logo: string, text: string): (r: string)
    ensures StartsWith(r, OverlayOpen) && EndsWith(r, OverlayClose)
  {
    OverlayOpen + LogoPart(logo) + TextPart(text) + OverlayClose
  }

  lemma DropFront(a: string, b: string, c: string, d: string)
    ensures (a + b + c + d)[|a|..] == b + c + d
  {
  }

  lemma ClosedTwice(front: string, open: string, close: string)
    ensures EndsWith(front + (open + close) + close, close + close)
    ensures EndsWith(front + (open + close) + close, (open + close) + close)
  {
    var r := front + (open + close) + close;
    assert r == (front + open) + (close + close);
    ConcatEnds(front + open, close + close);
    assert r == front + ((open + close) + close);
    ConcatEnds(front, (open + close) + close);
  }

  /** The overlay opens with an image exactly when the logo is non-empty. */
  lemma OverlayLogo(logo: string, text: string)
    ensures StartsWith(Overlay(logo, text)[|OverlayOpen|..], "<img") <==> logo != []
  {
    var rest := Overlay(logo, text)[|OverlayOpen|..];
    DropFront(OverlayOpen, LogoPart(logo), TextPart(text), OverlayClose);
    if logo != [] {
      ConcatEnds("<img src=\"", logo + "\" alt=\"Watermark Logo\">");
      assert LogoImage(logo) == "<img src=\"" + (logo + "\" alt=\"Watermark Logo\">");
      assert rest[..4] == LogoImage(logo)[..4];
    } else {
      assert rest[1] != 'i' by {
        if text != [] {
          assert rest[1] == TextDiv(text)[1];
        } else {
          assert rest == [] + OverlayClose;
        }
      }
      assert "<img"[1] == 'i';
    }
  }

  /** The overlay ends with the text element, closed twice, exactly when the text is non-empty. */
  lemma OverlayText(logo: string, text: string)
    ensures EndsWith(Overlay(logo, text), OverlayClose + OverlayClose) <==> text != []
    ensures text != [] ==> EndsWith(Overlay(logo, text), TextDiv(text) + OverlayClose)
  {
    var r := Overlay(logo, text);
    var front := OverlayOpen + LogoPart(logo);
    if text != [] {
      ClosedTwice(front, "<div class=\"watermark-text\">" + text, OverlayClose);
    } else {
      assert r == front + OverlayClose;
      assert front[|front| - 2] == '"';
      var n := |r|;
      assert r[n - 8] == '"';
      assert (OverlayClose + OverlayClose)[4] == 'v';
      assert r[n - 12..][4] != (OverlayClose + OverlayClose)[4];
    }
  }

  /** The CSS goes before every `</head>`, else after every `<body>`, else in front. */
  function InsertCss(html: string, css: string): (r: string)
    ensures |r| >= |html| + |css|
  {
    if Contains(html, "</head>") then
      ReplaceAllFind(html, "</head>", css + "</head>");
      ReplaceAll(html, "</head>", css + "</head>")
    else if Contains(html, "<body>") then
      ReplaceAllFind(html, "<body>", "<body>" + css);
      ReplaceAll(html, "<body>", "<body>" + css)
    else css + html
  }

  /** The overlay goes after the first `<body>` between line breaks, else in front. */
  function InsertOverlay(html: string, overlay: string): (r: string)
    ensures |r| == |html| + |overlay| + (if Contains(html, "<body>") then 2 else 1)
  {
    if Contains(html, "<body>") then ReplaceFirst(html, "<body>", "<body>" + ("\n" + overlay + "\n"))
    else overlay + "\n" + html
  }

  /** The text `watermark_html` writes. */
  function WatermarkHtml(html: string, css: string, overlay: string): (r: string)
    ensures |r| > |html| + |css| + |overlay|
    ensures !Contains(html, "</head>") && !Contains(html, "<body>") && !Contains(css + html, "<body>") ==>
              r == overlay + "\n" + css + html
  {
    InsertOverlay(InsertCss(html, css), overlay)
  }

  /** With a `</head>`, the CSS goes right before the first one and the text before it is kept. */
  lemma CssBeforeHead(html: string, css: string)
    requires Contains(html, "</head>")
    ensures var k := Find(html, "</head>");
            StartsWith(InsertCss(html, css), html[..k] + css + "</head>")
  {
    var k := Find(html, "</head>");
    ReplaceAllFind(html, "</head>", css + "</head>");
    var rest := ReplaceAll(html[k + 7..], "</head>", css + "</head>");
    assert InsertCss(html, css) == html[..k] + (css + "</head>") + rest;
    assert html[..k] + (css + "</head>") == html[..k] + css + "</head>";
    ConcatEnds(html[..k] + css + "</head>", rest);
  }

  /** Without a `</head>` but with a `<body>`, the CSS goes right after the first `<body>`. */
  lemma CssAfterBody(html: string, css: string)
    requires !Contains(html, "</head>") && Contains(html, "<body>")
    ensures var k := Find(html, "<body>");
            StartsWith(InsertCss(html, css), html[..k] + "<body>" + css)
  {
    var k := Find(html, "<body>");
    ReplaceAllFind(html, "<body>", "<body>" + css);
    var rest := ReplaceAll(html[k + 6..], "<body>", "<body>" + css);
    assert InsertCss(html, css) == html[..k] + ("<body>" + css) + rest;
    assert html[..k] + ("<body>" + css) == html[..k] + "<body>" + css;
    ConcatEnds(html[..k] + "<body>" + css, rest);
  }

  /** Without either tag the CSS is put in front. */
  lemma CssPrepended(html: string, css: string)
    requires !Contains(html, "</head>") && !Contains(html, "<body>")
    ensures InsertCss(html, css) == css + html
  {
  }

  /** With a `<body>`, the overlay goes right after the first one between line breaks, and nothing else changes. */
  lemma OverlayAfterBody(html: string, overlay: string)
    requires Contains(html, "<body>")
    ensures var k := Find(html, "<body>");
            InsertOverlay(html, overlay) == html[..k + 6] + "\n" + overlay + "\n" + html[k + 6..]
  {
    ReplaceFirstInsertsAfter(html, "<body>", "\n" + overlay + "\n");
  }

  /** Without a `<body>` the overlay and a line break are put in front. */
  lemma OverlayPrepended(html: string, overlay: string)
    requires !Contains(html, "<body>")
    ensures InsertOverlay(html, overlay) == overlay + "\n" + html
  {
  }

  // ----- Markdown -----

  /** The line that opens and closes a YAML front matter. */
  const Fence := "---"

  const Copyright := "\U{A9} "

  /** `md_content.strip().startswith('---')`. */
  predicate HasFrontmatter(md: string)
  {
    StartsWith(Strip(md), Fence)
  }

  /**
   * `md_content.split('---', 2)` when it has at least three parts: the existing front matter
   * (between the first two `---`) and the rest after the second.  The text before the first
   * `---` is dropped.
   */
  function FrontmatterParts(md: string): (r: Option<(string, string)>)
    ensures r.Some? ==> !Contains(r.value.0, Fence)
    ensures r.Some? ==> EndsWith(md, Fence + r.value.0 + Fence + r.value.1)
    ensures r.None? <==> !Contains(md, Fence) || !Contains(md[Find(md, Fence) + 3..], Fence)
  {
    var i := Find(md, Fence);
    if i < 0 then None
    else
      var after := md[i + 3..];
      var j := Find(after, Fence);
      if j < 0 then None
      else
        NothingBeforeFirst(after, Fence);
        FencedSplit(md, i, j);
        Some((after[..j], after[j + 3..]))
  }

  /** Nothing before the first occurrence of a pattern contains it. */
  lemma NothingBeforeFirst(s: string, p: string)
    requires |p| > 0 && Contains(s, p)
    ensures !Contains(s[..Find(s, p)], p)
  {
    var j := Find(s, p);
    if Contains(s[..j], p) {
      var m := Find(s[..j], p);
      assert s[m..m + |p|] == s[..j][m..m + |p|];
      FindIsFirst(s, p, m);
    }
  }

  /** A fence at `i` and another `j` characters after it split the rest of the text in three. */
  lemma FencedSplit(md: string, i: nat, j: nat)
    requires i + 3 <= |md| && md[i..i + 3] == Fence
    requires j + 3 <= |md[i + 3..]| && md[i + 3..][j..j + 3] == Fence
    ensures EndsWith(md, Fence + md[i + 3..][..j] + Fence + md[i + 3..][j + 3..])
  {
    var after := md[i + 3..];
    assert md[i..] == Fence + after[..j] + Fence + after[j + 3..];
  }

  /** The keys of the front matter written when the file has none of its own, up to its closing fence. */
  function NewKeys(text: string, date: string, year: string, stem: string, stamp: string,
                   opacityText: string, position: string): string
  {
    "\nwatermark: \"" + text + "\"\nwatermarked_date: \"" + date + "\"\ncopyright: \"" + Copyright + year + " "
      + text + ". All Rights Reserved.\"\ndocument_id: \"" + stem + "_" + stamp + "\"\nopacity: " + opacityText
      + "\nposition: \"" + position + "\"\n" + Fence + "\n\n"
  }

  /** An existing front matter, stripped, with the watermark keys added, up to its closing fence. */
  function ExtendedKeys(existing: string, text: string, date: string, year: string): string
  {
    "\n" + Strip(existing) + InformationHeading + AddedKeys(text, date, year)
  }

  /** The comment line that opens the added keys. */
  const InformationHeading := "\n# Watermark Information\n"

  /** An extended front matter opens with the fence, the stripped existing keys and the heading. */
  lemma ExtendedOpening(existing: string, text: string, date: string, year: string)
    ensures Fence + ExtendedKeys(existing, text, date, year)
            == (Fence + "\n" + Strip(existing) + InformationHeading) + AddedKeys(text, date, year)
  {
    Regroup(Fence, "\n", Strip(existing), InformationHeading, AddedKeys(text, date, year));
  }

  /** The watermark keys added to an existing front matter, up to its closing fence. */
  function AddedKeys(text: string, date: string, year: string): string
  {
    "watermark: \"" + text + "\"\nwatermarked_date: \"" + date + "\"\ncopyright: \"" + Copyright + year + " " + text
      + ". All Rights Reserved.\"\n" + Fence + "\n\n"
  }

  /** The HTML comment after the front matter, with the logo comment when there is an encoded logo. */
  function NoticeComment(text: string, date: string, year: string, opacityText: string, position: string,
                         logo: string): string
  {
    "<!--\nWATERMARKED DOCUMENT\n==================\nWatermark: " + text + "\nDate: " + date + "\nCopyright: "
      + Copyright + year + " " + text + ". All Rights Reserved.\nPosition: " + position + "\nOpacity: "
      + opacityText + "\n\n\U{26A0}\U{FE0F} NOTICE: This document is watermarked and protected.\n"
      + "Unauthorized distribution or modification is prohibited.\n-->\n\n"
      + (if logo != [] then "<!-- Watermark Logo (Base64):\n![Watermark Logo](" + logo + ")\n-->\n\n" else "")
  }

  /** The block appended to every watermarked Markdown file. */
  function Footer(text: string, date: string, year: string): string
  {
    "\n\n" + Fence + "\n\n**Document Watermark Information**\n\n- Watermarked: " + date + "\n- " + text + "\n- "
      + Copyright + year + " All Rights Reserved\n\n*This document is protected and watermarked. "
      + "Unauthorized distribution is prohibited.*\n\n<!-- End of Watermark -->\n"
  }

  /** The front matter the watermarked file starts with. */
  function Head(md: string, text: string, date: string, year: string, stem: string, stamp: string,
                opacityText: string, position: string): string
  {
    if HasFrontmatter(md) && FrontmatterParts(md).Some? then
      Fence + ExtendedKeys(FrontmatterParts(md).value.0, text, date, year)
    else
      Fence + NewKeys(text, date, year, stem, stamp, opacityText, position)
  }

  /** What of the original file is kept after the notice: the text after its front matter, or all of it. */
  function Kept(md: string): (r: string)
    ensures EndsWith(md, r)
  {
    if HasFrontmatter(md) && FrontmatterParts(md).Some? then
      var rest := FrontmatterParts(md).value.1;
      ConcatEnds(Fence + FrontmatterParts(md).value.0 + Fence, rest);
      assert EndsWith(md, rest) by {
        var t := Fence + FrontmatterParts(md).value.0 + Fence + rest;
        assert md[|md| - |rest|..] == t[|t| - |rest|..];
      }
      rest
    else
      assert md[|md| - |md|..] == md;
      md
  }

  /**
   * The text `watermark_md` writes: the front matter, the notice comment, the kept text and
   * the footer.  `date` is the formatted time, `year` the year, `stamp` the `%Y%m%d_%H%M%S`
   * time, `opacityText` the printed opacity and `logo` the encoded logo (empty when there is
   * none).
   */
  function WatermarkMd(md: string, text: string, date: string, year: nat, stem: string, stamp: string,
                       opacityText: string, position: string, logo: string): (r: string)
    ensures StartsWith(r, Fence)
  {
    var y := NatToString(year);
    var head := Head(md, text, date, y, stem, stamp, opacityText, position);
    var body := NoticeComment(text, date, y, opacityText, position, logo) + Kept(md) + Footer(text, date, y);
    HeadFence(md, text, date, y, stem, stamp, opacityText, position);
    ConcatEnds(head, body);
    StartsWithTransitive(head + body, head, Fence);
    head + body
  }

  /** Regrouping a concatenation of five texts. */
  lemma Regroup(a: string, b: string, c: string, d: string, e: string)
    ensures a + b + c + d + e == a + (b + c + d + e)
    ensures a + b + c + d + e == (a + b) + (c + d + e)
  {
  }

  /** Without front matter of its own, the file gets a new one. */
  lemma HeadNew(md: string, text: string, date: string, year: string, stem: string, stamp: string,
                opacityText: string, position: string)
    requires !(HasFrontmatter(md) && FrontmatterParts(md).Some?)
    ensures Head(md, text, date, year, stem, stamp, opacityText, position)
            == Fence + NewKeys(text, date, year, stem, stamp, opacityText, position)
  {
  }

  /** Without front matter of its own, the whole file is kept. */
  lemma KeptWhole(md: string)
    requires !(HasFrontmatter(md) && FrontmatterParts(md).Some?)
    ensures Kept(md) == md
  {
  }

  /** With front matter of its own, the text after it is kept. */
  lemma KeptRest(md: string)
    requires HasFrontmatter(md) && FrontmatterParts(md).Some?
    ensures Kept(md) == FrontmatterParts(md).value.1
  {
  }

  /** `watermark_md` writes the front matter, then the notice, the kept text and the footer. */
  lemma WatermarkMdParts(md: string, text: string, date: string, year: nat, stem: string, stamp: string,
                         opacityText: string, position: string, logo: string)
    ensures var y := NatToString(year);
            WatermarkMd(md, text, date, year, stem, stamp, opacityText, position, logo)
            == Head(md, text, date, y, stem, stamp, opacityText, position)
               + (NoticeComment(text, date, y, opacityText, position, logo) + Kept(md) + Footer(text, date, y))
  {
  }

  /**
   * The first branch of `watermark_md`: with front matter of its own, the file opens with a
   * fence, the stripped existing front matter and the watermark keys, and the text after that
   * front matter follows the notice.
   */
  lemma WatermarkMdExtends(md: string, text: string, date: string, year: nat, stem: string, stamp: string,
                           opacityText: string, position: string, logo: string)
    requires HasFrontmatter(md) && FrontmatterParts(md).Some?
    ensures var r := WatermarkMd(md, text, date, year, stem, stamp, opacityText, position, logo);
            var y := NatToString(year);
            var existing := FrontmatterParts(md).value.0;
            r == Fence + ExtendedKeys(existing, text, date, y) + NoticeComment(text, date, y, opacityText, position, logo)
                 + FrontmatterParts(md).value.1 + Footer(text, date, y) &&
            StartsWith(r, Fence + "\n" + Strip(existing) + InformationHeading)
  {
    var y := NatToString(year);
    var existing, rest := FrontmatterParts(md).value.0, FrontmatterParts(md).value.1;
    var n, f := NoticeComment(text, date, y, opacityText, position, logo), Footer(text, date, y);
    var extended := ExtendedKeys(existing, text, date, y);
    var r := WatermarkMd(md, text, date, year, stem, stamp, opacityText, position, logo);
    WatermarkMdParts(md, text, date, year, stem, stamp, opacityText, position, logo);
    KeptRest(md);
    assert r == (Fence + extended) + (n + rest + f);
    Regroup(Fence, extended, n, rest, f);
    var keys := AddedKeys(text, date, y);
    var opening := Fence + "\n" + Strip(existing) + InformationHeading;
    ExtendedOpening(existing, text, date, y);
    Regroup(opening, keys, n, rest, f);
    ConcatEnds(opening, keys + n + rest + f);
  }

  /**
   * The other branch of `watermark_md`: without front matter of its own (or with a single
   * fence), a new front matter and the notice come before the whole original text.
   */
  lemma WatermarkMdPrepends(md: string, text: string, date: string, year: nat, stem: string, stamp: string,
                            opacityText: string, position: string, logo: string)
    requires !(HasFrontmatter(md) && FrontmatterParts(md).Some?)
    ensures var y := NatToString(year);
            WatermarkMd(md, text, date, year, stem, stamp, opacityText, position, logo)
            == Fence + NewKeys(text, date, y, stem, stamp, opacityText, position)
               + NoticeComment(text, date, y, opacityText, position, logo) + md + Footer(text, date, y)
  {
    var y := NatToString(year);
    WatermarkMdParts(md, text, date, year, stem, stamp, opacityText, position, logo);
    HeadNew(md, text, date, y, stem, stamp, opacityText, position);
    KeptWhole(md);
    Regroup(Fence, NewKeys(text, date, y, stem, stamp, opacityText, position),
            NoticeComment(text, date, y, opacityText, position, logo), md, Footer(text, date, y));
  }

  lemma FourParts(head: string, notice: string, kept: string, footer: string)
    requires StartsWith(head, Fence)
    ensures StartsWith(head + notice + kept + footer, Fence)
    ensures EndsWith(head + notice + kept + footer, notice + kept + footer)
  {
    var r := head + notice + kept + footer;
    assert r == head + (notice + kept + footer);
    ConcatEnds(head, notice + kept + footer);
    StartsWithTransitive(r, head, Fence);
  }

  /** The front matter of the watermarked file opens with a fence. */
  lemma HeadFence(md: string, text: string, date: string, year: string, stem: string, stamp: string,
                  opacityText: string, position: string)
    ensures StartsWith(Head(md, text, date, year, stem, stamp, opacityText, position), Fence)
  {
    if HasFrontmatter(md) && FrontmatterParts(md).Some? {
      ConcatEnds(Fence, ExtendedKeys(FrontmatterParts(md).value.0, text, date, year));
    } else {
      ConcatEnds(Fence, NewKeys(text, date, year, stem, stamp, opacityText, position));
    }
  }

  /**
   * Every watermarked Markdown file opens with a front matter fence, ends with the footer and
   * holds, right before the footer, the notice and the kept text of the original.
   */
  lemma WatermarkMdShape(md: string, text: string, date: string, year: nat, stem: string, stamp: string,
                         opacityText: string, position: string, logo: string)
    ensures var r := WatermarkMd(md, text, date, year, stem, stamp, opacityText, position, logo);
            var y := NatToString(year);
            StartsWith(r, Fence)
            && EndsWith(r, NoticeComment(text, date, y, opacityText, position, logo) + Kept(md) + Footer(text, date, y))
  {
    var y := NatToString(year);
    var h := Head(md, text, date, y, stem, stamp, opacityText, position);
    ConcatEnds(h, NoticeComment(text, date, y, opacityText, position, logo) + Kept(md) + Footer(text, date, y));
  }

  /** Text opening with a fence still opens with it once stripped. */
  lemma FenceSurvivesStrip(r: string)
    requires StartsWith(r, Fence)
    ensures StartsWith(Strip(r), Fence)
  {
    assert r[0] == '-' && r[2] == '-';
    assert LeadingSpace(r) == 0;
    var s := Strip(r);
    assert |s| >= 3;
    assert s[..3] == r[..3];
  }

  /** Every watermarked Markdown file itself counts as having front matter. */
  lemma WatermarkedMdHasFrontmatter(md: string, text: string, date: string, year: nat, stem: string,
                                    stamp: string, opacityText: string, position: string, logo: string)
    ensures HasFrontmatter(WatermarkMd(md, text, date, year, stem, stamp, opacityText, position, logo))
  {
    WatermarkMdShape(md, text, date, year, stem, stamp, opacityText, position, logo);
    FenceSurvivesStrip(WatermarkMd(md, text, date, year, stem, stamp, opacityText, position, logo));
  }
}
