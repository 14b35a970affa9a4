/**
 * Geometry of the cover generator: its spine and wrap dimensions (built on the KDP
 * calculator, with the generator's own "hardcover" adjustments), hex colour parsing, the
 * size and colour choice of a new cover, aspect-fit placement, the wrap sections of
 * converted covers and the barcode safe area.  Python's `a // b` with `b > 0` is Dafny's
 * `a / b` on `int` (both round toward minus infinity for a positive divisor).
 */
module CoverGenerator {
  import opened Wrappers
  import opened PyNum
  import opened PyStr
  import KdpCalculator

  const EbookWidth: int := 1600
  const EbookHeight: int := 2560
  const EbookDpi: int := 300

  const PaperbackWidth: int := 5499
  const PaperbackHeight: int := 3375
  const PaperbackSpineWidth: int := 399
  const PaperbackDpi: int := 300

  const AltPaperbackWidth: int := 3666
  const AltPaperbackHeight: int := 2700
  const AltPaperbackSpineWidth: int := 66

  const HardbackWidth: int := 6900
  const HardbackHeight: int := 3450
  const HardbackSpineWidth: int := 450
  const HardbackFlapWidth: int := 1050
  const HardbackDpi: int := 300

  const AltHardbackWidth: int := 4650
  const AltHardbackHeight: int := 2850
  const AltHardbackSpineWidth: int := 450
  const AltHardbackFlapWidth: int := 900

  /** Extra spine thickness of hardcover boards, in inches. */
  const HardcoverBoard: real := 0.25

  // ---------------------------------------------------------------- spine and wrap size

  /**
   * The generator's spine: the KDP spine width, plus 0.25" exactly when the binding is the
   * string "hardcover".  The calculator's errors pass through unchanged.
   */
  function SpineWidth(pageCount: int, paperType: string, bindingType: string): (r: Result<real, KdpCalculator.KdpError>)
    ensures var kdp := KdpCalculator.SpineWidth(pageCount, paperType);
            (r.Err? <==> kdp.Err?) && (r.Err? ==> r.error == kdp.error) &&
            (r.Ok? ==> r.value - kdp.value == (if bindingType == "hardcover" then HardcoverBoard else 0.0))
  {
    match KdpCalculator.SpineWidth(pageCount, paperType)
    case Err(e) => Err(e)
    case Ok(s) => Ok(if bindingType == "hardcover" then s + HardcoverBoard else s)
  }

  lemma SpineWidthExamples()
    ensures SpineWidth(250, "white", "paperback") == Ok(0.563)
    ensures SpineWidth(250, "white", "hardcover") == Ok(0.813)
    ensures SpineWidth(250, "white", "hardback") == Ok(0.563)
    ensures SpineWidth(900, "white", "hardcover") == Err(KdpCalculator.PageCountOutOfRange(900))
  {
    KdpCalculator.SpineWidthExamples();
  }

  /** The dictionary `calculate_cover_dimensions` returns. */
  datatype WrapDimensions = WrapDimensions(
    coverWidth: int,
    coverHeight: int,
    spineWidth: int,
    trimWidth: real,
    trimHeight: real,
    spineWidthInches: real,
    coverWidthInches: real,
    coverHeightInches: real,
    dpi: int,
    pageCount: int,
    paperType: string,
    bindingType: string)

  /** Python `int(inches * dpi)`. */
  function Pixels(inches: real, dpi: int): int
  {
    Trunc(inches * dpi as real)
  }

  /**
   * Full wrap: a hardcover first grows both trim dimensions by 0.25"; the width is the bleed
   * on both sides, two trims and the spine, the height the bleed and one trim.
   */
  function CoverDimensions(trimWidth: real, trimHeight: real, pageCount: int, paperType: string,
                           bindingType: string, dpi: int): (r: Result<WrapDimensions, KdpCalculator.KdpError>)
    ensures r.Err? <==> SpineWidth(pageCount, paperType, bindingType).Err?
    ensures r.Err? ==> r.error == SpineWidth(pageCount, paperType, bindingType).error
    ensures r.Ok? ==>
              var d := r.value;
              var grow := if bindingType == "hardcover" then 0.25 else 0.0;
              d.trimWidth == trimWidth + grow && d.trimHeight == trimHeight + grow &&
              d.spineWidthInches == SpineWidth(pageCount, paperType, bindingType).value &&
              d.coverWidthInches == 0.25 + 2.0 * d.trimWidth + d.spineWidthInches &&
              d.coverHeightInches == 0.25 + d.trimHeight &&
              d.coverWidth == Pixels(d.coverWidthInches, dpi) &&
              d.coverHeight == Pixels(d.coverHeightInches, dpi) &&
              d.spineWidth == Pixels(d.spineWidthInches, dpi) &&
              d.dpi == dpi && d.pageCount == pageCount && d.paperType == paperType &&
              d.bindingType == bindingType
  {
    match SpineWidth(pageCount, paperType, bindingType)
    case Err(e) => Err(e)
    case Ok(spine) =>
      var bleed := 0.125;
      var tw := if bindingType == "hardcover" then trimWidth + 0.25 else trimWidth;
      var th := if bindingType == "hardcover" then trimHeight + 0.25 else trimHeight;
      var w := bleed * 2.0 + tw * 2.0 + spine;
      var h := bleed * 2.0 + th;
      Ok(WrapDimensions(Pixels(w, dpi), Pixels(h, dpi), Pixels(spine, dpi), tw, th, spine, w, h,
                        dpi, pageCount, paperType, bindingType))
  }

  /**
   * Against the paperback of the same book, a hardcover wrap is 0.75" wider (0.25" of spine
   * board and 0.25" on each trim) and 0.25" taller.
   */
  lemma HardcoverGrowth(trimWidth: real, trimHeight: real, pageCount: int, paperType: string, dpi: int)
    requires KdpCalculator.SpineWidth(pageCount, paperType).Ok?
    ensures var soft := CoverDimensions(trimWidth, trimHeight, pageCount, paperType, "paperback", dpi).value;
            var hard := CoverDimensions(trimWidth, trimHeight, pageCount, paperType, "hardcover", dpi).value;
            hard.coverWidthInches == soft.coverWidthInches + 0.75 &&
            hard.coverHeightInches == soft.coverHeightInches + 0.25
  {
  }

  lemma CoverDimensionsExample()
    ensures var d := CoverDimensions(6.0, 9.0, 250, "white", "paperback", 300).value;
            d.coverWidthInches == 12.813 && d.coverHeightInches == 9.25 &&
            d.coverWidth == 3843 && d.coverHeight == 2775 && d.spineWidth == 168
  {
    SpineWidthExamples();
  }

  // ---------------------------------------------------------------- hex colours

  datatype Rgb = Rgb(r: int, g: int, b: int)

  /** Python's slice `s[i:j]` with both bounds clamped to the length. */
  function Slice(s: string, i: nat, j: nat): (r: string)
    ensures |r| <= j - i || i > j
  {
    var lo := if i <= |s| then i else |s|;
    var hi := if j <= |s| then j else |s|;
    if lo <= hi then s[lo..hi] else []
  }

  predicate AllHex(t: string)
  {
    forall i :: 0 <= i < |t| ==> IsHexDigit(t[i])
  }

  /**
   * Python `int(t, 16)` for a string of at most two characters, written out case by case:
   * surrounding whitespace is ignored, a sign may precede a single digit, and anything else
   * (nothing, a lone sign, whitespace alone) is refused.  An underscore or a "0x" prefix needs
   * more than two characters to be accepted, so neither occurs here.  Digits are the ASCII hex
   * digits only: Python also reads any Unicode decimal digit (such as '٣') as its value, which
   * this model refuses.
   */
  function ParseHexInt(chunk: string): (r: Option<int>)
    requires |chunk| <= 2
    ensures r.Some? ==> -15 <= r.value <= 255
    ensures r.Some? && r.value < 0 ==> |chunk| == 2 && chunk[0] == '-'
    ensures AllHex(chunk) && |chunk| == 2 ==> r == Some(HexValue(chunk[0]) * 16 + HexValue(chunk[1]))
    ensures |chunk| == 2 && IsSpace(chunk[0]) && IsSpace(chunk[1]) ==> r.None?
    ensures |chunk| == 0 ==> r.None?
  {
    if |chunk| == 0 then None
    else if |chunk| == 1 then
      if IsHexDigit(chunk[0]) then Some(HexValue(chunk[0])) else None
    else
      var a, b := chunk[0], chunk[1];
      if IsHexDigit(a) && IsHexDigit(b) then Some(HexValue(a) * 16 + HexValue(b))
      else if IsHexDigit(a) && IsSpace(b) then Some(HexValue(a))
      else if IsSpace(a) && IsHexDigit(b) then Some(HexValue(b))
      else if (a == '+' || a == '-') && IsHexDigit(b) then
        var v: int := HexValue(b);
        Some(if a == '-' then -v else v)
      else None
  }

  /**
   * `hex_to_rgb` as written: drop every leading '#', then parse the slices [0:2], [2:4] and
   * [4:6] with `int(…, 16)`; `None` stands for the `ValueError` Python raises.
   */
  function HexToRgb(hex: string): (r: Option<Rgb>)
    ensures r.Some? ==> -15 <= r.value.r <= 255 && -15 <= r.value.g <= 255 && -15 <= r.value.b <= 255
  {
    ParseChannels(LStripChar(hex, '#'))
  }

  /** The three channels of a text with the '#' already removed. */
  function ParseChannels(t: string): (r: Option<Rgb>)
    ensures r.Some? ==> -15 <= r.value.r <= 255 && -15 <= r.value.g <= 255 && -15 <= r.value.b <= 255
  {
    Combine(ParseHexInt(Slice(t, 0, 2)), ParseHexInt(Slice(t, 2, 4)), ParseHexInt(Slice(t, 4, 6)))
  }

  /** A colour when all three channels parsed, the error otherwise. */
  function Combine(r: Option<int>, g: Option<int>, b: Option<int>): (c: Option<Rgb>)
    ensures c.Some? <==> r.Some? && g.Some? && b.Some?
    ensures c.Some? ==> c.value == Rgb(r.value, g.value, b.value)
  {
    if r.Some? && g.Some? && b.Some? then Some(Rgb(r.value, g.value, b.value)) else None
  }

  /** The channels of a text made of three two-character pieces and a tail are those pieces. */
  lemma ChannelsOfPairs(x: string, y: string, z: string, tail: string)
    requires |x| == 2 && |y| == 2 && |z| == 2
    ensures ParseChannels(x + y + z + tail) == Combine(ParseHexInt(x), ParseHexInt(y), ParseHexInt(z))
  {
    SlicesOfPairs(x, y, z, tail);
  }

  /** The only characters printed by `'%02x'`. */
  function HexDigitChar(d: nat): (c: char)
    requires d < 16
    ensures IsHexDigit(c) && HexValue(c) == d
  {
    if d < 10 then ('0' as int + d) as char else ('a' as int + d - 10) as char
  }

  /** A channel in [0, 255] as two lower-case hex digits. */
  function HexByte(v: int): (s: string)
    requires 0 <= v <= 255
    ensures |s| == 2 && AllHex(s)
    ensures HexValue(s[0]) * 16 + HexValue(s[1]) == v
  {
    [HexDigitChar(v / 16), HexDigitChar(v % 16)]
  }

  /** The `#rrggbb` spelling of a colour whose channels are in [0, 255]. */
  function RgbToHex(c: Rgb): string
    requires 0 <= c.r <= 255 && 0 <= c.g <= 255 && 0 <= c.b <= 255
  {
    "#" + HexByte(c.r) + HexByte(c.g) + HexByte(c.b)
  }

  /** The three pairs of a text that starts with three two-character pieces. */
  lemma SlicesOfPairs(x: string, y: string, z: string, tail: string)
    requires |x| == 2 && |y| == 2 && |z| == 2
    ensures var t := x + y + z + tail;
            Slice(t, 0, 2) == x && Slice(t, 2, 4) == y && Slice(t, 4, 6) == z
  {
    var t := x + y + z + tail;
    assert t[0..2] == x;
    assert t[2..4] == y;
    assert t[4..6] == z;
  }

  /** Characters after the sixth are ignored, so in particular `#rrggbb` parses to its channels. */
  lemma HexToRgbRoundTrip(c: Rgb, tail: string)
    requires 0 <= c.r <= 255 && 0 <= c.g <= 255 && 0 <= c.b <= 255
    ensures HexToRgb(RgbToHex(c) + tail) == Some(c)
  {
    var x, y, z := HexByte(c.r), HexByte(c.g), HexByte(c.b);
    assert LStripChar(RgbToHex(c) + tail, '#') == x + y + z + tail by {
      assert RgbToHex(c) + tail == ['#'] + (x + y + z + tail);
    }
    ChannelsOfPairs(x, y, z, tail);
  }

  /** `#rrggbb` on its own parses to its channels. */
  lemma HexToRgbInverse(c: Rgb)
    requires 0 <= c.r <= 255 && 0 <= c.g <= 255 && 0 <= c.b <= 255
    ensures HexToRgb(RgbToHex(c)) == Some(c)
  {
    HexToRgbRoundTrip(c, []);
    assert RgbToHex(c) + [] == RgbToHex(c);
  }

  /** As written, a sign inside a pair is accepted: "#-1-1-1" parses to negative channels. */
  lemma HexToRgbAcceptsSigns()
    ensures HexToRgb("#-1-1-1") == Some(Rgb(-1, -1, -1))
  {
    var p := "-1";
    var t := p + p + p;
    assert "#-1-1-1" == ['#'] + t;
    assert LStripChar(['#'] + t, '#') == t by {
      assert (['#'] + t)[1..] == t && t[0] == '-';
    }
    ChannelsOfTriple(p);
    MinusOne();
  }

  /** A text made of one pair three times parses each channel from that pair. */
  lemma ChannelsOfTriple(p: string)
    requires |p| == 2
    ensures ParseChannels(p + p + p) == Combine(ParseHexInt(p), ParseHexInt(p), ParseHexInt(p))
  {
    var t := p + p + p;
    ChannelsOfLong(t);
    assert t[0..2] == p && t[2..4] == p && t[4..6] == p;
  }

  lemma MinusOne()
    ensures ParseHexInt("-1") == Some(-1)
  {
    var c := "-1";
    assert c[0] == '-' && !IsHexDigit(c[0]) && !IsSpace(c[0]) && IsHexDigit(c[1]);
  }

  /** Repeated '#' are dropped. */
  lemma HexToRgbRepeatedHash()
    ensures HexToRgb("##667eea") == Some(Rgb(102, 126, 234))
  {
    var s := "##667eea";
    StripTwoHashes(s);
    var p := s[2..][..6];
    assert p[0] == '6' && p[1] == '6' && p[2] == '7' && p[3] == 'e' && p[4] == 'e' && p[5] == 'a';
    assert AllHex(p);
    HexToRgbStrictAgrees(s);
  }

  lemma StripTwoHashes(s: string)
    requires |s| > 2 && s[0] == '#' && s[1] == '#' && s[2] != '#'
    ensures LStripChar(s, '#') == s[2..]
  {
    assert s[1..][1..] == s[2..];
  }

  /** A text of three digits lacks a third pair, which `int("", 16)` rejects. */
  lemma HexToRgbShort()
    ensures HexToRgb("#abc") == None
  {
    var s := "#abc";
    assert LStripChar(s, '#') == s[1..] by {
      assert s[0] == '#' && s[1..][0] == 'a';
    }
    assert Slice(s[1..], 4, 6) == [];
  }

  /**
   * The intended parse: each of the three pairs must be exactly two hex digits, so every
   * channel is in [0, 255].
   */
  function HexToRgbStrict(hex: string): (r: Option<Rgb>)
    ensures r.Some? ==> 0 <= r.value.r <= 255 && 0 <= r.value.g <= 255 && 0 <= r.value.b <= 255
  {
    var t := LStripChar(hex, '#');
    if |t| >= 6 && AllHex(t[..6]) then
      var p := t[..6];
      Some(Rgb(HexValue(p[0]) * 16 + HexValue(p[1]), HexValue(p[2]) * 16 + HexValue(p[3]),
               HexValue(p[4]) * 16 + HexValue(p[5])))
    else None
  }

  /** Whenever the strict parse succeeds, the parse as written gives the same colour. */
  lemma HexToRgbStrictAgrees(hex: string)
    requires HexToRgbStrict(hex).Some?
    ensures HexToRgb(hex) == HexToRgbStrict(hex)
  {
    ChannelsOfHex(LStripChar(hex, '#'));
  }

  /** Six hex digits in front: the channels are the three bytes they spell. */
  lemma ChannelsOfHex(t: string)
    requires |t| >= 6 && AllHex(t[..6])
    ensures var p := t[..6];
            ParseChannels(t) ==
              Some(Rgb(HexValue(p[0]) * 16 + HexValue(p[1]), HexValue(p[2]) * 16 + HexValue(p[3]),
                       HexValue(p[4]) * 16 + HexValue(p[5])))
  {
    assert forall k :: 0 <= k < 6 ==> t[..6][k] == t[k];
    ChannelsOfLong(t);
    HexPair(t, 0);
    HexPair(t, 2);
    HexPair(t, 4);
  }

  /** A text of six characters or more: the channels are read from its first three pairs. */
  lemma ChannelsOfLong(t: string)
    requires |t| >= 6
    ensures ParseChannels(t) == Combine(ParseHexInt(t[0..2]), ParseHexInt(t[2..4]), ParseHexInt(t[4..6]))
  {
    assert Slice(t, 0, 2) == t[0..2] && Slice(t, 2, 4) == t[2..4] && Slice(t, 4, 6) == t[4..6];
  }

  /** Two hex digits side by side parse to the byte they spell. */
  lemma HexPair(p: string, i: nat)
    requires i + 2 <= |p| && IsHexDigit(p[i]) && IsHexDigit(p[i + 1])
    ensures ParseHexInt(p[i..i + 2]) == Some(HexValue(p[i]) * 16 + HexValue(p[i + 1]))
  {
    assert p[i..i + 2] == [p[i], p[i + 1]];
  }

  /** The strict parse also inverts `RgbToHex`. */
  lemma HexToRgbStrictRoundTrip(c: Rgb)
    requires 0 <= c.r <= 255 && 0 <= c.g <= 255 && 0 <= c.b <= 255
    ensures HexToRgbStrict(RgbToHex(c)) == Some(c)
  {
    var t := HexByte(c.r) + HexByte(c.g) + HexByte(c.b);
    assert RgbToHex(c) == ['#'] + t;
    assert LStripChar(RgbToHex(c), '#') == t;
    assert t[..6] == t;
    assert t[0] == HexByte(c.r)[0] && t[1] == HexByte(c.r)[1];
    assert t[2] == HexByte(c.g)[0] && t[3] == HexByte(c.g)[1];
    assert t[4] == HexByte(c.b)[0] && t[5] == HexByte(c.b)[1];
  }

  /** The strict parse rejects the signed pairs the parse as written accepts. */
  lemma HexToRgbStrictRejectsSigns()
    ensures HexToRgbStrict("#-1-1-1") == None
  {
    assert LStripChar("#-1-1-1", '#') == "-1-1-1";
    assert !IsHexDigit("-1-1-1"[0]);
  }

  // ---------------------------------------------------------------- create_cover

  /** Canvas and font sizes of a new cover. */
  datatype CanvasSpec = CanvasSpec(width: int, height: int, dpi: int,
                                   titleSize: int, subtitleSize: int, authorSize: int)

  /** "ebook" and "hardback" have their own tables; every other type is a paperback. */
  function CanvasFor(coverType: string): (c: CanvasSpec)
    ensures coverType == "ebook" ==> c.width == EbookWidth && c.height == EbookHeight
    ensures coverType == "hardback" ==> c.width == AltHardbackWidth && c.height == AltHardbackHeight
    ensures coverType != "ebook" && coverType != "hardback" ==>
              c.width == AltPaperbackWidth && c.height == AltPaperbackHeight
    ensures c.dpi == 300 && c.titleSize > c.subtitleSize > c.authorSize > 0
  {
    if coverType == "ebook" then CanvasSpec(EbookWidth, EbookHeight, EbookDpi, 140, 100, 70)
    else if coverType == "hardback" then CanvasSpec(AltHardbackWidth, AltHardbackHeight, HardbackDpi, 200, 130, 95)
    else CanvasSpec(AltPaperbackWidth, AltPaperbackHeight, PaperbackDpi, 180, 120, 90)
  }

  datatype Background = Gradient | Solid | White

  /** The background drawn for a style: gradient, solid primary, or plain white otherwise. */
  function BackgroundFor(style: string): Background
  {
    if style == "gradient" then Gradient else if style == "solid" then Solid else White
  }

  /** Text is white on the two coloured styles and black on everything else. */
  function TextColour(style: string): (c: Rgb)
    ensures c == Rgb(255, 255, 255) <==> BackgroundFor(style) != White
    ensures c != Rgb(255, 255, 255) ==> c == Rgb(0, 0, 0)
  {
    if style == "gradient" || style == "solid" then Rgb(255, 255, 255) else Rgb(0, 0, 0)
  }

  /** Left edge that centres a run of `inner` pixels in `outer`: `(outer - inner) // 2`. */
  function CentreOffset(outer: int, inner: int): (x: int)
    ensures 0 <= (outer - inner) - 2 * x <= 1
    ensures inner <= outer ==> 0 <= x && x + inner <= outer
  {
    (outer - inner) / 2
  }

  /** Where `create_cover` puts things; text widths are measured by the font and passed in. */
  datatype CoverPlan = CoverPlan(
    canvas: CanvasSpec,
    primary: Rgb,
    secondary: Rgb,
    background: Background,
    textColour: Rgb,
    titleAt: (int, int),
    subtitleAt: Option<(int, int)>,
    authorAt: (int, int),
    rule: Option<(int, int, int)>,
    fileName: string)

  /** The `ValueError` of `hex_to_rgb`, naming the colour it could not parse. */
  datatype CoverError = BadColour(hex: string)

  /** `colors.get('primary', '#667eea')`. */
  function PrimaryHex(colours: map<string, string>): string
  {
    if "primary" in colours then colours["primary"] else "#667eea"
  }

  /** `colors.get('secondary', '#764ba2')`. */
  function SecondaryHex(colours: map<string, string>): string
  {
    if "secondary" in colours then colours["secondary"] else "#764ba2"
  }

  /** `f"{cover_type}_cover_{title.lower().replace(' ', '_')}"` plus ".jpg" or ".pdf". */
  function CoverFileName(coverType: string, title: string): (name: string)
    ensures EndsWith(name, if coverType == "ebook" then ".jpg" else ".pdf")
    ensures StartsWith(name, coverType + "_cover_")
  {
    var ext := if coverType == "ebook" then ".jpg" else ".pdf";
    var name := coverType + "_cover_" + ReplaceAll(Lower(title), " ", "_") + ext;
    assert name[..|coverType + "_cover_"|] == coverType + "_cover_";
    assert name[|name| - 4..] == ext;
    name
  }

  /**
   * The layout of `create_cover`: the title is centred a third of the way down, the subtitle
   * 200 px below it when there is one, the author 300 px above the bottom, and on a
   * non-minimalist e-book a 600 px rule 50 px above the title.
   */
  predicate LaidOut(p: CoverPlan, coverType: string, title: string, subtitle: string, style: string,
                    titleWidth: int, subtitleWidth: int, authorWidth: int)
  {
    p.canvas == CanvasFor(coverType) &&
    p.textColour == TextColour(style) && p.background == BackgroundFor(style) &&
    0 <= (p.canvas.width - titleWidth) - 2 * p.titleAt.0 <= 1 &&
    0 <= p.titleAt.1 * 3 <= p.canvas.height < p.titleAt.1 * 3 + 3 &&
    (p.subtitleAt.Some? <==> subtitle != "") &&
    (p.subtitleAt.Some? ==>
       p.subtitleAt.value.1 == p.titleAt.1 + 200 &&
       0 <= (p.canvas.width - subtitleWidth) - 2 * p.subtitleAt.value.0 <= 1) &&
    0 <= (p.canvas.width - authorWidth) - 2 * p.authorAt.0 <= 1 &&
    p.authorAt.1 == p.canvas.height - 300 &&
    (p.rule.Some? <==> coverType == "ebook" && style != "minimalist") &&
    (p.rule.Some? ==> p.rule.value.1 == p.titleAt.1 - 50 && p.rule.value.2 == 600 &&
                      0 <= p.rule.value.0 && p.rule.value.0 + 600 <= p.canvas.width) &&
    p.fileName == CoverFileName(coverType, title)
  }

  /** The plan `create_cover` draws once both colours have parsed. */
  function Layout(coverType: string, title: string, subtitle: string, style: string,
                  primary: Rgb, secondary: Rgb,
                  titleWidth: int, subtitleWidth: int, authorWidth: int): (p: CoverPlan)
    ensures p.primary == primary && p.secondary == secondary
    ensures LaidOut(p, coverType, title, subtitle, style, titleWidth, subtitleWidth, authorWidth)
  {
    var c := CanvasFor(coverType);
    var titleY := c.height / 3;
    CoverPlan(
      canvas := c,
      primary := primary,
      secondary := secondary,
      background := BackgroundFor(style),
      textColour := TextColour(style),
      titleAt := (CentreOffset(c.width, titleWidth), titleY),
      subtitleAt := if subtitle != "" then Some((CentreOffset(c.width, subtitleWidth), titleY + 200)) else None,
      authorAt := (CentreOffset(c.width, authorWidth), c.height - 300),
      rule := if coverType == "ebook" && style != "minimalist" then Some((CentreOffset(c.width, 600), titleY - 50, 600)) else None,
      fileName := CoverFileName(coverType, title))
  }

  /**
   * `create_cover`: both colours are parsed first (the primary before the secondary), and a
   * colour `hex_to_rgb` rejects ends the call whatever the style; otherwise the cover is laid
   * out with the parsed channels.
   */
  function CreateCover(coverType: string, title: string, subtitle: string, author: string,
                       style: string, colours: map<string, string>,
                       titleWidth: int, subtitleWidth: int, authorWidth: int): (r: Result<CoverPlan, CoverError>)
    ensures r.Err? <==> HexToRgb(PrimaryHex(colours)).None? || HexToRgb(SecondaryHex(colours)).None?
    ensures HexToRgb(PrimaryHex(colours)).None? ==> r == Err(BadColour(PrimaryHex(colours)))
    ensures HexToRgb(PrimaryHex(colours)).Some? && HexToRgb(SecondaryHex(colours)).None? ==>
              r == Err(BadColour(SecondaryHex(colours)))
    ensures r.Ok? ==>
              Some(r.value.primary) == HexToRgb(PrimaryHex(colours)) &&
              Some(r.value.secondary) == HexToRgb(SecondaryHex(colours)) &&
              LaidOut(r.value, coverType, title, subtitle, style, titleWidth, subtitleWidth, authorWidth)
  {
    var primary := HexToRgb(PrimaryHex(colours));
    var secondary := HexToRgb(SecondaryHex(colours));
    if primary.None? then Err(BadColour(PrimaryHex(colours)))
    else if secondary.None? then Err(BadColour(SecondaryHex(colours)))
    else Ok(Layout(coverType, title, subtitle, style, primary.value, secondary.value,
                   titleWidth, subtitleWidth, authorWidth))
  }

  /** The two default colours parse to their channels. */
  lemma DefaultColoursParse()
    ensures HexToRgb("#667eea") == Some(Rgb(102, 126, 234))
    ensures HexToRgb("#764ba2") == Some(Rgb(118, 75, 162))
  {
    DefaultPrimaryParses();
    DefaultSecondaryParses();
  }

  lemma DefaultPrimaryParses()
    ensures HexToRgb("#667eea") == Some(Rgb(102, 126, 234))
  {
    var s := "#667eea";
    assert s[1..] == ['6', '6', '7', 'e', 'e', 'a'];
    OneHash(s);
    HexToRgbStrictAgrees(s);
  }

  lemma DefaultSecondaryParses()
    ensures HexToRgb("#764ba2") == Some(Rgb(118, 75, 162))
  {
    var s := "#764ba2";
    assert s[1..] == ['7', '6', '4', 'b', 'a', '2'];
    OneHash(s);
    HexToRgbStrictAgrees(s);
  }

  /** A single leading '#' before six hex digits: the strict parse reads those digits. */
  lemma OneHash(s: string)
    requires |s| == 7 && s[0] == '#' && AllHex(s[1..])
    ensures LStripChar(s, '#') == s[1..]
    ensures HexToRgbStrict(s) ==
              Some(Rgb(HexValue(s[1]) * 16 + HexValue(s[2]), HexValue(s[3]) * 16 + HexValue(s[4]),
                       HexValue(s[5]) * 16 + HexValue(s[6])))
  {
    var t := s[1..];
    assert IsHexDigit(t[0]);
    StripOneHash(s);
    assert t[..6] == t;
  }

  /** One '#' followed by anything else is stripped alone. */
  lemma StripOneHash(s: string)
    requires |s| >= 2 && s[0] == '#' && s[1] != '#'
    ensures LStripChar(s, '#') == s[1..]
  {
    assert s[1..][0] == s[1];
  }

  /** A three-digit colour such as the AI parser can return makes `create_cover` fail. */
  lemma CreateCoverRejectsShortColour(coverType: string, title: string, subtitle: string, author: string,
                                      style: string, titleWidth: int, subtitleWidth: int, authorWidth: int)
    ensures CreateCover(coverType, title, subtitle, author, style, map["primary" := "#abc"],
                        titleWidth, subtitleWidth, authorWidth) == Err(BadColour("#abc"))
  {
    HexToRgbShort();
  }

  /** With no colours given, the defaults parse and the cover is planned. */
  lemma CreateCoverDefaults(coverType: string, title: string, subtitle: string, author: string,
                            style: string, titleWidth: int, subtitleWidth: int, authorWidth: int)
    ensures var r := CreateCover(coverType, title, subtitle, author, style, map[],
                                 titleWidth, subtitleWidth, authorWidth);
            r.Ok? && r.value.primary == Rgb(102, 126, 234) && r.value.secondary == Rgb(118, 75, 162)
  {
    DefaultColoursParse();
  }

  // ---------------------------------------------------------------- aspect fit

  /** Size and centring offsets of an image scaled into a box. */
  datatype Fit = Fit(width: int, height: int, xOffset: int, yOffset: int)

  /**
   * Aspect fit of an `iw` x `ih` image into a `bw` x `bh` box.  The source compares the
   * ratios `iw/ih > bw/bh` (for positive heights, `iw * bh > bw * ih`); a wider image is
   * fitted to the box width with height `int(bw / (iw/ih))`, otherwise to the box height with
   * width `int(bh * (iw/ih))`.  Computed exactly, those are `bw * ih / iw` and `bh * iw / ih`
   * rounded down.  A zero image height is Python's `ZeroDivisionError`.
   */
  function AspectFit(iw: nat, ih: nat, bw: nat, bh: nat): (r: Option<Fit>)
    requires bw > 0 && bh > 0
    ensures r.None? <==> ih == 0
    ensures r.Some? ==>
              var f := r.value;
              0 <= f.xOffset && f.xOffset + f.width <= bw &&
              0 <= f.yOffset && f.yOffset + f.height <= bh
    ensures r.Some? && iw * bh > bw * ih ==>
              r.value.width == bw && r.value.height * iw <= bw * ih < (r.value.height + 1) * iw
    ensures r.Some? && iw * bh <= bw * ih ==>
              r.value.height == bh && r.value.width * ih <= bh * iw < (r.value.width + 1) * ih
  {
    if ih == 0 then None
    else if iw * bh > bw * ih then
      var h := FitSide(bw, ih, iw, bh);
      Some(Fit(bw, h, CentreOffset(bw, bw), CentreOffset(bh, h)))
    else
      var w := FitSide(bh, iw, ih, bw);
      Some(Fit(w, bh, CentreOffset(bw, w), CentreOffset(bh, bh)))
  }

  /**
   * The scaled side `box * other / side`, rounded down: it fits within `limit` when
   * `box * other <= limit * side`.
   */
  function FitSide(box: nat, other: nat, side: nat, limit: nat): (n: nat)
    requires box * other <= limit * side
    ensures side > 0 ==> n * side <= box * other < (n + 1) * side
    ensures n <= limit
  {
    if side == 0 then 0
    else
      var n := box * other / side;
      DivBounds(box * other, side, limit);
      n
  }

  lemma DivBounds(a: nat, b: nat, c: nat)
    requires b > 0 && a <= c * b
    ensures (a / b) * b <= a < (a / b + 1) * b
    ensures a / b <= c
  {
    var q := a / b;
    if q > c {
      MulMono(c + 1, q, b);
    }
  }

  lemma MulMono(x: nat, y: nat, b: nat)
    requires x <= y
    ensures x * b <= y * b
  {
  }

  lemma AspectFitExample()
    ensures AspectFit(3200, 2560, 1600, 2560) == Some(Fit(1600, 1280, 0, 640))
    ensures AspectFit(800, 2560, 1600, 2560) == Some(Fit(800, 2560, 400, 0))
    ensures AspectFit(10, 0, 1600, 2560) == None
  {
  }

  // ---------------------------------------------------------------- wrap sections

  /** Where the back cover, spine and front cover of a wrap start, and their widths. */
  datatype Sections = Sections(backX: int, backWidth: int, spineX: int, spineWidth: int,
                               frontX: int, frontWidth: int)

  /** Paperback wrap of `convert_cover`: back = (W - 399) // 2, then the spine, then a front as wide as the back. */
  function PaperbackSections(width: int): (s: Sections)
    ensures s.backX == 0 && s.spineX == s.backX + s.backWidth && s.spineWidth == PaperbackSpineWidth
    ensures s.frontX == s.spineX + s.spineWidth && s.frontWidth == s.backWidth
    ensures width >= PaperbackSpineWidth ==> 0 <= s.backWidth && s.frontX + s.frontWidth <= width <= s.frontX + s.frontWidth + 1
  {
    var back := (width - PaperbackSpineWidth) / 2;
    Sections(0, back, back, PaperbackSpineWidth, back + PaperbackSpineWidth, back)
  }

  /** Hardback jacket: flap | back | spine | front | flap with covers of (W - 2*900 - 450) // 2. */
  function HardbackSections(width: int): (s: Sections)
    ensures s.backX == AltHardbackFlapWidth && s.spineX == s.backX + s.backWidth
    ensures s.spineWidth == AltHardbackSpineWidth
    ensures s.frontX == AltHardbackFlapWidth + s.backWidth + AltHardbackSpineWidth && s.frontWidth == s.backWidth
    ensures width >= 2 * AltHardbackFlapWidth + AltHardbackSpineWidth ==>
              0 <= s.backWidth &&
              s.frontX + s.frontWidth + AltHardbackFlapWidth <= width <= s.frontX + s.frontWidth + AltHardbackFlapWidth + 1
  {
    var cover := (width - 2 * AltHardbackFlapWidth - AltHardbackSpineWidth) / 2;
    Sections(AltHardbackFlapWidth, cover, AltHardbackFlapWidth + cover, AltHardbackSpineWidth,
             AltHardbackFlapWidth + cover + AltHardbackSpineWidth, cover)
  }

  /**
   * Sections used by the text overlay: the same split, except that the paperback front runs
   * to the right edge of the image.
   */
  function OverlaySections(coverType: string, width: int): (s: Sections)
    requires coverType == "paperback" || coverType == "hardback"
    ensures coverType == "paperback" ==>
              s.frontX + s.frontWidth == width && s.frontX == PaperbackSections(width).frontX
    ensures coverType == "hardback" ==> s == HardbackSections(width)
  {
    if coverType == "paperback" then
      var p := PaperbackSections(width);
      p.(frontWidth := width - p.frontX)
    else HardbackSections(width)
  }

  /** At the fixed target sizes the sections tile the canvas exactly. */
  lemma SectionsAtTargetSizes()
    ensures PaperbackSections(PaperbackWidth) == Sections(0, 2550, 2550, 399, 2949, 2550)
    ensures 2949 + 2550 == PaperbackWidth
    ensures HardbackSections(AltHardbackWidth) == Sections(900, 1200, 2100, 450, 2550, 1200)
    ensures 2550 + 1200 + 900 == AltHardbackWidth
    ensures OverlaySections("paperback", PaperbackWidth).frontWidth == 2550
  {
  }

  /** The title band on the front cover, as (top, height) for a title position. */
  function TitleBand(height: nat, position: string): (band: (int, int))
    ensures 0 <= band.0 && 0 <= band.1 && band.0 + band.1 <= height
    ensures position == "top" ==> band == (Trunc(height as real * 0.1), Trunc(height as real * 0.15))
    ensures position == "center" ==> band == (Trunc(height as real * 0.4), Trunc(height as real * 0.2))
    ensures position != "top" && position != "center" ==>
              band == (Trunc(height as real * 0.75), Trunc(height as real * 0.15))
  {
    if position == "top" then (Trunc(height as real * 0.1), Trunc(height as real * 0.15))
    else if position == "center" then (Trunc(height as real * 0.4), Trunc(height as real * 0.2))
    else (Trunc(height as real * 0.75), Trunc(height as real * 0.15))
  }

  /** The front-cover title is centred within the front section. */
  function OverlayTitleX(s: Sections, titleWidth: int): (x: int)
    ensures 0 <= (s.frontWidth - titleWidth) - 2 * (x - s.frontX) <= 1
    ensures titleWidth <= s.frontWidth ==> s.frontX <= x && x + titleWidth <= s.frontX + s.frontWidth
  {
    s.frontX + CentreOffset(s.frontWidth, titleWidth)
  }

  /** The spine line: at most 30 characters of the title, a bullet, and the author. */
  function SpineText(title: string, author: string): (t: string)
    ensures |t| == (if |title| < 30 then |title| else 30) + 5 + |author|
    ensures StartsWith(t, if |title| < 30 then title else title[..30])
    ensures EndsWith(t, "  \U{2022}  " + author)
  {
    var head := if |title| < 30 then title else title[..30];
    var t := head + "  \U{2022}  " + author;
    assert t[..|head|] == head;
    assert t[|t| - |"  \U{2022}  " + author|..] == "  \U{2022}  " + author;
    t
  }

  /** The e-book title row for a title position; `titleHeight` comes from the font. */
  function EbookTitleY(height: nat, position: string, titleHeight: int): (y: int)
    ensures position == "top" ==> y == Trunc(height as real * 0.15)
    ensures position == "center" ==> 0 <= (height - titleHeight) - 2 * y <= 1
    ensures position != "top" && position != "center" ==> y == Trunc(height as real * 0.75)
  {
    if position == "top" then Trunc(height as real * 0.15)
    else if position == "center" then CentreOffset(height, titleHeight)
    else Trunc(height as real * 0.75)
  }

  /** Canvas size and dpi that `convert_cover` resizes to. */
  function ConvertTarget(targetType: string): (t: (int, int, int))
    ensures targetType == "ebook" ==> t == (EbookWidth, EbookHeight, EbookDpi)
    ensures targetType == "hardback" ==> t == (AltHardbackWidth, AltHardbackHeight, HardbackDpi)
    ensures targetType != "ebook" && targetType != "hardback" ==> t == (PaperbackWidth, PaperbackHeight, PaperbackDpi)
  {
    if targetType == "ebook" then (EbookWidth, EbookHeight, EbookDpi)
    else if targetType == "hardback" then (AltHardbackWidth, AltHardbackHeight, HardbackDpi)
    else (PaperbackWidth, PaperbackHeight, PaperbackDpi)
  }

  // ---------------------------------------------------------------- barcode safe area

  /** A rectangle with inclusive corners, as PIL draws it. */
  datatype Rect = Rect(x1: int, y1: int, x2: int, y2: int)

  /** Bottom and side clearances: 0.76" and 0.25" on a hardback, 0.25" on both for a paperback. */
  function Clearances(coverType: string, dpi: int): (c: (int, int))
    ensures coverType == "hardback" ==> c == (Trunc(0.76 * dpi as real), Trunc(0.25 * dpi as real))
    ensures coverType != "hardback" ==> c == (Trunc(0.25 * dpi as real), Trunc(0.25 * dpi as real))
  {
    if coverType == "hardback" then (Trunc(0.76 * dpi as real), Trunc(0.25 * dpi as real))
    else (Trunc(0.25 * dpi as real), Trunc(0.25 * dpi as real))
  }

  /** Right edge of the back cover: (W - 399) // 2 for a paperback, 900 + (W - 1800 - 450) // 2 for a hardback. */
  function BackEndX(coverType: string, width: int): int
  {
    if coverType == "paperback" then (width - PaperbackSpineWidth) / 2
    else AltHardbackFlapWidth + (width - 2 * AltHardbackFlapWidth - AltHardbackSpineWidth) / 2
  }

  /**
   * The white 2.0" x 1.2" box in the lower right of the back cover, inset by the side and
   * bottom clearances.  Other cover types get no box.
   */
  function BarcodeArea(coverType: string, width: int, height: int, dpi: int): (r: Option<Rect>)
    ensures r.Some? <==> coverType == "paperback" || coverType == "hardback"
    ensures r.Some? ==>
              var (bottom, side) := Clearances(coverType, dpi);
              r.value.x2 - r.value.x1 == Trunc(2.0 * dpi as real) &&
              r.value.y2 - r.value.y1 == Trunc(1.2 * dpi as real) &&
              r.value.x2 == BackEndX(coverType, width) - side &&
              r.value.y2 == height - bottom
  {
    if coverType != "paperback" && coverType != "hardback" then None
    else
      var bw := Trunc(2.0 * dpi as real);
      var bh := Trunc(1.2 * dpi as real);
      var (bottom, side) := Clearances(coverType, dpi);
      var backEnd := BackEndX(coverType, width);
      Some(Rect(backEnd - bw - side, height - bh - bottom, backEnd - side, height - bottom))
  }

  /**
   * At the fixed target sizes and 300 dpi the box lies inside the back cover, clear of the
   * spine, and inside the canvas.
   */
  lemma BarcodeInsideBackCover()
    ensures BarcodeArea("paperback", PaperbackWidth, PaperbackHeight, 300) == Some(Rect(1875, 2940, 2475, 3300))
    ensures var s := PaperbackSections(PaperbackWidth);
            s.backX <= 1875 && 2475 < s.backX + s.backWidth == s.spineX && 3300 < PaperbackHeight
    ensures BarcodeArea("hardback", AltHardbackWidth, AltHardbackHeight, 300) == Some(Rect(1425, 2262, 2025, 2622))
    ensures var s := HardbackSections(AltHardbackWidth);
            s.backX <= 1425 && 2025 < s.backX + s.backWidth == s.spineX && 2622 < AltHardbackHeight
    ensures BarcodeArea("ebook", EbookWidth, EbookHeight, 300).None?
  {
  }

  /**
   * For any canvas whose back cover is at least as wide as the box plus its side clearance,
   * and any dpi of 4 or more, the box starts inside the back cover and ends before the spine.
   */
  lemma BarcodeClearOfSpine(coverType: string, width: int, height: int, dpi: int)
    requires coverType == "paperback" || coverType == "hardback"
    requires dpi >= 4
    requires var s := if coverType == "paperback" then PaperbackSections(width) else HardbackSections(width);
             s.backWidth >= Trunc(2.0 * dpi as real) + Trunc(0.25 * dpi as real)
    ensures var s := if coverType == "paperback" then PaperbackSections(width) else HardbackSections(width);
            var r := BarcodeArea(coverType, width, height, dpi).value;
            s.backX <= r.x1 && r.x2 < s.spineX && r.y2 < height
  {
  }
}
