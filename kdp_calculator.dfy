/**
 * Amazon KDP print geometry: spine width per paper type, the gutter breakpoint table,
 * full-wrap cover dimensions with bleed, manuscript margins, the trim-size catalogue and
 * page-count validation.  Inches are exact reals; pixel counts truncate like Python `int()`.
 */
module KdpCalculator {
  import opened Wrappers
  import opened PyNum

  const BleedSize: real := 0.125
  const MinPageCount: int := 24
  const MaxPageCount: int := 828
  const EbookDpi: int := 72
  const PrintDpi: int := 300

  /** The two `ValueError`s the calculator raises. */
  datatype KdpError =
    | PageCountOutOfRange(pageCount: int)
    | InvalidPaperType(paperType: string)

  /** Thickness per page of each known paper type, in inches. */
  function SpineCoefficient(paperType: string): (r: Option<real>)
    ensures r.Some? ==> r.value > 0.0
  {
    if paperType == "white" then Some(0.002252)
    else if paperType == "cream" then Some(0.0025)
    else if paperType == "color" then Some(0.002347)
    else if paperType == "standard_color" then Some(0.002252)
    else None
  }

  predicate InPageRange(pageCount: int)
  {
    MinPageCount <= pageCount <= MaxPageCount
  }

  /**
   * Spine width: the page count times the paper's per-page thickness, rounded to three
   * decimals.  The range check comes first, so an out-of-range count with an unknown paper
   * reports the range.
   */
  function SpineWidth(pageCount: int, paperType: string): (r: Result<real, KdpError>)
    ensures !InPageRange(pageCount) ==> r == Err(PageCountOutOfRange(pageCount))
    ensures InPageRange(pageCount) && SpineCoefficient(paperType).None? ==>
              r == Err(InvalidPaperType(paperType))
    ensures r.Ok? <==> InPageRange(pageCount) && SpineCoefficient(paperType).Some?
    ensures r.Ok? ==> r.value == Round3(pageCount as real * SpineCoefficient(paperType).value)
  {
    if !InPageRange(pageCount) then Err(PageCountOutOfRange(pageCount))
    else match SpineCoefficient(paperType)
      case None => Err(InvalidPaperType(paperType))
      case Some(t) => Ok(Round3(pageCount as real * t))
  }

  /** A spine width is within half a thousandth of the exact thickness and has three decimals at most. */
  lemma SpineWidthRounding(pageCount: int, paperType: string)
    requires SpineWidth(pageCount, paperType).Ok?
    ensures var w := SpineWidth(pageCount, paperType).value;
            var exact := pageCount as real * SpineCoefficient(paperType).value;
            -0.0005 <= w - exact <= 0.0005 && (w * 1000.0).Floor as real == w * 1000.0
  {
  }

  /** More pages never give a thinner spine on the same paper. */
  lemma SpineWidthMonotone(p1: int, p2: int, paperType: string)
    requires InPageRange(p1) && InPageRange(p2) && p1 <= p2
    requires SpineCoefficient(paperType).Some?
    ensures SpineWidth(p1, paperType).value <= SpineWidth(p2, paperType).value
  {
    var t := SpineCoefficient(paperType).value;
    ScaleMonotone(p1 as real, p2 as real, t);
    Round3Monotone(p1 as real * t, p2 as real * t);
  }

  lemma ScaleMonotone(a: real, b: real, t: real)
    requires a <= b && 0.0 <= t
    ensures a * t <= b * t
  {
    assert b * t - a * t == (b - a) * t;
  }

  /** The published examples: 250 white, 300 cream, 200 color and 150 standard color pages. */
  lemma SpineWidthExamples()
    ensures SpineWidth(250, "white") == Ok(0.563)
    ensures SpineWidth(300, "cream") == Ok(0.75)
    ensures SpineWidth(200, "color") == Ok(0.469)
    ensures SpineWidth(150, "standard_color") == Ok(0.338)
    ensures SpineWidth(20, "white") == Err(PageCountOutOfRange(20))
    ensures SpineWidth(100, "glossy") == Err(InvalidPaperType("glossy"))
  {
    assert RoundHalfEven(250.0 * 0.002252 * 1000.0) == 563;
    assert RoundHalfEven(300.0 * 0.0025 * 1000.0) == 750;
    assert RoundHalfEven(200.0 * 0.002347 * 1000.0) == 469;
    assert RoundHalfEven(150.0 * 0.002252 * 1000.0) == 338;
  }

  /** One row of the gutter table: the inclusive page range and its gutter in inches. */
  datatype GutterRow = GutterRow(minPages: int, maxPages: int, gutter: real)

  const GutterMargins: seq<GutterRow> := [
    GutterRow(24, 150, 0.375),
    GutterRow(151, 300, 0.5),
    GutterRow(301, 500, 0.625),
    GutterRow(501, 700, 0.75),
    GutterRow(701, 828, 0.875)
  ]

  predicate RowCovers(row: GutterRow, pageCount: int)
  {
    row.minPages <= pageCount <= row.maxPages
  }

  /** The scan over the table that returns at the first row covering the page count. */
  function FirstGutter(rows: seq<GutterRow>, pageCount: int): (r: Option<real>)
    ensures r.Some? <==> exists i :: 0 <= i < |rows| && RowCovers(rows[i], pageCount)
    ensures r.Some? ==> exists i :: 0 <= i < |rows| && RowCovers(rows[i], pageCount) &&
                          r.value == rows[i].gutter &&
                          forall j :: 0 <= j < i ==> !RowCovers(rows[j], pageCount)
  {
    if rows == [] then None
    else if RowCovers(rows[0], pageCount) then Some(rows[0].gutter)
    else
      var rest := FirstGutter(rows[1..], pageCount);
      assert forall i :: 1 <= i < |rows| ==> rows[i] == rows[1..][i - 1];
      rest
  }

  /** The rows of the table are contiguous, in ascending order, and span exactly [24, 828]. */
  lemma GutterTablePartition()
    ensures GutterMargins[0].minPages == MinPageCount
    ensures GutterMargins[|GutterMargins| - 1].maxPages == MaxPageCount
    ensures forall i :: 0 <= i < |GutterMargins| ==>
              GutterMargins[i].minPages <= GutterMargins[i].maxPages
    ensures forall i :: 0 <= i < |GutterMargins| - 1 ==>
              GutterMargins[i].maxPages + 1 == GutterMargins[i + 1].minPages &&
              GutterMargins[i].gutter < GutterMargins[i + 1].gutter
  {
  }

  /** Every page count in range is covered by exactly one row. */
  lemma GutterRowUnique(pageCount: int)
    requires InPageRange(pageCount)
    ensures exists i :: 0 <= i < |GutterMargins| && RowCovers(GutterMargins[i], pageCount)
    ensures forall i, j :: (0 <= i < |GutterMargins| && 0 <= j < |GutterMargins| &&
              RowCovers(GutterMargins[i], pageCount) && RowCovers(GutterMargins[j], pageCount)) ==> i == j
  {
    GutterTablePartition();
    if pageCount <= 150 { assert RowCovers(GutterMargins[0], pageCount); }
    else if pageCount <= 300 { assert RowCovers(GutterMargins[1], pageCount); }
    else if pageCount <= 500 { assert RowCovers(GutterMargins[2], pageCount); }
    else if pageCount <= 700 { assert RowCovers(GutterMargins[3], pageCount); }
    else { assert RowCovers(GutterMargins[4], pageCount); }
  }

  /**
   * Recommended gutter: the value of the row covering the page count.  The fallback of
   * 0.875 after the scan is unreachable because the rows cover the whole range.
   */
  function GutterMargin(pageCount: int): (r: Result<real, KdpError>)
    ensures !InPageRange(pageCount) ==> r == Err(PageCountOutOfRange(pageCount))
    ensures InPageRange(pageCount) ==>
              (r.Ok? && exists i :: 0 <= i < |GutterMargins| && RowCovers(GutterMargins[i], pageCount) &&
                                    r.value == GutterMargins[i].gutter)
  {
    if !InPageRange(pageCount) then Err(PageCountOutOfRange(pageCount))
    else
      GutterRowUnique(pageCount);
      match FirstGutter(GutterMargins, pageCount)
      case Some(g) => Ok(g)
      case None => Ok(0.875)
  }

  /** The gutter as a step function of the page count, read off the table. */
  lemma GutterMarginSteps(pageCount: int)
    requires InPageRange(pageCount)
    ensures GutterMargin(pageCount) == Ok(
              if pageCount <= 150 then 0.375
              else if pageCount <= 300 then 0.5
              else if pageCount <= 500 then 0.625
              else if pageCount <= 700 then 0.75
              else 0.875)
  {
    GutterRowUnique(pageCount);
  }

  /** The gutter never shrinks as the page count grows. */
  lemma GutterMarginMonotone(p1: int, p2: int)
    requires InPageRange(p1) && InPageRange(p2) && p1 <= p2
    ensures GutterMargin(p1).value <= GutterMargin(p2).value
  {
    GutterMarginSteps(p1);
    GutterMarginSteps(p2);
  }

  lemma GutterMarginExamples()
    ensures GutterMargin(100) == Ok(0.375)
    ensures GutterMargin(200) == Ok(0.5)
    ensures GutterMargin(400) == Ok(0.625)
    ensures GutterMargin(600) == Ok(0.75)
    ensures GutterMargin(800) == Ok(0.875)
    ensures GutterMargin(829) == Err(PageCountOutOfRange(829))
  {
    GutterMarginSteps(100);
    GutterMarginSteps(200);
    GutterMarginSteps(400);
    GutterMarginSteps(600);
    GutterMarginSteps(800);
  }

  /** The spine width already has three decimals, so rounding it again changes nothing. */
  lemma SpineWidthIsRounded(pageCount: int, paperType: string)
    requires SpineWidth(pageCount, paperType).Ok?
    ensures Round3(SpineWidth(pageCount, paperType).value) == SpineWidth(pageCount, paperType).value
  {
    var spine := SpineWidth(pageCount, paperType).value;
    var k := (spine * 1000.0).Floor;
    assert spine == k as real / 1000.0;
    Round3Exact(k);
  }

  /** Python `int(inches * dpi)`: a pixel count truncated toward zero. */
  function Pixels(inches: real, dpi: int): int
  {
    Trunc(inches * dpi as real)
  }

  /** The calculator's result record for a full cover. */
  datatype CoverDimensions = CoverDimensions(
    widthInches: real,
    heightInches: real,
    widthPixels: int,
    heightPixels: int,
    spineWidthInches: real,
    spineWidthPixels: int,
    bleedInches: real,
    dpi: int)

  /**
   * Full-wrap cover: back + spine + front plus 0.125" bleed on each side, 1.5" of case wrap
   * per side for "hardback" (any other cover type is a paperback).  Pixel counts truncate
   * the unrounded inch values; the inch fields are rounded to three decimals.
   */
  function CoverDimensionsFor(trimWidth: real, trimHeight: real, pageCount: int, paperType: string,
                              coverType: string, dpi: int): (r: Result<CoverDimensions, KdpError>)
    ensures r.Err? <==> SpineWidth(pageCount, paperType).Err?
    ensures r.Err? ==> r.error == SpineWidth(pageCount, paperType).error
    ensures r.Ok? ==>
              var spine := SpineWidth(pageCount, paperType).value;
              var width := CoverWidth(trimWidth, spine, coverType);
              var height := trimHeight + 2.0 * BleedSize;
              r.value.widthPixels == Pixels(width, dpi) &&
              r.value.heightPixels == Pixels(height, dpi) &&
              r.value.spineWidthPixels == Pixels(spine, dpi) &&
              r.value.widthInches == Round3(width) && r.value.heightInches == Round3(height) &&
              r.value.spineWidthInches == spine &&
              r.value.bleedInches == BleedSize && r.value.dpi == dpi
  {
    match SpineWidth(pageCount, paperType)
    case Err(e) => Err(e)
    case Ok(spine) =>
      var coverWidth := CoverWidth(trimWidth, spine, coverType);
      var coverHeight := trimHeight + 2.0 * BleedSize;
      SpineWidthIsRounded(pageCount, paperType);
      Ok(CoverDimensions(
        widthInches := Round3(coverWidth),
        heightInches := Round3(coverHeight),
        widthPixels := Pixels(coverWidth, dpi),
        heightPixels := Pixels(coverHeight, dpi),
        spineWidthInches := Round3(spine),
        spineWidthPixels := Pixels(spine, dpi),
        bleedInches := BleedSize,
        dpi := dpi))
  }

  /**
   * Unrounded cover width: both covers, the spine and the bleed on each side; a hardback adds
   * 1.5" of case wrap to each cover.
   */
  function CoverWidth(trimWidth: real, spine: real, coverType: string): (w: real)
    ensures coverType == "hardback" ==> w == 2.0 * trimWidth + spine + 0.25 + 3.0
    ensures coverType != "hardback" ==> w == 2.0 * trimWidth + spine + 0.25
  {
    if coverType == "hardback" then 2.0 * (trimWidth + 1.5) + spine + 2.0 * BleedSize
    else 2.0 * trimWidth + spine + 2.0 * BleedSize
  }

  /** A hardback is exactly 3" wider than the paperback of the same book; the height is shared. */
  lemma HardbackWiderByCaseWrap(trimWidth: real, trimHeight: real, pageCount: int, paperType: string, dpi: int)
    requires SpineWidth(pageCount, paperType).Ok?
    ensures var soft := CoverDimensionsFor(trimWidth, trimHeight, pageCount, paperType, "paperback", dpi).value;
            var hard := CoverDimensionsFor(trimWidth, trimHeight, pageCount, paperType, "hardback", dpi).value;
            hard.heightInches == soft.heightInches && hard.heightPixels == soft.heightPixels &&
            hard.spineWidthInches == soft.spineWidthInches && hard.spineWidthPixels == soft.spineWidthPixels &&
            hard.widthInches == soft.widthInches + 3.0
  {
    var spine := SpineWidth(pageCount, paperType).value;
    Round3ShiftWhole(CoverWidth(trimWidth, spine, "paperback"), 3);
  }

  /** 6" x 9" with 250 pages of white paper at 300 dpi. */
  lemma CoverDimensionsExample()
    ensures CoverDimensionsFor(6.0, 9.0, 250, "white", "paperback", 300) ==
              Ok(CoverDimensions(12.813, 9.25, 3843, 2775, 0.563, 168, 0.125, 300))
    ensures CoverDimensionsFor(6.0, 9.0, 250, "white", "hardback", 300) ==
              Ok(CoverDimensions(15.813, 9.25, 4743, 2775, 0.563, 168, 0.125, 300))
  {
    SpineWidthExamples();
    Round3Exact(12813);
    Round3Exact(15813);
    Round3Exact(9250);
    Round3Exact(563);
  }

  /** The manuscript margins record; the bleed is always the standard 0.125". */
  datatype ManuscriptMargins = ManuscriptMargins(top: real, bottom: real, outside: real, gutter: real, bleed: real)

  /** The documented default for top, bottom and outside margins. */
  const DefaultMargin: real := 0.75

  /**
   * Manuscript margins: a custom gutter is used verbatim (and the page count is then not
   * checked); otherwise the gutter comes from the table and an out-of-range count fails.
   */
  function ManuscriptMarginsFor(pageCount: int, top: real, bottom: real, outside: real,
                                customGutter: Option<real>): (r: Result<ManuscriptMargins, KdpError>)
    ensures customGutter.Some? ==> r == Ok(ManuscriptMargins(top, bottom, outside, customGutter.value, BleedSize))
    ensures customGutter.None? ==>
              (r.Ok? <==> InPageRange(pageCount)) &&
              (r.Ok? ==> r.value.gutter == GutterMargin(pageCount).value &&
                         r.value.top == top && r.value.bottom == bottom &&
                         r.value.outside == outside && r.value.bleed == BleedSize) &&
              (r.Err? ==> r.error == PageCountOutOfRange(pageCount))
  {
    if customGutter.Some? then Ok(ManuscriptMargins(top, bottom, outside, customGutter.value, BleedSize))
    else match GutterMargin(pageCount)
      case Err(e) => Err(e)
      case Ok(g) => Ok(ManuscriptMargins(top, bottom, outside, g, BleedSize))
  }

  lemma ManuscriptMarginsExample()
    ensures ManuscriptMarginsFor(250, DefaultMargin, DefaultMargin, DefaultMargin, None) ==
              Ok(ManuscriptMargins(0.75, 0.75, 0.75, 0.5, 0.125))
    ensures ManuscriptMarginsFor(250, DefaultMargin, DefaultMargin, DefaultMargin, Some(0.625)).value.gutter == 0.625
    ensures ManuscriptMarginsFor(5, DefaultMargin, DefaultMargin, DefaultMargin, Some(0.625)).Ok?
  {
    GutterMarginExamples();
    GutterRowUnique(250);
  }

  /** One entry of the trim-size catalogue. */
  datatype TrimSize = TrimSize(name: string, width: real, height: real, interior: string, maxPages: int)

  /** The catalogue, in declaration order. */
  const TrimSizes: seq<TrimSize> := [
    TrimSize("5x8", 5.0, 8.0, "bw", 828),
    TrimSize("5.06x7.81", 5.06, 7.81, "bw", 828),
    TrimSize("5.25x8", 5.25, 8.0, "bw", 828),
    TrimSize("5.5x8.5", 5.5, 8.5, "bw", 828),
    TrimSize("6x9", 6.0, 9.0, "bw", 828),
    TrimSize("6.14x9.21", 6.14, 9.21, "bw", 828),
    TrimSize("6.69x9.61", 6.69, 9.61, "bw", 828),
    TrimSize("7x10", 7.0, 10.0, "bw", 828),
    TrimSize("7.44x9.69", 7.44, 9.69, "bw", 828),
    TrimSize("7.5x9.25", 7.5, 9.25, "bw", 828),
    TrimSize("8x10", 8.0, 10.0, "bw", 828),
    TrimSize("8.25x6", 8.25, 6.0, "bw", 828),
    TrimSize("8.25x8.25", 8.25, 8.25, "bw", 828),
    TrimSize("8.5x11", 8.5, 11.0, "bw", 828),
    TrimSize("6x9_color", 6.0, 9.0, "color", 828),
    TrimSize("7x10_color", 7.0, 10.0, "color", 828),
    TrimSize("8x10_color", 8.0, 10.0, "color", 828),
    TrimSize("8.5x11_color", 8.5, 11.0, "color", 828)
  ]

  function Abs(x: real): real
  {
    if x < 0.0 then -x else x
  }

  /** Both dimensions lie strictly within 0.01" of the entry's. */
  predicate Matches(t: TrimSize, width: real, height: real)
  {
    Abs(t.width - width) < 0.01 && Abs(t.height - height) < 0.01
  }

  /** The scan over the catalogue from entry `i` on that returns the first match's name. */
  function FirstMatchFrom(sizes: seq<TrimSize>, i: nat, width: real, height: real): Option<string>
    decreases |sizes| - i
  {
    if i >= |sizes| then None
    else if Matches(sizes[i], width, height) then Some(sizes[i].name)
    else FirstMatchFrom(sizes, i + 1, width, height)
  }

  lemma {:induction false} FirstMatchFromIsFirst(sizes: seq<TrimSize>, i: nat, width: real, height: real)
    ensures var r := FirstMatchFrom(sizes, i, width, height);
            (r.None? <==> forall k :: i <= k < |sizes| ==> !Matches(sizes[k], width, height)) &&
            (r.Some? ==> exists k :: i <= k < |sizes| && Matches(sizes[k], width, height) &&
                           sizes[k].name == r.value &&
                           forall j :: i <= j < k ==> !Matches(sizes[j], width, height))
    decreases |sizes| - i
  {
    if i < |sizes| && !Matches(sizes[i], width, height) {
      FirstMatchFromIsFirst(sizes, i + 1, width, height);
    }
  }

  /** `(True, name)` for the first catalogue entry within tolerance, else `(False, None)`. */
  function ValidateTrimSize(width: real, height: real): (r: (bool, Option<string>))
    ensures r.0 <==> r.1.Some?
    ensures r.1.None? <==> forall i :: 0 <= i < |TrimSizes| ==> !Matches(TrimSizes[i], width, height)
    ensures r.1.Some? ==> exists i :: 0 <= i < |TrimSizes| && Matches(TrimSizes[i], width, height) &&
                            TrimSizes[i].name == r.1.value &&
                            forall j :: 0 <= j < i ==> !Matches(TrimSizes[j], width, height)
  {
    FirstMatchFromIsFirst(TrimSizes, 0, width, height);
    var m := FirstMatchFrom(TrimSizes, 0, width, height);
    (m.Some?, m)
  }

  /** The black-and-white entry is declared first, so 6 x 9 never reports "6x9_color". */
  lemma ValidateTrimSizeSixByNine()
    ensures ValidateTrimSize(6.0, 9.0) == (true, Some("6x9"))
    ensures ValidateTrimSize(6.005, 8.995) == (true, Some("6x9"))
  {
    assert FirstMatchFrom(TrimSizes, 2, 6.0, 9.0) == Some("6x9");
    assert FirstMatchFrom(TrimSizes, 2, 6.005, 8.995) == Some("6x9");
  }

  lemma ValidateTrimSizeExamples()
    ensures ValidateTrimSize(5.0, 8.0) == (true, Some("5x8"))
    ensures ValidateTrimSize(7.0, 10.0) == (true, Some("7x10"))
    ensures ValidateTrimSize(8.5, 11.0) == (true, Some("8.5x11"))
  {
    assert FirstMatchFrom(TrimSizes, 0, 5.0, 8.0) == Some("5x8");
    assert FirstMatchFrom(TrimSizes, 6, 7.0, 10.0) == Some("7x10");
    assert FirstMatchFrom(TrimSizes, 2, 7.0, 10.0) == Some("7x10");
    assert FirstMatchFrom(TrimSizes, 12, 8.5, 11.0) == Some("8.5x11");
    assert FirstMatchFrom(TrimSizes, 8, 8.5, 11.0) == Some("8.5x11");
    assert FirstMatchFrom(TrimSizes, 4, 8.5, 11.0) == Some("8.5x11");
    assert FirstMatchFrom(TrimSizes, 2, 8.5, 11.0) == Some("8.5x11");
  }

  /**
   * 5.5 x 7 is not a catalogue size, and 6.02 x 9 is too far from 6 x 9 (its width differs
   * by 0.02, which is also more than 0.01 in binary floating point).
   */
  lemma ValidateTrimSizeRejects()
    ensures ValidateTrimSize(5.5, 7.0) == (false, None)
    ensures ValidateTrimSize(6.02, 9.0) == (false, None)
  {
    NoEntryIsSevenHigh();
    NoEntryNearSixPointZeroTwo();
  }

  lemma NoEntryIsSevenHigh()
    ensures forall i :: 0 <= i < |TrimSizes| ==> !Matches(TrimSizes[i], 5.5, 7.0)
  {
    forall i | 0 <= i < |TrimSizes| ensures TrimSizes[i].height == 6.0 || TrimSizes[i].height >= 7.81 {
    }
  }

  lemma NoEntryNearSixPointZeroTwo()
    ensures forall i :: 0 <= i < |TrimSizes| ==> !Matches(TrimSizes[i], 6.02, 9.0)
  {
    forall i | 0 <= i < |TrimSizes| ensures TrimSizes[i].width <= 6.0 || TrimSizes[i].width >= 6.14 {
    }
  }

  /** Catalogue lookup by name (Python `dict.get`). */
  function TrimSizeInfo(name: string): (r: Option<TrimSize>)
    ensures r.Some? <==> exists i :: 0 <= i < |TrimSizes| && TrimSizes[i].name == name
    ensures r.Some? ==> r.value in TrimSizes && r.value.name == name
  {
    FindByName(TrimSizes, name)
  }

  function FindByName(sizes: seq<TrimSize>, name: string): (r: Option<TrimSize>)
    ensures r.Some? <==> exists i :: 0 <= i < |sizes| && sizes[i].name == name
    ensures r.Some? ==> r.value in sizes && r.value.name == name
  {
    if sizes == [] then None
    else if sizes[0].name == name then Some(sizes[0])
    else
      assert forall i :: 1 <= i < |sizes| ==> sizes[i] == sizes[1..][i - 1];
      FindByName(sizes[1..], name)
  }

  /** The catalogue has no duplicate names, so lookup by name is unambiguous. */
  lemma TrimSizeNamesUnique()
    ensures forall i, j :: 0 <= i < j < |TrimSizes| ==> TrimSizes[i].name != TrimSizes[j].name
  {
  }

  /** Entries of one interior type, in catalogue order. */
  function FilterInterior(sizes: seq<TrimSize>, interior: string): (r: seq<TrimSize>)
    ensures forall t :: t in r <==> t in sizes && t.interior == interior
    ensures |r| <= |sizes|
  {
    if sizes == [] then []
    else if sizes[0].interior == interior then [sizes[0]] + FilterInterior(sizes[1..], interior)
    else FilterInterior(sizes[1..], interior)
  }

  /** Filtering a concatenation filters each part, so catalogue order is kept. */
  lemma {:induction false} FilterInteriorAppend(a: seq<TrimSize>, b: seq<TrimSize>, interior: string)
    ensures FilterInterior(a + b, interior) == FilterInterior(a, interior) + FilterInterior(b, interior)
    decreases |a|
  {
    if a == [] {
      assert a + b == b;
    } else {
      assert (a + b)[1..] == a[1..] + b;
      FilterInteriorAppend(a[1..], b, interior);
    }
  }

  /** A run of entries all of the type is kept whole. */
  lemma {:induction false} FilterInteriorAll(sizes: seq<TrimSize>, interior: string)
    requires forall t :: t in sizes ==> t.interior == interior
    ensures FilterInterior(sizes, interior) == sizes
    decreases |sizes|
  {
    if sizes != [] {
      FilterInteriorAll(sizes[1..], interior);
    }
  }

  /** A run of entries none of the type is dropped whole. */
  lemma {:induction false} FilterInteriorNone(sizes: seq<TrimSize>, interior: string)
    requires forall t :: t in sizes ==> t.interior != interior
    ensures FilterInterior(sizes, interior) == []
    decreases |sizes|
  {
    if sizes != [] {
      FilterInteriorNone(sizes[1..], interior);
    }
  }

  /** The fourteen black-and-white entries, as the catalogue lists them first. */
  const BlackAndWhiteSizes: seq<TrimSize> := TrimSizes[..14]

  /** The four colour entries, listed last. */
  const ColourSizes: seq<TrimSize> := TrimSizes[14..]

  lemma CatalogueHalves()
    ensures TrimSizes == BlackAndWhiteSizes + ColourSizes
    ensures forall t :: t in BlackAndWhiteSizes ==> t.interior == "bw"
    ensures forall t :: t in ColourSizes ==> t.interior == "color"
  {
    assert TrimSizes == TrimSizes[..14] + TrimSizes[14..];
  }

  /** Of a run of one type followed by a run of others, filtering keeps exactly the first run. */
  lemma FilterFirstRun(a: seq<TrimSize>, b: seq<TrimSize>, interior: string)
    requires forall t :: t in a ==> t.interior == interior
    requires forall t :: t in b ==> t.interior != interior
    ensures FilterInterior(a + b, interior) == a
  {
    FilterInteriorAppend(a, b, interior);
    FilterInteriorAll(a, interior);
    FilterInteriorNone(b, interior);
  }

  /** Of a run of others followed by a run of one type, filtering keeps exactly the second run. */
  lemma FilterSecondRun(a: seq<TrimSize>, b: seq<TrimSize>, interior: string)
    requires forall t :: t in a ==> t.interior != interior
    requires forall t :: t in b ==> t.interior == interior
    ensures FilterInterior(a + b, interior) == b
  {
    FilterInteriorAppend(a, b, interior);
    FilterInteriorNone(a, interior);
    FilterInteriorAll(b, interior);
  }

  /** Of two runs with none of a type, filtering keeps nothing. */
  lemma FilterNeitherRun(a: seq<TrimSize>, b: seq<TrimSize>, interior: string)
    requires forall t :: t in a ==> t.interior != interior
    requires forall t :: t in b ==> t.interior != interior
    ensures FilterInterior(a + b, interior) == []
  {
    FilterInteriorAppend(a, b, interior);
    FilterInteriorNone(a, interior);
    FilterInteriorNone(b, interior);
  }

  lemma BlackAndWhiteListed()
    ensures FilterInterior(TrimSizes, "bw") == BlackAndWhiteSizes
  {
    CatalogueHalves();
    FilterFirstRun(BlackAndWhiteSizes, ColourSizes, "bw");
  }

  lemma ColourListed()
    ensures FilterInterior(TrimSizes, "color") == ColourSizes
  {
    CatalogueHalves();
    FilterSecondRun(BlackAndWhiteSizes, ColourSizes, "color");
  }

  lemma NothingElseListed(t: string)
    requires t != "bw" && t != "color"
    ensures FilterInterior(TrimSizes, t) == []
  {
    CatalogueHalves();
    FilterNeitherRun(BlackAndWhiteSizes, ColourSizes, t);
  }

  /** All sizes when no interior type is given, otherwise exactly those of that type. */
  function ListTrimSizes(interior: Option<string>): (r: seq<TrimSize>)
    ensures interior.None? ==> r == TrimSizes
    ensures interior.Some? ==> forall t :: t in r <==> t in TrimSizes && t.interior == interior.value
  {
    if interior.None? then TrimSizes else FilterInterior(TrimSizes, interior.value)
  }

  /** Listing the black-and-white interior gives its fourteen entries in catalogue order. */
  lemma ListTrimSizesBlackAndWhite()
    ensures ListTrimSizes(Some("bw")) == BlackAndWhiteSizes
  {
    BlackAndWhiteListed();
  }

  /** Listing the colour interior gives its four entries in catalogue order. */
  lemma ListTrimSizesColour()
    ensures ListTrimSizes(Some("color")) == ColourSizes
  {
    ColourListed();
  }

  /** Any other interior type lists nothing. */
  lemma ListTrimSizesOther(interior: string)
    requires interior != "bw" && interior != "color"
    ensures ListTrimSizes(Some(interior)) == []
  {
    NothingElseListed(interior);
  }

  const TooLowMessage: string := "Page count too low. Minimum: 24 pages"
  const TooHighMessage: string := "Page count too high. Maximum: 828 pages"
  const OddMessage: string := "Page count must be even (books are printed in signatures)"

  /** Checks, in order, the minimum, the maximum and evenness; the first failure is reported. */
  function ValidatePageCount(pageCount: int): (r: (bool, Option<string>))
    ensures r.0 <==> InPageRange(pageCount) && pageCount % 2 == 0
    ensures r.0 <==> r.1.None?
    ensures pageCount < MinPageCount ==> r.1 == Some(TooLowMessage)
    ensures pageCount > MaxPageCount ==> r.1 == Some(TooHighMessage)
    ensures InPageRange(pageCount) && pageCount % 2 != 0 ==> r.1 == Some(OddMessage)
  {
    if pageCount < MinPageCount then (false, Some(TooLowMessage))
    else if pageCount > MaxPageCount then (false, Some(TooHighMessage))
    else if pageCount % 2 != 0 then (false, Some(OddMessage))
    else (true, None)
  }

  /** A count that is both too low and odd reports "too low"; the ordering matters. */
  lemma ValidatePageCountExamples()
    ensures ValidatePageCount(250) == (true, None)
    ensures ValidatePageCount(21) == (false, Some(TooLowMessage))
    ensures ValidatePageCount(901) == (false, Some(TooHighMessage))
    ensures ValidatePageCount(251) == (false, Some(OddMessage))
  {
  }
}
