/**
 * The stand-alone cover script: its own spine table (per-page thickness, default for unknown
 * paper, no bounds and no rounding), the paperback wrap geometry at 300 dpi, the vertical
 * offset of the spine text, the row-by-row colour gradient and the placement of the back
 * cover's lines.
 */
module GenerateCovers {
  import opened PyNum
  import opened PyStr
  import CoverGenerator

  /** Per-page thickness by lower-cased paper type; any other type counts as white paper. */
  function Thickness(paperType: string): (t: real)
    ensures Lower(paperType) == "cream" ==> t == 0.0027
    ensures Lower(paperType) != "cream" ==> t == 0.0025
  {
    var p := Lower(paperType);
    if p == "white" then 0.0025
    else if p == "cream" then 0.0027
    else if p == "color" then 0.0025
    else 0.0025
  }

  /** The script's spine width: pages times thickness, plus 0.25" of board for "hardcover". */
  function SpineWidth(pageCount: int, paperType: string, bindingType: string): (w: real)
    ensures pageCount >= 0 ==> w >= (if bindingType == "hardcover" then 0.25 else 0.0)
    ensures pageCount < 0 && bindingType != "hardcover" ==> w < 0.0
  {
    pageCount as real * Thickness(paperType) + (if bindingType == "hardcover" then 0.25 else 0.0)
  }

  /**
   * The width grows by exactly one page's thickness per page, whatever the count (no bounds
   * check), and the binding only adds the constant board.
   */
  lemma SpineWidthLinear(p: int, q: int, paperType: string, bindingType: string)
    ensures SpineWidth(q, paperType, bindingType) - SpineWidth(p, paperType, bindingType)
            == (q - p) as real * Thickness(paperType)
    ensures SpineWidth(p, paperType, "hardcover") - SpineWidth(p, paperType, "paperback") == 0.25
  {
    if Lower(paperType) == "cream" {
      assert q as real * 0.0027 - p as real * 0.0027 == (q - p) as real * 0.0027;
    } else {
      assert q as real * 0.0025 - p as real * 0.0025 == (q - p) as real * 0.0025;
    }
  }

  /** More pages always give a strictly wider spine. */
  lemma SpineWidthStrictlyIncreasing(p: int, q: int, paperType: string, bindingType: string)
    requires p < q
    ensures SpineWidth(p, paperType, bindingType) < SpineWidth(q, paperType, bindingType)
  {
    SpineWidthLinear(p, q, paperType, bindingType);
    var t := Thickness(paperType);
    assert (q - p) as real * t >= 1.0 * t by {
      if t == 0.0027 { } else { assert t == 0.0025; }
    }
  }

  /** The paper type is matched without regard to case, and unknown types are not rejected. */
  lemma ThicknessExamples()
    ensures Thickness("Cream") == 0.0027 && Thickness("CREAM") == 0.0027
    ensures Thickness("white") == 0.0025 && Thickness("glossy") == 0.0025
    ensures SpineWidth(100, "white", "paperback") == 0.25
    ensures SpineWidth(100, "cream", "hardcover") == 0.52
    ensures SpineWidth(2000, "white", "paperback") == 5.0
  {
    assert Lower("Cream") == "cream";
    assert Lower("CREAM") == "cream";
    assert Lower("white") == "white";
    assert Lower("glossy") != "cream" by { assert Lower("glossy")[0] == 'g'; }
  }

  /** Pixel geometry of the paperback wrap: back 1800 px, spine, front 1800 px, all 2700 px tall. */
  datatype Wrap = Wrap(spinePx: int, width: int, height: int, frontX: int)

  const PanelWidth: int := 1800
  const WrapHeight: int := 2700

  function PaperbackWrap(pageCount: int, paperType: string): (w: Wrap)
    ensures w.spinePx == Trunc(SpineWidth(pageCount, paperType, "paperback") * 300.0)
    ensures w.frontX == PanelWidth + w.spinePx && w.width - w.frontX == PanelWidth
    ensures w.height == WrapHeight
    ensures pageCount >= 0 ==> w.spinePx >= 0 && w.width >= 2 * PanelWidth
  {
    var spinePx := Trunc(SpineWidth(pageCount, paperType, "paperback") * 300.0);
    Wrap(spinePx, PanelWidth + spinePx + PanelWidth, WrapHeight, PanelWidth + spinePx)
  }

  lemma PaperbackWrapExample()
    ensures PaperbackWrap(100, "white") == Wrap(75, 3675, 2700, 1875)
  {
    ThicknessExamples();
  }

  /** Left edge of a front-cover text of the given width, centred in the 1800 px front panel. */
  function FrontTextX(w: Wrap, textWidth: int): (x: int)
    ensures 0 <= (PanelWidth - textWidth) - 2 * (x - w.frontX) <= 1
    ensures textWidth <= PanelWidth ==> w.frontX <= x && x + textWidth <= w.frontX + PanelWidth
  {
    w.frontX + CoverGenerator.CentreOffset(PanelWidth, textWidth)
  }

  /**
   * Offset of the spine text across the spine: centred for a 50 px font, but never less
   * than 8 px.
   */
  function SpineTextY(spinePx: int): (y: int)
    ensures y >= 8
    ensures spinePx >= 66 ==> 0 <= (spinePx - 50) - 2 * y <= 1
    ensures spinePx < 66 ==> y == 8
  {
    var centred := (spinePx - 50) / 2;
    if centred > 8 then centred else 8
  }

  // ---------------------------------------------------------------- gradient

  /** The exact value `start + (end - start) * f` of a channel at fraction `f` of the height. */
  function ChannelValue(start: int, end: int, f: real): real
  {
    start as real + (end - start) as real * f
  }

  /**
   * One colour channel of the gradient row `y` of `height` rows, going from `start` towards
   * `end`: `int(start + (end - start) * (y / height))`.
   */
  function Channel(start: nat, end: nat, y: nat, height: nat): (c: int)
    requires y < height
    ensures start <= end ==> start <= c && (start < end ==> c < end)
    ensures end <= start ==> end <= c <= start
  {
    var f := y as real / height as real;
    FractionBelowOne(y, height);
    ChannelBetween(start, end, f);
    Trunc(ChannelValue(start, end, f))
  }

  lemma FractionBelowOne(y: nat, height: nat)
    requires y < height
    ensures 0.0 <= y as real / height as real < 1.0
  {
    assert y as real < height as real;
  }

  lemma MulNonNegative(a: real, b: real)
    requires 0.0 <= a && 0.0 <= b
    ensures 0.0 <= a * b
  {
  }

  lemma MulPositive(a: real, b: real)
    requires 0.0 < a && 0.0 < b
    ensures 0.0 < a * b
  {
  }

  /** For a fraction in [0, 1) the exact value lies between the endpoints, short of `end`. */
  lemma ChannelBetween(start: nat, end: nat, f: real)
    requires 0.0 <= f < 1.0
    ensures var v := ChannelValue(start, end, f);
            0.0 <= v &&
            (start <= end ==> start as real <= v && (start < end ==> v < end as real)) &&
            (end <= start ==> end as real <= v && v <= start as real)
  {
    if start <= end {
      RisingBetween(start, end, f);
    } else {
      FallingBetween(start, end, f);
    }
  }

  lemma RisingBetween(start: nat, end: nat, f: real)
    requires 0.0 <= f < 1.0 && start <= end
    ensures start as real <= ChannelValue(start, end, f)
    ensures start < end ==> ChannelValue(start, end, f) < end as real
  {
    var d := (end - start) as real;
    MulNonNegative(d, f);
    if start < end {
      var g := 1.0 - f;
      MulPositive(d, g);
      var v := ChannelValue(start, end, f);
      assert v == start as real + d * f;
      assert d * f + d * g == d by { assert d * f + d * g == d * (f + g); }
      assert end as real - v == d * g;
    }
  }

  lemma FallingBetween(start: nat, end: nat, f: real)
    requires 0.0 <= f < 1.0 && end < start
    ensures end as real < ChannelValue(start, end, f) <= start as real
  {
    var e := (start - end) as real;
    var g := 1.0 - f;
    var v := ChannelValue(start, end, f);
    assert (end - start) as real * f == -(e * f) by {
      assert (end - start) as real == -e;
    }
    assert v == start as real - e * f;
    MulNonNegative(e, f);
    MulPositive(e, g);
    assert e * f + e * g == e by { assert e * f + e * g == e * (f + g); }
    assert v - end as real == e * g;
  }

  /** The gradient runs from #667eea (102, 126, 234) at the top towards #764ba2 (118, 75, 162). */
  function GradientRow(y: nat, height: nat): (c: CoverGenerator.Rgb)
    requires y < height
    ensures 102 <= c.r <= 117
    ensures 75 <= c.g <= 126
    ensures 162 <= c.b <= 234
  {
    CoverGenerator.Rgb(Channel(102, 118, y, height), Channel(126, 75, y, height), Channel(234, 162, y, height))
  }

  /** The first row is exactly the start colour. */
  lemma GradientStartsAtPrimary(height: nat)
    requires height > 0
    ensures GradientRow(0, height) == CoverGenerator.Rgb(102, 126, 234)
  {
  }

  /** Lower rows are never bluer nor greener, and never less red, than higher ones. */
  lemma GradientMonotone(y1: nat, y2: nat, height: nat)
    requires y1 <= y2 < height
    ensures GradientRow(y1, height).r <= GradientRow(y2, height).r
    ensures GradientRow(y1, height).g >= GradientRow(y2, height).g
    ensures GradientRow(y1, height).b >= GradientRow(y2, height).b
  {
    var f1, f2 := y1 as real / height as real, y2 as real / height as real;
    assert f1 <= f2 by {
      assert y1 as real <= y2 as real;
    }
    ChannelMonotone(102, 118, f1, f2);
    ChannelMonotone(126, 75, f1, f2);
    ChannelMonotone(234, 162, f1, f2);
  }

  lemma ChannelMonotone(start: int, end: int, f1: real, f2: real)
    requires 0.0 <= f1 <= f2
    ensures start <= end ==> Trunc(ChannelValue(start, end, f1)) <= Trunc(ChannelValue(start, end, f2))
    ensures end <= start ==> Trunc(ChannelValue(start, end, f1)) >= Trunc(ChannelValue(start, end, f2))
  {
    var v1, v2 := ChannelValue(start, end, f1), ChannelValue(start, end, f2);
    if start <= end {
      MulNonNegative((end - start) as real, f2 - f1);
      assert v2 - v1 == (end - start) as real * (f2 - f1);
      TruncMonotone(v1, v2);
    } else {
      MulNonNegative((start - end) as real, f2 - f1);
      assert v1 - v2 == (start - end) as real * (f2 - f1);
      TruncMonotone(v2, v1);
    }
  }

  lemma TruncMonotone(x: real, y: real)
    requires x <= y
    ensures Trunc(x) <= Trunc(y)
  {
  }

  /**
   * The row loop of the background: one colour per row, top to bottom, each the
   * gradient's value for that row.
   */
  method PaintGradient(height: nat) returns (rows: seq<CoverGenerator.Rgb>)
    ensures |rows| == height
    ensures forall y :: 0 <= y < height ==> rows[y] == GradientRow(y, height)
  {
    rows := [];
    var y := 0;
    while y < height
      invariant 0 <= y <= height && |rows| == y
      invariant forall k :: 0 <= k < y ==> rows[k] == GradientRow(k, height)
    {
      var r := Channel(102, 118, y, height);
      var g := Channel(126, 75, y, height);
      var b := Channel(234, 162, y, height);
      rows := rows + [CoverGenerator.Rgb(r, g, b)];
      y := y + 1;
    }
  }

  // ---------------------------------------------------------------- back cover text

  const BackTop: int := 400
  const BackLineStep: int := 80

  /** A back-cover line drawn at (x, y); `index` is its position in the list of lines. */
  datatype Placed = Placed(index: nat, x: int, y: int)

  /** Positions, in order, of the non-empty lines among the first `n`. */
  function NonEmptyLines(lines: seq<string>, n: nat): seq<nat>
    requires n <= |lines|
  {
    if n == 0 then [] else NonEmptyLines(lines, n - 1) + (if lines[n - 1] != "" then [n - 1] else [])
  }

  /**
   * Exactly the non-empty lines among the first `n` are listed, each once, in increasing
   * order.
   */
  lemma {:induction false} NonEmptyLinesSpec(lines: seq<string>, n: nat)
    requires n <= |lines|
    ensures var ix := NonEmptyLines(lines, n);
            (forall k :: 0 <= k < |ix| ==> ix[k] < n && lines[ix[k]] != "") &&
            (forall k, l :: 0 <= k < l < |ix| ==> ix[k] < ix[l]) &&
            (forall i :: 0 <= i < n && lines[i] != "" ==> i in ix)
  {
    if n > 0 {
      NonEmptyLinesSpec(lines, n - 1);
    }
  }

  /**
   * The back-cover loop: every line advances the pen by 80 px, but only non-empty lines are
   * drawn, centred in the 1800 px back panel.  `widths[i]` is the measured width of line i.
   */
  method PlaceBackText(lines: seq<string>, widths: seq<int>) returns (placed: seq<Placed>, endY: int)
    requires |widths| == |lines|
    ensures endY == BackTop + BackLineStep * |lines|
    ensures |placed| == |NonEmptyLines(lines, |lines|)|
    ensures forall k :: 0 <= k < |placed| ==>
              placed[k].index == NonEmptyLines(lines, |lines|)[k] && placed[k].index < |lines| &&
              placed[k].y == BackTop + BackLineStep * placed[k].index &&
              0 <= (PanelWidth - widths[placed[k].index]) - 2 * placed[k].x <= 1
  {
    placed := [];
    var backY := BackTop;
    var i := 0;
    while i < |lines|
      invariant 0 <= i <= |lines|
      invariant backY == BackTop + BackLineStep * i
      invariant |placed| == |NonEmptyLines(lines, i)|
      invariant forall k :: 0 <= k < |placed| ==>
                  placed[k].index == NonEmptyLines(lines, i)[k] && placed[k].index < i &&
                  placed[k].y == BackTop + BackLineStep * placed[k].index &&
                  0 <= (PanelWidth - widths[placed[k].index]) - 2 * placed[k].x <= 1
    {
      NonEmptyLinesSpec(lines, i);
      if lines[i] != "" {
        var x := CoverGenerator.CentreOffset(PanelWidth, widths[i]);
        placed := placed + [Placed(i, x, backY)];
      }
      backY := backY + BackLineStep;
      i := i + 1;
    }
    endY := backY;
  }

  /** Drawn lines are at least one line step apart. */
  lemma BackTextSpaced(lines: seq<string>, placed: seq<Placed>, k: nat, l: nat)
    requires |placed| == |NonEmptyLines(lines, |lines|)|
    requires forall m :: 0 <= m < |placed| ==>
               placed[m].index == NonEmptyLines(lines, |lines|)[m] &&
               placed[m].y == BackTop + BackLineStep * placed[m].index
    requires k < l < |placed|
    ensures placed[l].y - placed[k].y >= BackLineStep
  {
    NonEmptyLinesSpec(lines, |lines|);
  }

  // ---------------------------------------------------------------- e-book cover

  /** Fixed rows of the e-book cover's texts and rule, top to bottom. */
  const EbookTitleY: int := 400
  const EbookTitle2Y: int := EbookTitleY + 150
  const EbookSubtitleY: int := EbookTitle2Y + 180
  const EbookRuleY: int := 1050
  const EbookTaglineY: int := 1100
  const EbookAuthorY: int := 1400

  /** The decorative rule: 800 px wide, centred on the 1600 px cover, from x1 to x2. */
  function EbookRule(): (r: (int, int))
    ensures r.1 - r.0 == 800 && r.0 + r.1 == CoverGenerator.EbookWidth
  {
    var x1 := CoverGenerator.CentreOffset(CoverGenerator.EbookWidth, 800);
    (x1, x1 + 800)
  }

  /** The rule sits between the subtitle and the tagline, and everything is on the canvas. */
  lemma EbookRowsOrdered()
    ensures EbookTitleY < EbookTitle2Y < EbookSubtitleY < EbookRuleY < EbookTaglineY < EbookAuthorY
    ensures EbookAuthorY < CoverGenerator.EbookHeight
    ensures EbookRule() == (400, 1200)
  {
  }
}
