/**
 * The encoder: turns a plot's configuration and display list into the query
 * string of the chart service. Every operation here only reads the plot, so
 * encoding the same plot twice gives the same string.
 */
module Encoder {
  import opened Wrappers
  import opened TextFormat
  import opened Elements

  /** The service the query string is addressed to. */
  const ChartService := "http://chart.apis.google.com/chart"

  /** Chart type selector: an x/y line chart. */
  const ChartType := "cht=lxy"

  /** Two fixed parameters that turn the x and y axes off. */
  const AxesOn := "chxt=x,y"
  const AxesStyle := "chxs=0,000000,0,0,_|1,000000,0,0,_"

  /** Outline colour used when no shape has one: fully transparent white. */
  const TransparentOutline := "ffffff00"

  /** What the encoder reads of a plot: its configuration and its display list. */
  datatype PlotValue = PlotValue(width: int, height: int, fillColor1: string,
                                 fillColor2: Option<string>, angle: int,
                                 elements: seq<Element>)

  /** Both extents are positive, so the coordinate maps can divide by them. */
  predicate ValidPlot(p: PlotValue) {
    p.width > 0 && p.height > 0
  }

  // ---------------------------------------------------------------
  // Partition by kind

  predicate AllShapes(es: seq<Element>) { forall i :: 0 <= i < |es| ==> es[i].Shape? }
  predicate AllTexts(es: seq<Element>) { forall i :: 0 <= i < |es| ==> es[i].Text? }

  /** The shapes of the display list, in display order. */
  function ShapeElements(es: seq<Element>): (r: seq<Element>)
    ensures AllShapes(r) && |r| <= |es|
    decreases |es|
  {
    if |es| == 0 then []
    else (if es[0].Shape? then [es[0]] else []) + ShapeElements(es[1..])
  }

  /** The labels of the display list, in display order. */
  function TextElements(es: seq<Element>): (r: seq<Element>)
    ensures AllTexts(r) && |r| <= |es|
    decreases |es|
  {
    if |es| == 0 then []
    else (if es[0].Text? then [es[0]] else []) + TextElements(es[1..])
  }

  /** `a` is `b` with some elements left out (greedy matching decides this exactly). */
  predicate IsSubsequence(a: seq<Element>, b: seq<Element>)
    decreases |b|
  {
    if |a| == 0 then true
    else if |b| == 0 then false
    else if a[0] == b[0] then IsSubsequence(a[1..], b[1..])
    else IsSubsequence(a, b[1..])
  }

  /** The two kinds split the display list: their sizes add up to its size. */
  lemma {:induction false} PartitionSizes(es: seq<Element>)
    ensures |ShapeElements(es)| + |TextElements(es)| == |es|
    decreases |es|
  {
    if |es| > 0 {
      PartitionSizes(es[1..]);
    }
  }

  /** Together the two kinds hold every element of the display list exactly once. */
  lemma {:induction false} PartitionElements(es: seq<Element>)
    ensures multiset(ShapeElements(es)) + multiset(TextElements(es)) == multiset(es)
    decreases |es|
  {
    if |es| > 0 {
      PartitionElements(es[1..]);
      assert es == [es[0]] + es[1..];
      assert multiset(es) == multiset{es[0]} + multiset(es[1..]);
      if es[0].Shape? {
        assert ShapeElements(es) == [es[0]] + ShapeElements(es[1..]);
        assert TextElements(es) == TextElements(es[1..]);
      } else {
        assert ShapeElements(es) == ShapeElements(es[1..]);
        assert TextElements(es) == [es[0]] + TextElements(es[1..]);
      }
    }
  }

  /** Each kind keeps the display order: it is the display list with the other kind left out. */
  lemma {:induction false} PartitionOrder(es: seq<Element>)
    ensures IsSubsequence(ShapeElements(es), es) && IsSubsequence(TextElements(es), es)
    decreases |es|
  {
    if |es| > 0 {
      PartitionOrder(es[1..]);
      var s, t := ShapeElements(es[1..]), TextElements(es[1..]);
      if es[0].Shape? {
        assert ShapeElements(es) == [es[0]] + s;
        assert ([es[0]] + s)[1..] == s;
        assert TextElements(es) == t;
        assert |t| > 0 ==> t[0].Text?;
      } else {
        assert TextElements(es) == [es[0]] + t;
        assert ([es[0]] + t)[1..] == t;
        assert ShapeElements(es) == s;
        assert |s| > 0 ==> s[0].Shape?;
      }
    }
  }

  /** Appending a shape extends the shapes; appending a label leaves them alone. */
  lemma {:induction false} ShapeElementsAppend(es: seq<Element>, e: Element)
    ensures ShapeElements(es + [e]) == ShapeElements(es) + (if e.Shape? then [e] else [])
    decreases |es|
  {
    if |es| == 0 {
      assert es + [e] == [e];
    } else {
      ShapeElementsAppend(es[1..], e);
      assert (es + [e])[0] == es[0];
      assert (es + [e])[1..] == es[1..] + [e];
      var h := if es[0].Shape? then [es[0]] else [];
      var t := if e.Shape? then [e] else [];
      assert ShapeElements(es + [e]) == h + ShapeElements(es[1..] + [e]);
      assert ShapeElements(es) == h + ShapeElements(es[1..]);
      assert h + (ShapeElements(es[1..]) + t) == (h + ShapeElements(es[1..])) + t;
    }
  }

  /** Appending a label extends the labels; appending a shape leaves them alone. */
  lemma {:induction false} TextElementsAppend(es: seq<Element>, e: Element)
    ensures TextElements(es + [e]) == TextElements(es) + (if e.Text? then [e] else [])
    decreases |es|
  {
    if |es| == 0 {
      assert es + [e] == [e];
    } else {
      TextElementsAppend(es[1..], e);
      assert (es + [e])[0] == es[0];
      assert (es + [e])[1..] == es[1..] + [e];
      var h := if es[0].Text? then [es[0]] else [];
      var t := if e.Text? then [e] else [];
      assert TextElements(es + [e]) == h + TextElements(es[1..] + [e]);
      assert TextElements(es) == h + TextElements(es[1..]);
      assert h + (TextElements(es[1..]) + t) == (h + TextElements(es[1..])) + t;
    }
  }

  // ---------------------------------------------------------------
  // Coordinate maps

  /** Linear interpolation: `x0` goes to `u0` and `x1` to `u1`. */
  function Lerp(x: real, x0: real, x1: real, u0: real, u1: real): real
    requires x1 != x0
  {
    u0 + ((x - x0) * (u1 - u0)) / (x1 - x0)
  }

  lemma {:induction false} LerpEnds(x0: real, x1: real, u0: real, u1: real)
    requires x1 != x0
    ensures Lerp(x0, x0, x1, u0, u1) == u0 && Lerp(x1, x0, x1, u0, u1) == u1
  {
  }

  /** On an increasing source interval onto a non-decreasing target, the map keeps order. */
  lemma {:induction false} LerpMonotone(x: real, y: real, x0: real, x1: real, u0: real, u1: real)
    requires x0 < x1 && u0 <= u1 && x <= y
    ensures Lerp(x, x0, x1, u0, u1) <= Lerp(y, x0, x1, u0, u1)
  {
    var d := x1 - x0;
    assert (y - x0) * (u1 - u0) - (x - x0) * (u1 - u0) == (y - x) * (u1 - u0);
    assert (y - x) * (u1 - u0) >= 0.0;
    assert ((y - x0) * (u1 - u0)) / d - ((x - x0) * (u1 - u0)) / d == ((y - x) * (u1 - u0)) / d;
  }

  /** `p2c_x`, `p2c_y` before formatting: pixels onto the chart's 0..100 range. */
  function ChartValue(px: real, extent: int): real
    requires extent > 0
  {
    Lerp(px, 0.0, extent as real, 0.0, 100.0)
  }

  /** `p2r_x`, `p2r_y` before formatting: pixels onto the relative 0..1 range. */
  function RelativeValue(px: real, extent: int): real
    requires extent > 0
  {
    Lerp(px, 0.0, extent as real, 0.0, 1.0)
  }

  /** `p2c_x`, `p2c_y`: the chart coordinate with one decimal. */
  function ToChart(px: real, extent: int): string
    requires extent > 0
  {
    FormatFixed(ChartValue(px, extent), 1)
  }

  /** `p2r_x`, `p2r_y`: the relative coordinate with three decimals. */
  function ToRelative(px: real, extent: int): string
    requires extent > 0
  {
    FormatFixed(RelativeValue(px, extent), 3)
  }

  /** The chart map sends the edges of the canvas to "0.0" and "100.0". */
  lemma {:induction false} ChartMapBounds(extent: int)
    requires extent > 0
    ensures ToChart(0.0, extent) == "0.0"
    ensures ToChart(extent as real, extent) == "100.0"
  {
    assert ChartValue(0.0, extent) == 0.0 && ChartValue(extent as real, extent) == 100.0 by {
      LerpEnds(0.0, extent as real, 0.0, 100.0);
    }
    RenderZero(1);
    RenderHundred();
  }

  /** The relative map sends the edges of the canvas to "0.000" and "1.000". */
  lemma {:induction false} RelativeMapBounds(extent: int)
    requires extent > 0
    ensures ToRelative(0.0, extent) == "0.000"
    ensures ToRelative(extent as real, extent) == "1.000"
  {
    assert RelativeValue(0.0, extent) == 0.0 && RelativeValue(extent as real, extent) == 1.0 by {
      LerpEnds(0.0, extent as real, 0.0, 1.0);
    }
    RenderZero(3);
    RenderOne();
  }

  lemma {:induction false} RenderZero(places: nat)
    requires places == 1 || places == 3
    ensures FormatFixed(0.0, places) == if places == 1 then "0.0" else "0.000"
  {
    assert Magnitude(0.0, places) == 0 by {
      assert Shift(0.0, places) == 0.0 by {
        if places == 1 {
          assert Shift(0.0, 1) == 10.0 * Shift(0.0, 0);
        } else {
          assert Shift(0.0, 3) == 10.0 * Shift(0.0, 2);
          assert Shift(0.0, 2) == 10.0 * Shift(0.0, 1);
          assert Shift(0.0, 1) == 10.0 * Shift(0.0, 0);
        }
      }
    }
    assert Padded(0, places) == "0" + Zeros(places) by {
      assert NatToString(0) == "0";
    }
    assert Decimal(0, places) == "0." + Zeros(places);
    if places == 1 {
      assert Zeros(1) == "0";
    } else {
      assert Zeros(3) == "000";
    }
  }

  lemma {:induction false} RenderHundred()
    ensures FormatFixed(100.0, 1) == "100.0"
  {
    assert Magnitude(100.0, 1) == 1000 by {
      assert Shift(100.0, 1) == 1000.0;
      assert RoundHalfEven(1000.0) == 1000;
    }
    assert Padded(1000, 1) == "1000" by {
      assert NatToString(1000) == "1000";
    }
  }

  lemma {:induction false} RenderOne()
    ensures FormatFixed(1.0, 3) == "1.000"
  {
    assert Magnitude(1.0, 3) == 1000 by {
      assert Shift(1.0, 3) == 1000.0;
      assert RoundHalfEven(1000.0) == 1000;
    }
    assert Padded(1000, 3) == "1000" by {
      assert NatToString(1000) == "1000";
    }
  }

  /** Both maps keep the order of pixel values, before and after rounding. */
  lemma {:induction false} MapsMonotone(a: real, b: real, extent: int)
    requires extent > 0 && a <= b
    ensures ChartValue(a, extent) <= ChartValue(b, extent)
    ensures Scaled(ChartValue(a, extent), 1) <= Scaled(ChartValue(b, extent), 1)
    ensures RelativeValue(a, extent) <= RelativeValue(b, extent)
    ensures Scaled(RelativeValue(a, extent), 3) <= Scaled(RelativeValue(b, extent), 3)
  {
    LerpMonotone(a, b, 0.0, extent as real, 0.0, 100.0);
    ScaledMonotone(ChartValue(a, extent), ChartValue(b, extent), 1);
    LerpMonotone(a, b, 0.0, extent as real, 0.0, 1.0);
    ScaledMonotone(RelativeValue(a, extent), RelativeValue(b, extent), 3);
  }

  // ---------------------------------------------------------------
  // Outline colours (chco)

  /** How Ruby interpolates or joins a colour that may be `nil`: `nil` becomes "". */
  function ColorText(c: Option<string>): string
  {
    c.GetOr("")
  }

  /** The outline colour of every shape, in shape order. */
  function OutlineColors(es: seq<Element>): seq<Option<string>>
  {
    var shapes := ShapeElements(es);
    seq(|shapes|, i requires 0 <= i < |shapes| => shapes[i].outlineColor)
  }

  predicate AllNone(cs: seq<Option<string>>) { forall i :: 0 <= i < |cs| ==> cs[i].None? }

  /** Every colour equals the first one. */
  predicate AllSame(cs: seq<Option<string>>) { forall i :: 0 <= i < |cs| ==> cs[i] == cs[0] }

  /** The colours as they appear in a joined list, `nil` as an empty entry. */
  function ColorTexts(cs: seq<Option<string>>): (ts: seq<string>)
    ensures |ts| == |cs|
  {
    seq(|cs|, i requires 0 <= i < |cs| => ColorText(cs[i]))
  }

  /**
   * `generate_line_colors` with the comparison its comment describes: transparent
   * outlines when no shape has a colour, one colour when all shapes share it,
   * otherwise one entry per shape.
   */
  function LineColors(cs: seq<Option<string>>): (r: string)
    ensures |r| >= 5 && r[..5] == "chco="
  {
    if AllNone(cs) then "chco=" + TransparentOutline
    else if AllSame(cs) then "chco=" + ColorText(cs[0])
    else "chco=" + Join(ColorTexts(cs), "|")
  }

  /**
   * `generate_line_colors` as written: the block `c=outline_colors.first` assigns
   * instead of comparing, so the single-colour branch is taken whenever the first
   * colour is present (or there is only one shape), whatever the others are.
   */
  function LineColorsAsWritten(cs: seq<Option<string>>): (r: string)
    ensures |r| >= 5 && r[..5] == "chco="
  {
    if AllNone(cs) then "chco=" + TransparentOutline
    else if |cs| == 1 || cs[0].Some? then "chco=" + ColorText(cs[0])
    else "chco=" + Join(ColorTexts(cs), "|")
  }

  /** Without any outline colour both readings emit the transparent sentinel. */
  lemma {:induction false} LineColorsTransparent(cs: seq<Option<string>>)
    requires AllNone(cs)
    ensures LineColors(cs) == "chco=ffffff00"
    ensures LineColorsAsWritten(cs) == "chco=ffffff00"
  {
  }

  /** When every shape has the same colour `c`, both readings emit `c` once. */
  lemma {:induction false} LineColorsUniform(cs: seq<Option<string>>, c: string)
    requires |cs| > 0 && forall i :: 0 <= i < |cs| ==> cs[i] == Some(c)
    ensures LineColors(cs) == "chco=" + c
    ensures LineColorsAsWritten(cs) == "chco=" + c
  {
    assert !AllNone(cs) by {
      assert cs[0].Some?;
    }
  }

  /**
   * Reads a `chco` value back into one colour per shape: a single entry stands
   * for every shape, otherwise entry `i` is shape `i`'s colour.
   */
  function ExpandColors(fields: seq<string>, n: nat): seq<string>
  {
    if |fields| == 1 then seq(n, _ => fields[0]) else fields
  }

  /**
   * With at least one colour present and no colour holding `|`, the corrected
   * parameter determines every shape's outline colour.
   */
  lemma {:induction false} LineColorsReadBack(cs: seq<Option<string>>)
    requires !AllNone(cs)
    requires forall i :: 0 <= i < |cs| ==> '|' !in ColorText(cs[i])
    ensures ExpandColors(Split(LineColors(cs)[5..], '|'), |cs|) == ColorTexts(cs)
  {
    var r := LineColors(cs);
    if AllSame(cs) {
      assert r[5..] == ColorText(cs[0]);
      SplitWithout(ColorText(cs[0]), '|');
    } else {
      var ts := ColorTexts(cs);
      assert r[5..] == Join(ts, "|");
      SplitJoin(ts, '|');
    }
  }

  /**
   * As written, a present first colour wins: two shapes outlined "ff0000" and
   * "00ff00" come out as "chco=ff0000", so the second outline cannot be read back.
   */
  lemma {:induction false} LineColorsAsWrittenFirstWins()
    ensures var cs := [Some("ff0000"), Some("00ff00")];
            LineColorsAsWritten(cs) == "chco=ff0000"
            && LineColors(cs) == "chco=ff0000|00ff00"
            && ExpandColors(Split(LineColorsAsWritten(cs)[5..], '|'), 2) != ColorTexts(cs)
  {
    var cs := [Some("ff0000"), Some("00ff00")];
    TwoColorsAsWritten(cs);
    TwoColorsCorrected(cs);
    var r := LineColorsAsWritten(cs);
    assert r[5..] == "ff0000";
    SplitWithout("ff0000", '|');
    assert ExpandColors(["ff0000"], 2)[1] == "ff0000";
    assert ColorTexts(cs)[1] == "00ff00";
  }

  lemma {:induction false} TwoColorsAsWritten(cs: seq<Option<string>>)
    requires cs == [Some("ff0000"), Some("00ff00")]
    ensures LineColorsAsWritten(cs) == "chco=ff0000"
  {
    assert cs[0].Some?;
  }

  lemma {:induction false} TwoColorsCorrected(cs: seq<Option<string>>)
    requires cs == [Some("ff0000"), Some("00ff00")]
    ensures LineColors(cs) == "chco=ff0000|00ff00"
  {
    assert cs[0].Some? && cs[1] != cs[0];
    assert ColorTexts(cs) == ["ff0000", "00ff00"];
    assert Join(["ff0000", "00ff00"], "|") == "ff0000|00ff00";
  }

  /**
   * A present colour followed by an absent one: the corrected merge keeps an
   * empty entry for the absent outline, the merge as written keeps only the first.
   */
  lemma {:induction false} LineColorsPresentThenAbsent()
    ensures var cs := [Some("ff0000"), None];
            LineColorsAsWritten(cs) == "chco=ff0000"
            && LineColors(cs) == "chco=ff0000|"
  {
    var cs: seq<Option<string>> := [Some("ff0000"), None];
    assert cs[0].Some? && !AllNone(cs) && !AllSame(cs) by {
      assert cs[1] != cs[0];
    }
    assert ColorTexts(cs) == ["ff0000", ""];
    assert Join(["ff0000", ""], "|") == "ff0000|";
  }

  /** The two readings agree whenever the colours agree or the first one is absent. */
  lemma {:induction false} LineColorsAgree(cs: seq<Option<string>>)
    requires AllSame(cs) || (|cs| > 1 && cs[0].None?)
    ensures LineColorsAsWritten(cs) == LineColors(cs)
  {
  }

  // ---------------------------------------------------------------
  // Geometry (chd)

  /** `p2c_x` of every point of a shape, each offset by the shape's origin. */
  function XValues(s: Element, width: int): seq<string>
    requires s.Shape? && width > 0
  {
    seq(|s.points|, i requires 0 <= i < |s.points| => ToChart(s.points[i].dx + s.originX, width))
  }

  /** `p2c_y` of every point of a shape, each offset by the shape's origin. */
  function YValues(s: Element, height: int): seq<string>
    requires s.Shape? && height > 0
  {
    seq(|s.points|, i requires 0 <= i < |s.points| => ToChart(s.points[i].dy + s.originY, height))
  }

  /** `generate_shape`: the comma-joined x values, `|`, the comma-joined y values. */
  function ShapeCoords(s: Element, width: int, height: int): string
    requires s.Shape? && width > 0 && height > 0
  {
    Join(XValues(s, width), ",") + "|" + Join(YValues(s, height), ",")
  }

  /** One coordinate group per shape, in shape order. */
  function CoordGroups(shapes: seq<Element>, width: int, height: int): seq<string>
    requires AllShapes(shapes) && width > 0 && height > 0
  {
    seq(|shapes|, k requires 0 <= k < |shapes| => ShapeCoords(shapes[k], width, height))
  }

  /**
   * `generate_lines`: the groups of all shapes joined with `|`, or the
   * placeholder "0|0" when that is empty. (`compact` has nothing to drop:
   * `generate_shape` never yields `nil`.)
   */
  function Lines(p: PlotValue): (r: string)
    requires ValidPlot(p)
    ensures |r| >= 6 && r[..6] == "chd=t:"
  {
    var coords := Join(CoordGroups(ShapeElements(p.elements), p.width, p.height), "|");
    "chd=t:" + (if coords == "" then "0|0" else coords)
  }

  /** Without shapes the geometry is the placeholder line. */
  lemma {:induction false} LinesEmpty(p: PlotValue)
    requires ValidPlot(p) && |ShapeElements(p.elements)| == 0
    ensures Lines(p) == "chd=t:0|0"
  {
  }

  /** No coordinate holds a character outside the rendering of numbers, such as `,` or `|`. */
  lemma {:induction false} CoordsAvoid(s: Element, width: int, height: int, c: char)
    requires s.Shape? && width > 0 && height > 0
    requires !IsDigit(c) && c != '.' && c != '-'
    ensures forall i :: 0 <= i < |s.points| ==> c !in XValues(s, width)[i] && c !in YValues(s, height)[i]
  {
    forall i | 0 <= i < |s.points|
      ensures c !in XValues(s, width)[i] && c !in YValues(s, height)[i]
    {
      ToChartAvoids(s.points[i].dx + s.originX, width, c);
      ToChartAvoids(s.points[i].dy + s.originY, height, c);
    }
  }

  lemma {:induction false} ToChartAvoids(px: real, extent: int, c: char)
    requires extent > 0
    requires !IsDigit(c) && c != '.' && c != '-'
    ensures c !in ToChart(px, extent)
  {
    FormatFixedIsNumeric(ChartValue(px, extent), 1);
    NumericAvoids(ToChart(px, extent), c);
  }

  /** A shape's group avoids every character outside numbers and the two separators. */
  lemma {:induction false} ShapeCoordsAvoid(s: Element, width: int, height: int, c: char)
    requires s.Shape? && width > 0 && height > 0
    requires !IsDigit(c) && c != '.' && c != '-' && c != ',' && c != '|'
    ensures c !in ShapeCoords(s, width, height)
  {
    CoordsAvoid(s, width, height, c);
    JoinExcludes(XValues(s, width), ",", c);
    JoinExcludes(YValues(s, height), ",", c);
  }

  /**
   * A shape with points reads back from its group: splitting either half at
   * `,` gives one value per point, the chart map of origin plus offset.
   */
  lemma {:induction false} ShapeCoordsReadBack(s: Element, width: int, height: int)
    requires s.Shape? && width > 0 && height > 0 && |s.points| > 0
    ensures Split(ShapeCoords(s, width, height), '|')
            == [Join(XValues(s, width), ","), Join(YValues(s, height), ",")]
    ensures Split(Join(XValues(s, width), ","), ',') == XValues(s, width)
    ensures Split(Join(YValues(s, height), ","), ',') == YValues(s, height)
  {
    var xs, ys := XValues(s, width), YValues(s, height);
    CoordsAvoid(s, width, height, ',');
    CoordsAvoid(s, width, height, '|');
    SplitJoin(xs, ',');
    SplitJoin(ys, ',');
    JoinExcludes(xs, ",", '|');
    JoinExcludes(ys, ",", '|');
    SplitAround(Join(xs, ","), '|', Join(ys, ","));
  }

  /** The comma-joined x values of each shape, in shape order. */
  function XTexts(shapes: seq<Element>, width: int): (ts: seq<string>)
    requires AllShapes(shapes) && width > 0
    ensures |ts| == |shapes|
  {
    seq(|shapes|, k requires 0 <= k < |shapes| => Join(XValues(shapes[k], width), ","))
  }

  /** The comma-joined y values of each shape, in shape order. */
  function YTexts(shapes: seq<Element>, height: int): (ts: seq<string>)
    requires AllShapes(shapes) && height > 0
    ensures |ts| == |shapes|
  {
    seq(|shapes|, k requires 0 <= k < |shapes| => Join(YValues(shapes[k], height), ","))
  }

  /**
   * With shapes present, splitting the geometry at `|` gives the x and y
   * halves of every shape, alternately and in shape order.
   */
  lemma {:induction false} LinesReadBack(p: PlotValue)
    requires ValidPlot(p) && |ShapeElements(p.elements)| > 0
    ensures var shapes := ShapeElements(p.elements);
            Split(Lines(p)[6..], '|') == Interleave(XTexts(shapes, p.width), YTexts(shapes, p.height))
  {
    var shapes := ShapeElements(p.elements);
    var xs, ys := XTexts(shapes, p.width), YTexts(shapes, p.height);
    var groups := CoordGroups(shapes, p.width, p.height);
    assert groups == seq(|xs|, i requires 0 <= i < |xs| => xs[i] + "|" + ys[i]);
    JoinPairs(xs, ys, "|");
    forall k | 0 <= k < |xs|
      ensures '|' !in xs[k] && '|' !in ys[k]
    {
      CoordsAvoid(shapes[k], p.width, p.height, '|');
      JoinExcludes(XValues(shapes[k], p.width), ",", '|');
      JoinExcludes(YValues(shapes[k], p.height), ",", '|');
    }
    InterleaveExcludes(xs, ys, '|');
    SplitJoin(Interleave(xs, ys), '|');
    assert |Join(groups, "|")| >= |groups[0]| > 0;
  }

  /**
   * A shape created from a `nil` or empty point list has no values: its
   * group is the two empty halves around `|`.
   */
  lemma {:induction false} ShapeCoordsNoPoints(s: Element, width: int, height: int)
    requires s.Shape? && width > 0 && height > 0 && |s.points| == 0
    ensures ShapeCoords(s, width, height) == "|"
  {
    assert XValues(s, width) == [] && YValues(s, height) == [];
  }

  /**
   * Shape `k` reads back from the geometry: fields `2k` and `2k + 1` hold its
   * x and y values, one per point.
   */
  lemma {:induction false} LinesShape(p: PlotValue, k: nat)
    requires ValidPlot(p) && k < |ShapeElements(p.elements)|
    requires |ShapeElements(p.elements)[k].points| > 0
    ensures var shapes := ShapeElements(p.elements);
            var fields := Split(Lines(p)[6..], '|');
            |fields| == 2 * |shapes|
            && Split(fields[2 * k], ',') == XValues(shapes[k], p.width)
            && Split(fields[2 * k + 1], ',') == YValues(shapes[k], p.height)
  {
    var shapes := ShapeElements(p.elements);
    LinesReadBack(p);
    InterleaveAt(XTexts(shapes, p.width), YTexts(shapes, p.height), k);
    ShapeCoordsReadBack(shapes[k], p.width, p.height);
  }

  // ---------------------------------------------------------------
  // Characters the encoder writes itself

  /**
   * The characters of the encoder's own fixed text, numbers and codes; the
   * separators `|` and `&` are not among them.
   */
  predicate Plain(c: char) {
    IsDigit(c) || 'a' <= c <= 'z' || 'A' <= c <= 'Z' || c in ".-,:@=?/_"
  }

  predicate AllPlain(s: string) { forall i :: 0 <= i < |s| ==> Plain(s[i]) }

  lemma {:induction false} PlainAvoids(s: string, c: char)
    requires AllPlain(s) && !Plain(c)
    ensures c !in s
  {
  }

  lemma {:induction false} NumericAvoids(s: string, c: char)
    requires NumericText(s) && !IsDigit(c) && c != '.' && c != '-'
    ensures c !in s
  {
  }

  /** The caller-supplied text of an element (colours, escaped label) avoids `c`. */
  predicate ElementAvoids(e: Element, percentEncode: string -> string, c: char) {
    match e
    case Shape(_, _, _, outline, fill) => c !in ColorText(outline) && c !in ColorText(fill)
    case Text(_, _, text, _, color, _, _) => c !in Escape(text, percentEncode) && c !in color
  }

  predicate ElementsAvoid(es: seq<Element>, percentEncode: string -> string, c: char) {
    forall i :: 0 <= i < |es| ==> ElementAvoids(es[i], percentEncode, c)
  }

  lemma {:induction false} PartitionAvoids(es: seq<Element>, percentEncode: string -> string, c: char)
    requires ElementsAvoid(es, percentEncode, c)
    ensures ElementsAvoid(ShapeElements(es), percentEncode, c)
    ensures ElementsAvoid(TextElements(es), percentEncode, c)
    decreases |es|
  {
    if |es| > 0 {
      PartitionAvoids(es[1..], percentEncode, c);
    }
  }

  // ---------------------------------------------------------------
  // Markers (chm)

  /**
   * `escape`: a backslash before every comma, then CGI percent-encoding, which
   * is a library call outside this model and comes in as `percentEncode`.
   */
  function Escape(text: string, percentEncode: string -> string): string
  {
    percentEncode(EscapeCommas(text))
  }

  /** The fields of the fill marker of shape `i`; an absent fill leaves its field empty. */
  function ShapeMarkerFields(fill: Option<string>, i: nat): seq<string>
  {
    ["B", ColorText(fill), NatToString(i), "0", "0"]
  }

  /** The fill marker of shape `i`: "B,<fill>,<i>,0,0". */
  function ShapeMarker(fill: Option<string>, i: nat): (r: string)
    ensures |r| >= 2 && r[..2] == "B,"
  {
    Join(ShapeMarkerFields(fill, i), ",")
  }

  /** One fill marker per shape, numbered by position among the shapes only. */
  function ShapeMarkers(shapes: seq<Element>): (ms: seq<string>)
    requires AllShapes(shapes)
    ensures |ms| == |shapes|
  {
    seq(|shapes|, i requires 0 <= i < |shapes| => ShapeMarker(shapes[i].fillColor, i))
  }

  /** The fields of a label marker: text, colour, 0, position, size, 0, alignment. */
  function TextMarkerFields(t: Element, width: int, height: int, percentEncode: string -> string): (fs: seq<string>)
    requires t.Text? && width > 0 && height > 0
    ensures |fs| == 7
  {
    ["@t" + Escape(t.text, percentEncode), t.color, "0",
     ToRelative(t.originX, width) + ":" + ToRelative(t.originY, height),
     IntToString(t.size), "0", Alignment(t)]
  }

  /** The label marker: "@t<text>,<color>,0,<x>:<y>,<size>,0,<alignment>". */
  function TextMarker(t: Element, width: int, height: int, percentEncode: string -> string): (r: string)
    requires t.Text? && width > 0 && height > 0
    ensures |r| >= 2 && r[..2] == "@t"
    ensures EndsWith(r, Alignment(t))
  {
    var fs := TextMarkerFields(t, width, height, percentEncode);
    JoinEnds(fs, ",");
    Join(fs, ",")
  }

  /** One label marker per label, in label order. */
  function TextMarkers(texts: seq<Element>, width: int, height: int, percentEncode: string -> string): (ms: seq<string>)
    requires AllTexts(texts) && width > 0 && height > 0
    ensures |ms| == |texts|
  {
    seq(|texts|, i requires 0 <= i < |texts| => TextMarker(texts[i], width, height, percentEncode))
  }

  /** The shape markers first, then the label markers. */
  function MarkerEntries(p: PlotValue, percentEncode: string -> string): (ms: seq<string>)
    requires ValidPlot(p)
    ensures |ms| == |p.elements|
  {
    PartitionSizes(p.elements);
    ShapeMarkers(ShapeElements(p.elements))
      + TextMarkers(TextElements(p.elements), p.width, p.height, percentEncode)
  }

  /** `generate_markers`: every entry, joined with `|`. */
  function Markers(p: PlotValue, percentEncode: string -> string): (r: string)
    requires ValidPlot(p)
    ensures |r| >= 4 && r[..4] == "chm="
  {
    "chm=" + Join(MarkerEntries(p, percentEncode), "|")
  }

  /** The markers are exactly "chm=" if and only if the plot has no elements. */
  lemma {:induction false} MarkersEmpty(p: PlotValue, percentEncode: string -> string)
    requires ValidPlot(p)
    ensures Markers(p, percentEncode) == "chm=" <==> |p.elements| == 0
  {
    if |p.elements| > 0 {
      var ms := MarkerEntries(p, percentEncode);
      FirstMarkerNonEmpty(p, percentEncode);
      JoinStarts(ms, "|");
      assert |Markers(p, percentEncode)| > 4;
    }
  }

  lemma {:induction false} FirstMarkerNonEmpty(p: PlotValue, percentEncode: string -> string)
    requires ValidPlot(p) && |p.elements| > 0
    ensures |MarkerEntries(p, percentEncode)[0]| >= 2
  {
    var shapes := ShapeElements(p.elements);
    if |shapes| > 0 {
      assert MarkerEntries(p, percentEncode)[0] == ShapeMarkers(shapes)[0];
    } else {
      var texts := TextElements(p.elements);
      assert MarkerEntries(p, percentEncode)[0] == TextMarkers(texts, p.width, p.height, percentEncode)[0];
    }
  }

  /** A fill marker avoids every character the fill colour avoids, apart from the encoder's own. */
  lemma {:induction false} ShapeMarkerAvoids(fill: Option<string>, i: nat, c: char)
    requires !Plain(c) && c !in ColorText(fill)
    ensures c !in ShapeMarker(fill, i)
  {
    DigitsAreNumeric(NatToString(i), 0);
    NumericAvoids(NatToString(i), c);
    JoinExcludes(ShapeMarkerFields(fill, i), ",", c);
  }

  lemma {:induction false} ToRelativeNumeric(px: real, extent: int)
    requires extent > 0
    ensures NumericText(ToRelative(px, extent))
  {
    FormatFixedIsNumeric(RelativeValue(px, extent), 3);
  }

  /** A label marker avoids every character its escaped text and colour avoid, apart from the encoder's own. */
  lemma {:induction false} TextMarkerAvoids(t: Element, width: int, height: int, percentEncode: string -> string, c: char)
    requires t.Text? && width > 0 && height > 0
    requires !Plain(c) && ElementAvoids(t, percentEncode, c)
    ensures c !in TextMarker(t, width, height, percentEncode)
  {
    var fs := TextMarkerFields(t, width, height, percentEncode);
    var x, y := ToRelative(t.originX, width), ToRelative(t.originY, height);
    ToRelativeNumeric(t.originX, width);
    ToRelativeNumeric(t.originY, height);
    NumericAvoids(x, c);
    NumericAvoids(y, c);
    IntToStringIsNumeric(t.size);
    NumericAvoids(IntToString(t.size), c);
    PlainAvoids(Alignment(t), c);
    assert c !in fs[0] by {
      assert fs[0] == "@t" + Escape(t.text, percentEncode);
    }
    assert c !in fs[3] by {
      assert fs[3] == x + ":" + y;
    }
    assert c !in fs[2] && c !in fs[5];
    assert c !in fs[1] && c !in fs[4] && c !in fs[6];
    forall i | 0 <= i < |fs|
      ensures c !in fs[i]
    {
      assert i == 0 || i == 1 || i == 2 || i == 3 || i == 4 || i == 5 || i == 6;
    }
    JoinExcludes(fs, ",", c);
  }

  lemma {:induction false} MarkerEntriesAvoid(p: PlotValue, percentEncode: string -> string, c: char)
    requires ValidPlot(p) && !Plain(c) && ElementsAvoid(p.elements, percentEncode, c)
    ensures forall i :: 0 <= i < |MarkerEntries(p, percentEncode)| ==> c !in MarkerEntries(p, percentEncode)[i]
  {
    var shapes, texts := ShapeElements(p.elements), TextElements(p.elements);
    PartitionAvoids(p.elements, percentEncode, c);
    ShapeMarkersAvoid(shapes, percentEncode, c);
    TextMarkersAvoid(texts, p.width, p.height, percentEncode, c);
    ConcatAvoids(ShapeMarkers(shapes), TextMarkers(texts, p.width, p.height, percentEncode), c);
  }

  lemma {:induction false} ShapeMarkersAvoid(shapes: seq<Element>, percentEncode: string -> string, c: char)
    requires AllShapes(shapes) && !Plain(c) && ElementsAvoid(shapes, percentEncode, c)
    ensures forall i :: 0 <= i < |shapes| ==> c !in ShapeMarkers(shapes)[i]
  {
    forall i | 0 <= i < |shapes|
      ensures c !in ShapeMarkers(shapes)[i]
    {
      assert ElementAvoids(shapes[i], percentEncode, c);
      ShapeMarkerAvoids(shapes[i].fillColor, i, c);
    }
  }

  lemma {:induction false} TextMarkersAvoid(texts: seq<Element>, width: int, height: int,
                                            percentEncode: string -> string, c: char)
    requires AllTexts(texts) && width > 0 && height > 0
    requires !Plain(c) && ElementsAvoid(texts, percentEncode, c)
    ensures forall i :: 0 <= i < |texts| ==> c !in TextMarkers(texts, width, height, percentEncode)[i]
  {
    forall i | 0 <= i < |texts|
      ensures c !in TextMarkers(texts, width, height, percentEncode)[i]
    {
      assert ElementAvoids(texts[i], percentEncode, c);
      TextMarkerAvoids(texts[i], width, height, percentEncode, c);
    }
  }

  /**
   * When no colour and no escaped label holds `|`, splitting the markers at
   * `|` gives the fill marker of every shape, in order, then the marker of
   * every label, in order.
   */
  lemma {:induction false} MarkersReadBack(p: PlotValue, percentEncode: string -> string)
    requires ValidPlot(p) && |p.elements| > 0
    requires ElementsAvoid(p.elements, percentEncode, '|')
    ensures Split(Markers(p, percentEncode)[4..], '|')
            == ShapeMarkers(ShapeElements(p.elements))
               + TextMarkers(TextElements(p.elements), p.width, p.height, percentEncode)
  {
    MarkerEntriesAvoid(p, percentEncode, '|');
    SplitJoin(MarkerEntries(p, percentEncode), '|');
  }

  /** A fill marker reads back into its fields, and its index field into the shape's index. */
  lemma {:induction false} ShapeMarkerReadBack(fill: Option<string>, i: nat)
    requires ',' !in ColorText(fill)
    ensures Split(ShapeMarker(fill, i), ',') == ["B", ColorText(fill), NatToString(i), "0", "0"]
    ensures DigitsValue(Split(ShapeMarker(fill, i), ',')[2]) == i
  {
    DigitsAreNumeric(NatToString(i), 0);
    SplitJoin(ShapeMarkerFields(fill, i), ',');
    NatToStringRoundTrip(i);
  }

  /**
   * A label marker reads back into its seven fields when neither the escaped
   * text nor the colour holds a comma; the position splits at `:` into the
   * relative x and y, and the last field gives back both alignments.
   */
  lemma {:induction false} TextMarkerReadBack(t: Element, width: int, height: int, percentEncode: string -> string)
    requires t.Text? && width > 0 && height > 0
    requires ',' !in Escape(t.text, percentEncode) && ',' !in t.color
    ensures var fs := Split(TextMarker(t, width, height, percentEncode), ',');
            fs == TextMarkerFields(t, width, height, percentEncode)
            && Split(fs[3], ':') == [ToRelative(t.originX, width), ToRelative(t.originY, height)]
            && fs[4] == IntToString(t.size)
            && ParseAlignment(fs[6]) == Some((t.halign, t.valign))
  {
    var fs := TextMarkerFields(t, width, height, percentEncode);
    var x, y := ToRelative(t.originX, width), ToRelative(t.originY, height);
    ToRelativeNumeric(t.originX, width);
    ToRelativeNumeric(t.originY, height);
    assert forall i :: 0 <= i < 7 ==> ',' !in fs[i] by {
      NumericAvoids(x, ',');
      NumericAvoids(y, ',');
      IntToStringIsNumeric(t.size);
      NumericAvoids(IntToString(t.size), ',');
      assert ',' !in fs[0];
      assert ',' !in fs[3];
      assert ',' !in fs[6];
    }
    SplitJoin(fs, ',');
    assert Split(fs[3], ':') == [x, y] by {
      NumericAvoids(x, ':');
      NumericAvoids(y, ':');
      assert fs[3] == x + [':'] + y;
      SplitAround(x, ':', y);
    }
    AlignmentRoundTrip(t);
  }

  // ---------------------------------------------------------------
  // Background (chf) and dimensions (chs)

  /** A solid background: no second colour, or the same colour twice. */
  predicate SolidBackground(p: PlotValue) {
    p.fillColor2.None? || p.fillColor2.value == p.fillColor1
  }

  /**
   * The fields of `generate_background`: "chf=bg,s,<c1>" for a solid fill,
   * "chf=bg,lg,<angle>,<c1>,0,<c2>,1" for a gradient from `c1` to `c2`.
   */
  function BackgroundFields(p: PlotValue): seq<string>
  {
    if SolidBackground(p) then ["chf=bg", "s", p.fillColor1]
    else ["chf=bg", "lg", IntToString(p.angle), p.fillColor1, "0", p.fillColor2.value, "1"]
  }

  function Background(p: PlotValue): string
  {
    Join(BackgroundFields(p), ",")
  }

  /**
   * The background is the solid form with the first colour exactly when no
   * different second colour is given; otherwise it is a linear gradient.
   */
  lemma {:induction false} BackgroundKind(p: PlotValue)
    ensures SolidBackground(p) <==> Background(p) == "chf=bg,s," + p.fillColor1
    ensures !SolidBackground(p) ==> |Background(p)| >= 10 && Background(p)[..10] == "chf=bg,lg,"
  {
    var fs := BackgroundFields(p);
    assert Background(p) == "chf=bg" + "," + Join(fs[1..], ",");
    if SolidBackground(p) {
      assert Join(fs[1..], ",") == "s" + "," + p.fillColor1;
    } else {
      assert Join(fs[1..], ",") == "lg" + "," + Join(fs[2..], ",");
      assert Background(p)[7] == 'l';
    }
  }

  /** With colours free of commas the background reads back into its fields, the gradient's angle included. */
  lemma {:induction false} BackgroundReadBack(p: PlotValue)
    requires ',' !in p.fillColor1 && (p.fillColor2.Some? ==> ',' !in p.fillColor2.value)
    ensures Split(Background(p), ',') == BackgroundFields(p)
  {
    if !SolidBackground(p) {
      IntToStringIsNumeric(p.angle);
      NumericAvoids(IntToString(p.angle), ',');
    }
    SplitJoin(BackgroundFields(p), ',');
  }

  /** `generate_dimensions`: "chs=<width>x<height>". */
  function Dimensions(p: PlotValue): (r: string)
    ensures |r| >= 4 && r[..4] == "chs="
  {
    "chs=" + IntToString(p.width) + "x" + IntToString(p.height)
  }

  /** The size reads back: width and height are the numbers either side of the `x`. */
  lemma {:induction false} DimensionsReadBack(p: PlotValue)
    requires ValidPlot(p)
    ensures var fields := Split(Dimensions(p)[4..], 'x');
            |fields| == 2 && AllDigits(fields[0]) && AllDigits(fields[1])
            && DigitsValue(fields[0]) == p.width && DigitsValue(fields[1]) == p.height
  {
    var w, h := NatToString(p.width), NatToString(p.height);
    assert Dimensions(p)[4..] == w + ['x'] + h;
    SplitAround(w, 'x', h);
    NatToStringRoundTrip(p.width);
    NatToStringRoundTrip(p.height);
  }

  /** The size avoids every character outside the encoder's own. */
  lemma {:induction false} DimensionsAvoid(p: PlotValue, c: char)
    requires !Plain(c)
    ensures c !in Dimensions(p)
  {
    IntToStringIsNumeric(p.width);
    IntToStringIsNumeric(p.height);
    NumericAvoids(IntToString(p.width), c);
    NumericAvoids(IntToString(p.height), c);
    PlainAvoids("chs=", c);
    PlainAvoids("x", c);
  }

  /** The background avoids every character its colours avoid, apart from the encoder's own. */
  lemma {:induction false} BackgroundAvoid(p: PlotValue, c: char)
    requires !Plain(c) && c !in p.fillColor1 && (p.fillColor2.Some? ==> c !in p.fillColor2.value)
    ensures c !in Background(p)
  {
    IntToStringIsNumeric(p.angle);
    NumericAvoids(IntToString(p.angle), c);
    PlainAvoids("chf=bg", c);
    JoinExcludes(BackgroundFields(p), ",", c);
  }

  // ---------------------------------------------------------------
  // The query string

  /** `inhibit_axes`: the two axis parameters, joined with `&`. */
  const InhibitAxes := AxesOn + "&" + AxesStyle

  /** The parameters of `generate_uri`, in their fixed order. */
  function UriParts(p: PlotValue, percentEncode: string -> string): seq<string>
    requires ValidPlot(p)
  {
    [ChartService + "?" + ChartType, Dimensions(p), InhibitAxes,
     LineColors(OutlineColors(p.elements)), Lines(p), Markers(p, percentEncode), Background(p)]
  }

  /** `generate_uri`: the parameters joined with `&`. */
  function Uri(p: PlotValue, percentEncode: string -> string): string
    requires ValidPlot(p)
  {
    Join(UriParts(p, percentEncode), "&")
  }

  /** The parameters a reader finds between the `&`s: the axis pair counts as two. */
  function UriFields(p: PlotValue, percentEncode: string -> string): (fs: seq<string>)
    requires ValidPlot(p)
    ensures |fs| == 8
  {
    [ChartService + "?" + ChartType, Dimensions(p), AxesOn, AxesStyle,
     LineColors(OutlineColors(p.elements)), Lines(p), Markers(p, percentEncode), Background(p)]
  }

  /** The caller-supplied text of a plot (fill colours, outline colours, escaped labels) avoids `c`. */
  predicate PlotAvoids(p: PlotValue, percentEncode: string -> string, c: char) {
    c !in p.fillColor1 && (p.fillColor2.Some? ==> c !in p.fillColor2.value)
    && ElementsAvoid(p.elements, percentEncode, c)
  }

  lemma {:induction false} UriIsFieldsJoined(p: PlotValue, percentEncode: string -> string)
    requires ValidPlot(p)
    ensures Uri(p, percentEncode) == Join(UriFields(p, percentEncode), "&")
  {
    var ps := UriParts(p, percentEncode);
    JoinSplice(ps[..2], AxesOn, AxesStyle, ps[3..], "&");
    assert ps == ps[..2] + [AxesOn + "&" + AxesStyle] + ps[3..];
    assert ps[..2] + [AxesOn, AxesStyle] + ps[3..] == UriFields(p, percentEncode);
  }

  /** The outline colours of a plot avoid whatever its shapes' colours avoid. */
  lemma {:induction false} LineColorsAvoid(es: seq<Element>, percentEncode: string -> string, c: char)
    requires !Plain(c) && c != '|' && ElementsAvoid(es, percentEncode, c)
    ensures c !in LineColors(OutlineColors(es))
  {
    var shapes := ShapeElements(es);
    var cs := OutlineColors(es);
    PartitionAvoids(es, percentEncode, c);
    PlainAvoids("chco=", c);
    PlainAvoids(TransparentOutline, c);
    forall i | 0 <= i < |cs|
      ensures c !in ColorText(cs[i])
    {
      assert ElementAvoids(shapes[i], percentEncode, c);
    }
    JoinExcludes(ColorTexts(cs), "|", c);
  }

  lemma {:induction false} LinesAvoid(p: PlotValue, c: char)
    requires ValidPlot(p) && !Plain(c) && c != '|'
    ensures c !in Lines(p)
  {
    var shapes := ShapeElements(p.elements);
    var groups := CoordGroups(shapes, p.width, p.height);
    forall k | 0 <= k < |groups|
      ensures c !in groups[k]
    {
      ShapeCoordsAvoid(shapes[k], p.width, p.height, c);
    }
    JoinExcludes(groups, "|", c);
    PlainAvoids("chd=t:", c);
    PlainAvoids("0", c);
  }

  lemma {:induction false} MarkersAvoid(p: PlotValue, percentEncode: string -> string, c: char)
    requires ValidPlot(p) && !Plain(c) && c != '|' && ElementsAvoid(p.elements, percentEncode, c)
    ensures c !in Markers(p, percentEncode)
  {
    MarkerEntriesAvoid(p, percentEncode, c);
    JoinExcludes(MarkerEntries(p, percentEncode), "|", c);
    PlainAvoids("chm=", c);
  }

  lemma {:induction false} ServicePlain()
    ensures AllPlain(ChartService + "?" + ChartType)
  {
  }

  /** The axis settings avoid every character but the encoder's own and `|`. */
  lemma {:induction false} AxesAvoid(c: char)
    requires !Plain(c) && c != '|'
    ensures c !in AxesOn && c !in AxesStyle
  {
    var a, b := "chxs=0,000000,0,0,_", "1,000000,0,0,_";
    assert AllPlain(a) && AllPlain(b) && AllPlain(AxesOn);
    assert AxesStyle == a + "|" + b;
    PlainAvoids(a, c);
    PlainAvoids(b, c);
    PlainAvoids(AxesOn, c);
  }

  /** Every parameter avoids whatever the plot's own text avoids, apart from the encoder's characters. */
  lemma {:induction false} UriFieldsAvoid(p: PlotValue, percentEncode: string -> string, c: char)
    requires ValidPlot(p) && !Plain(c) && c != '|' && PlotAvoids(p, percentEncode, c)
    ensures forall i :: 0 <= i < 8 ==> c !in UriFields(p, percentEncode)[i]
  {
    var fs := UriFields(p, percentEncode);
    assert c !in fs[0] by {
      ServicePlain();
      PlainAvoids(ChartService + "?" + ChartType, c);
    }
    assert c !in fs[1] by {
      DimensionsAvoid(p, c);
    }
    assert c !in fs[2] && c !in fs[3] by {
      AxesAvoid(c);
    }
    assert c !in fs[4] by {
      LineColorsAvoid(p.elements, percentEncode, c);
    }
    assert c !in fs[5] by {
      LinesAvoid(p, c);
    }
    assert c !in fs[6] by {
      MarkersAvoid(p, percentEncode, c);
    }
    assert c !in fs[7] by {
      BackgroundAvoid(p, c);
    }
  }

  /**
   * When no colour and no escaped label holds `&`, splitting the query string
   * at `&` gives back every parameter, in the fixed order: service and chart
   * type, size, the two axis settings, outline colours, geometry, markers and
   * background.
   */
  lemma {:induction false} UriReadBack(p: PlotValue, percentEncode: string -> string)
    requires ValidPlot(p) && PlotAvoids(p, percentEncode, '&')
    ensures Split(Uri(p, percentEncode), '&') == UriFields(p, percentEncode)
  {
    AmpersandNotPlain();
    UriIsFieldsJoined(p, percentEncode);
    UriFieldsAvoid(p, percentEncode, '&');
    JoinedReadsBack(Uri(p, percentEncode), UriFields(p, percentEncode), '&');
  }

  lemma {:induction false} AmpersandNotPlain()
    ensures !Plain('&')
  {
  }

  /** `SplitJoin` for a string already known to be the join, so that callers need not unfold it. */
  lemma {:induction false} JoinedReadsBack(u: string, fs: seq<string>, c: char)
    requires |fs| > 0 && u == Join(fs, [c])
    requires forall i :: 0 <= i < |fs| ==> c !in fs[i]
    ensures Split(u, c) == fs
  {
    SplitJoin(fs, c);
  }

  /** A query string avoids whatever the plot's text avoids, apart from the encoder's characters. */
  lemma {:induction false} UriAvoids(p: PlotValue, percentEncode: string -> string, c: char)
    requires ValidPlot(p) && !Plain(c) && c != '|' && c != '&' && PlotAvoids(p, percentEncode, c)
    ensures c !in Uri(p, percentEncode)
  {
    UriIsFieldsJoined(p, percentEncode);
    UriFieldsAvoid(p, percentEncode, c);
    JoinExcludes(UriFields(p, percentEncode), "&", c);
  }

  /** What a plot created with no options holds before anything is added. */
  const EmptyPlot := PlotValue(300, 300, "ffffff", None, 0, [])

  /**
   * The query string of an empty default plot: every parameter takes its
   * sentinel (transparent outlines, the placeholder line "0|0", no markers)
   * and the background is solid white.
   */
  lemma {:induction false} EmptyPlotUri(percentEncode: string -> string)
    ensures Split(Uri(EmptyPlot, percentEncode), '&')
            == [ChartService + "?" + ChartType, "chs=300x300", AxesOn, AxesStyle,
                "chco=ffffff00", "chd=t:0|0", "chm=", "chf=bg,s,ffffff"]
  {
    UriReadBack(EmptyPlot, percentEncode);
    EmptyPlotSize();
    EmptyPlotContents(percentEncode);
  }

  lemma {:induction false} EmptyPlotSize()
    ensures Dimensions(EmptyPlot) == "chs=300x300"
  {
    assert NatToString(300) == "300" by {
      assert NatToString(3) == "3";
      assert NatToString(30) == "30";
    }
  }

  lemma {:induction false} EmptyPlotContents(percentEncode: string -> string)
    ensures LineColors(OutlineColors([])) == "chco=ffffff00"
    ensures Lines(EmptyPlot) == "chd=t:0|0"
    ensures Markers(EmptyPlot, percentEncode) == "chm="
    ensures Background(EmptyPlot) == "chf=bg,s,ffffff"
  {
    EmptyPlotColors();
    EmptyPlotLines();
    MarkersEmpty(EmptyPlot, percentEncode);
    EmptyPlotBackground();
  }

  lemma {:induction false} EmptyPlotColors()
    ensures LineColors(OutlineColors([])) == "chco=ffffff00"
  {
    assert AllNone(OutlineColors([]));
  }

  lemma {:induction false} EmptyPlotLines()
    ensures Lines(EmptyPlot) == "chd=t:0|0"
  {
    assert ShapeElements(EmptyPlot.elements) == [];
    LinesEmpty(EmptyPlot);
  }

  lemma {:induction false} EmptyPlotBackground()
    ensures Background(EmptyPlot) == "chf=bg,s,ffffff"
  {
    BackgroundKind(EmptyPlot);
  }

  /** The fields of `generate_img_uri` between its double quotes. */
  function ImgFields(uri: string, width: int, height: int): seq<string>
  {
    ["src=", uri, " width=", IntToString(width), " height=", IntToString(height), ""]
  }

  /** `generate_img_uri`: `src="<uri>" width="<width>" height="<height>"`. */
  function ImgUri(p: PlotValue, percentEncode: string -> string): string
    requires ValidPlot(p)
  {
    Join(ImgFields(Uri(p, percentEncode), p.width, p.height), "\"")
  }

  /** Attributes around a query string without double quotes read back into it, the width and the height. */
  lemma {:induction false} ImgFieldsReadBack(uri: string, width: int, height: int)
    requires '"' !in uri && width > 0 && height > 0
    ensures var fs := Split(Join(ImgFields(uri, width, height), "\""), '"');
            |fs| == 7 && fs[0] == "src=" && fs[1] == uri
            && fs[2] == " width=" && AllDigits(fs[3]) && DigitsValue(fs[3]) == width
            && fs[4] == " height=" && AllDigits(fs[5]) && DigitsValue(fs[5]) == height
  {
    var fs := ImgFields(uri, width, height);
    IntToStringIsNumeric(width);
    IntToStringIsNumeric(height);
    NumericAvoids(IntToString(width), '"');
    NumericAvoids(IntToString(height), '"');
    SplitJoin(fs, '"');
    NatToStringRoundTrip(width);
    NatToStringRoundTrip(height);
  }

  /**
   * When the plot's text holds no double quote, the attributes read back: the
   * query string between the first pair of quotes, then width and height.
   */
  lemma {:induction false} ImgUriReadBack(p: PlotValue, percentEncode: string -> string)
    requires ValidPlot(p) && PlotAvoids(p, percentEncode, '"')
    ensures var fs := Split(ImgUri(p, percentEncode), '"');
            |fs| == 7 && fs[0] == "src=" && fs[1] == Uri(p, percentEncode)
            && fs[2] == " width=" && AllDigits(fs[3]) && DigitsValue(fs[3]) == p.width
            && fs[4] == " height=" && AllDigits(fs[5]) && DigitsValue(fs[5]) == p.height
  {
    UriAvoids(p, percentEncode, '"');
    ImgFieldsReadBack(Uri(p, percentEncode), p.width, p.height);
  }
}
