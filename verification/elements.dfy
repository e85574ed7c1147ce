/**
 * The plottable elements: polygons (`Shape`) and labels (`Text`), both placed
 * at an origin in pixel space. They are values: fixed once constructed.
 */
module Elements {
  import opened Wrappers

  /** An offset `[dx, dy]` from the element's origin, in pixels. */
  datatype Point = Point(dx: real, dy: real)

  datatype HAlign = Left | Center | Right
  datatype VAlign = Bottom | Middle | Top

  /** A graphic element: a polygon or a label, each with its origin. */
  datatype Element =
    | Shape(originX: real, originY: real, points: seq<Point>,
            outlineColor: Option<string>, fillColor: Option<string>)
    | Text(originX: real, originY: real, text: string, size: int, color: string,
           halign: HAlign, valign: VAlign)

  /** The options a shape is created with (absent entries are `nil`). */
  datatype ShapeOptions = ShapeOptions(outlineColor: Option<string>, fillColor: Option<string>)

  /** The options a label is created with (absent entries take their defaults). */
  datatype TextOptions = TextOptions(size: Option<int>, color: Option<string>,
                                     halign: Option<HAlign>, valign: Option<VAlign>)

  const NoShapeOptions := ShapeOptions(None, None)
  const NoTextOptions := TextOptions(None, None, None, None)

  const DefaultTextSize := 12
  const DefaultTextColor := "000000"

  /** A point list whose last point is its first one; an empty list counts as closed. */
  predicate Closed(points: seq<Point>) {
    |points| == 0 || points[0] == points[|points| - 1]
  }

  /** Appends the first point unless it is already the last one. */
  function ClosePolygon(points: seq<Point>): (r: seq<Point>)
    ensures Closed(r)
    ensures |points| <= |r| <= |points| + 1 && r[..|points|] == points
    ensures Closed(points) <==> r == points
  {
    if Closed(points) then points else points + [points[0]]
  }

  /** Closing a polygon twice is closing it once. */
  lemma {:induction false} ClosePolygonIdempotent(points: seq<Point>)
    ensures ClosePolygon(ClosePolygon(points)) == ClosePolygon(points)
  {
  }

  /**
   * `Shape.new(x, y, points, opts)`: a missing point list becomes empty, the
   * colours come from the options, and the polygon is closed.
   */
  function NewShape(originX: real, originY: real, points: Option<seq<Point>>, opts: ShapeOptions): (e: Element)
    ensures e.Shape? && e.originX == originX && e.originY == originY
    ensures e.outlineColor == opts.outlineColor && e.fillColor == opts.fillColor
    ensures Closed(e.points)
    ensures points.None? ==> e.points == []
    ensures points.Some? && Closed(points.value) ==> e.points == points.value
    ensures points.Some? && !Closed(points.value) ==>
              |e.points| == |points.value| + 1 && e.points[..|points.value|] == points.value
              && e.points[|points.value|] == points.value[0]
  {
    Shape(originX, originY, ClosePolygon(points.GetOr([])), opts.outlineColor, opts.fillColor)
  }

  /** `Text.new(x, y, text, opts)`: every absent option takes its default. */
  function NewText(originX: real, originY: real, text: Option<string>, opts: TextOptions): (e: Element)
    ensures e.Text? && e.originX == originX && e.originY == originY
    ensures e.text == (if text.Some? then text.value else "")
    ensures e.size == (if opts.size.Some? then opts.size.value else DefaultTextSize)
    ensures e.color == (if opts.color.Some? then opts.color.value else DefaultTextColor)
    ensures e.halign == (if opts.halign.Some? then opts.halign.value else Left)
    ensures e.valign == (if opts.valign.Some? then opts.valign.value else Bottom)
  {
    Text(originX, originY, text.GetOr(""), opts.size.GetOr(DefaultTextSize),
         opts.color.GetOr(DefaultTextColor), opts.halign.GetOr(Left), opts.valign.GetOr(Bottom))
  }

  /** The protocol letter of a horizontal alignment. */
  function HAlignCode(h: HAlign): char
  {
    match h
    case Left => 'l'
    case Center => 'h'
    case Right => 'r'
  }

  /** The protocol letter of a vertical alignment. */
  function VAlignCode(v: VAlign): char
  {
    match v
    case Bottom => 'b'
    case Middle => 'v'
    case Top => 't'
  }

  /** The two-letter alignment code of a label: horizontal letter, then vertical letter. */
  function Alignment(e: Element): (code: string)
    requires e.Text?
    ensures |code| == 2
    ensures code[0] in "lhr" && code[1] in "bvt"
  {
    [HAlignCode(e.halign), VAlignCode(e.valign)]
  }

  /** Reads an alignment code back into the two alignments, if it is one. */
  function ParseAlignment(code: string): Option<(HAlign, VAlign)>
  {
    if |code| != 2 then None
    else
      var h := if code[0] == 'l' then Some(Left) else if code[0] == 'h' then Some(Center)
               else if code[0] == 'r' then Some(Right) else None;
      var v := if code[1] == 'b' then Some(Bottom) else if code[1] == 'v' then Some(Middle)
               else if code[1] == 't' then Some(Top) else None;
      if h.Some? && v.Some? then Some((h.value, v.value)) else None
  }

  /** The alignment code determines both alignments: no two labels with different alignments share a code. */
  lemma {:induction false} AlignmentRoundTrip(e: Element)
    requires e.Text?
    ensures ParseAlignment(Alignment(e)) == Some((e.halign, e.valign))
  {
  }

  /** A label created with no options is 12 pixels, black, aligned left and bottom ("lb"). */
  lemma {:induction false} TextDefaults(originX: real, originY: real, text: Option<string>)
    ensures var e := NewText(originX, originY, text, NoTextOptions);
            e.size == 12 && e.color == "000000" && Alignment(e) == "lb"
  {
  }

  /**
   * A square given by its four corners, as in the documented usage, is closed
   * by repeating the first corner: the shape has five points.
   */
  lemma {:induction false} SquareClosed()
    ensures var corners := [Point(-130.0, -130.0), Point(130.0, -130.0), Point(130.0, 130.0), Point(-130.0, 130.0)];
            var e := NewShape(150.0, 150.0, Some(corners), ShapeOptions(None, Some("ccccff")));
            e.points == corners + [Point(-130.0, -130.0)] && |e.points| == 5
  {
    var corners := [Point(-130.0, -130.0), Point(130.0, -130.0), Point(130.0, 130.0), Point(-130.0, 130.0)];
    assert !Closed(corners) by {
      assert corners[0] != corners[3];
    }
  }
}
