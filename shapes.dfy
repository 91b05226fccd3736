/** The shape parser: one drawing primitive to one render-ready record, or
    nothing when the primitive is not supported (`parse_draw_segment`,
    `parse_poly_set`, `parse_text`, `parse_drawing`).

    Coordinates and lengths stay in nanometres and angles in tenths of a
    degree; the document's scaling to millimetres and degrees is a uniform
    multiplication and is not modelled. */
module Shapes {
  import opened Base
  import opened Board

  /** The polygon "angle" field. With a parent footprint the source builds a
      one-element tuple (a trailing comma), otherwise the number 0. */
  datatype PolyAngle = Unrotated | OneTuple(tenths: int)

  /** A render-ready drawing record. */
  datatype Drawing =
    | Segment(start: Point, end: Point, width: int)
    | Circle(start: Point, radius: int, width: int)
    | Arc(start: Point, radius: int, startAngle: int, endAngle: int, width: int)
    | Polygon(pos: Point, polyAngle: PolyAngle, polygons: PolySet)
    | Text(pos: Point, text: string, height: int, width: int, horizJustify: int, angle: int)

  /** What `parse_poly_set` returns: every outline with every point, in
      order, or nothing when outlines cannot be walked (no PointCount). */
  function PolySetOutlines(api: Api, polygons: PolySet): PolySet {
    if api.hasPointCount || polygons == [] then polygons else []
  }

  /** `parse_poly_set`: walks every outline and every point. */
  method ParsePolySet(api: Api, polygons: PolySet) returns (result: PolySet)
    ensures result == PolySetOutlines(api, polygons)
    ensures |result| <= |polygons|
    ensures forall i :: 0 <= i < |result| ==> result[i] == polygons[i]
  {
    result := [];
    var p := 0;
    while p < |polygons|
      invariant 0 <= p <= |polygons|
      invariant result == polygons[..p]
      invariant !api.hasPointCount ==> p == 0
    {
      var outline := polygons[p];
      if !api.hasPointCount {
        return;
      }
      var parsed: seq<Point> := [];
      var q := 0;
      while q < |outline|
        invariant 0 <= q <= |outline|
        invariant parsed == outline[..q]
      {
        parsed := parsed + [outline[q]];
        q := q + 1;
      }
      assert parsed == outline;
      result := result + [parsed];
      p := p + 1;
    }
    assert polygons[..p] == polygons;
  }

  /** The arc's angular interval: `(start, start + sweep)`, swapped when the
      sweep is negative. The result is the interval between the two ends,
      lower end first, whatever the sweep direction. */
  function ArcAngles(start: int, sweep: int): (r: (int, int))
    ensures r.0 <= r.1
    ensures multiset{r.0, r.1} == multiset{start, start + sweep}
    ensures r.1 - r.0 == if sweep < 0 then -sweep else sweep
    ensures r.0 == start <==> sweep >= 0
  {
    var a1 := start;
    var a2 := start + sweep;
    if sweep < 0 then (a2, a1) else (a1, a2)
  }

  /** `parse_draw_segment`: segments, circles, arcs and polygons; any other
      shape code, and polygons on a board model without GetPolyShape, give
      nothing. `parentOrientation` is the owning footprint's orientation, if any. */
  function ParseDrawSegment(api: Api, g: Graphic, parentOrientation: Option<int>): (r: Option<Drawing>)
    ensures r.None? <==> g.shape.SUnsupported? || (g.shape.SPolygon? && !api.hasPolyShape)
    ensures r.Some? ==> !r.value.Text?
    ensures r.Some? ==> (r.value.Segment? <==> g.shape.SSegment?)
    ensures r.Some? ==> (r.value.Circle? <==> g.shape.SCircle?)
    ensures r.Some? ==> (r.value.Arc? <==> g.shape.SArc?)
    ensures r.Some? && r.value.Segment? ==> r.value == Segment(g.start, g.end, g.width)
    ensures r.Some? && r.value.Circle? ==> r.value == Circle(g.start, g.radius, g.width)
    ensures r.Some? && r.value.Arc? ==>
      && r.value.start == g.start && r.value.radius == g.radius && r.value.width == g.width
      && (r.value.startAngle, r.value.endAngle) == ArcAngles(g.arcAngleStart, g.angle)
    ensures r.Some? && r.value.Polygon? ==>
      && r.value.pos == g.start
      && r.value.polygons == PolySetOutlines(api, g.polyShape)
      && (r.value.polyAngle.OneTuple? <==> parentOrientation.Some?)
      && (r.value.polyAngle.OneTuple? ==> r.value.polyAngle.tenths == parentOrientation.value)
  {
    match g.shape
    case SUnsupported(_) => None
    case SSegment => Some(Segment(g.start, g.end, g.width))
    case SCircle => Some(Circle(g.start, g.radius, g.width))
    case SArc =>
      var (a1, a2) := ArcAngles(g.arcAngleStart, g.angle);
      Some(Arc(g.start, g.radius, a1, a2, g.width))
    case SPolygon =>
      if !api.hasPolyShape then None
      else
        var angle := if parentOrientation.Some? then OneTuple(parentOrientation.value) else Unrotated;
        Some(Polygon(g.start, angle, PolySetOutlines(api, g.polyShape)))
  }

  /** `parse_text`: an invisible text gives nothing. Module text takes its
      rotation from GetDrawRotation; board text from GetTextAngle, or
      GetOrientation on older versions. Newer accessors win where present. */
  function ParseText(api: Api, t: TextData, isModuleText: bool): (r: Option<Drawing>)
    ensures r.Some? <==> t.visible
    ensures r.Some? ==> r.value.Text? && r.value.pos == t.position && r.value.horizJustify == t.horizJustify
    ensures r.Some? ==> r.value.text == (if api.hasShownText then t.shownText else t.text)
    ensures r.Some? && isModuleText ==> r.value.angle == t.drawRotation
    ensures r.Some? && !isModuleText ==> r.value.angle == (if api.hasTextAngle then t.textAngle else t.orientation)
    ensures r.Some? ==> r.value.height == (if api.hasTextHeight then t.textHeight else t.height)
    ensures r.Some? ==> r.value.width == (if api.hasTextHeight then t.textWidth else t.width)
  {
    if !t.visible then None
    else
      var angle :=
        if isModuleText then t.drawRotation
        else if api.hasTextAngle then t.textAngle
        else t.orientation;
      var height := if api.hasTextHeight then t.textHeight else t.height;
      var width := if api.hasTextHeight then t.textWidth else t.width;
      var text := if api.hasShownText then t.shownText else t.text;
      Some(Text(t.position, text, height, width, t.horizJustify, angle))
  }

  /** `parse_drawing`: dispatch on the class name; any other class gives nothing. */
  function ParseDrawing(api: Api, d: Item): (r: Option<Drawing>)
    ensures d.DrawSegment? ==> r == ParseDrawSegment(api, d.g, None)
    ensures d.ModuleGraphic? ==> r == ParseDrawSegment(api, d.g, Some(d.moduleOrientation))
    ensures d.BoardText? ==> r == ParseText(api, d.t, false)
    ensures d.ModuleText? ==> r == ParseText(api, d.t, true)
    ensures d.OtherItem? ==> r.None?
    ensures r.Some? && r.value.Text? <==> (d.BoardText? || d.ModuleText?) && d.t.visible
    ensures (d.DrawSegment? || d.ModuleGraphic?) ==> (r.None? <==> d.g.shape.SUnsupported? || (d.g.shape.SPolygon? && !api.hasPolyShape))
  {
    match d
    case DrawSegment(_, g) => ParseDrawSegment(api, g, None)
    case ModuleGraphic(_, g, orientation) => ParseDrawSegment(api, g, Some(orientation))
    case BoardText(_, t) => ParseText(api, t, false)
    case ModuleText(_, t) => ParseText(api, t, true)
    case OtherItem(_) => None
  }

  /** An arc from 0 with sweep -90 degrees becomes the interval -90..0 degrees. */
  lemma ArcNegativeSweep()
    ensures ArcAngles(0, -900) == (-900, 0)
  {
  }

  /** Swapping loses only the direction: sweeps of equal size, opposite sign
      and opposite ends give the same interval. */
  lemma ArcDirectionDiscarded(start: int, sweep: int)
    ensures ArcAngles(start, sweep) == ArcAngles(start + sweep, -sweep)
  {
  }
}
