/** The pad parser (`parse_pad`): one footprint pad to a render-ready pad
    record, or nothing when its shape is not supported. */
module Pads {
  import opened Base
  import opened Board
  import opened Shapes

  datatype PadShapeName = ShapeRect | ShapeOval | ShapeCircle | ShapeRoundRect | ShapeCustom

  datatype DrillShapeName = CircleDrill | OblongDrill

  /** "th" (through-hole, with drill shape and size) or "smd". The drill shape
      is absent (`None` in the document) for a code outside the lookup. */
  datatype Mount = Th(drillShape: Option<DrillShapeName>, drillSize: Point) | Smd

  /** A pad record. `pin1` stands for the presence of the "pin1" key;
      `polygons`, `radius` and `offset` are absent keys when None. */
  datatype PadRecord = PadRecord(
    layers: seq<Side>,
    pos: Point,
    size: Point,
    angle: int,
    shape: PadShapeName,
    pin1: bool,
    polygons: Option<PolySet>,
    radius: Option<int>,
    mount: Mount,
    offset: Option<Point>
  )

  /** The shape lookup table; round-rect and custom exist only on board
      models that define those shape constants. */
  function ShapeLookup(api: Api, code: PadShapeCode): (r: Option<PadShapeName>)
    ensures r.None? <==>
      || code.PadUnsupported?
      || (code.PadRoundRect? && !api.hasRoundRect)
      || (code.PadCustom? && !api.hasCustomPad)
  {
    match code
    case PadRect => Some(ShapeRect)
    case PadOval => Some(ShapeOval)
    case PadCircle => Some(ShapeCircle)
    case PadRoundRect => if api.hasRoundRect then Some(ShapeRoundRect) else None
    case PadCustom => if api.hasCustomPad then Some(ShapeCustom) else None
    case PadUnsupported(_) => None
  }

  /** The copper sides a pad is on: front first, each at most once. */
  function PadLayers(layerSet: set<Layer>): (r: seq<Side>)
    ensures F in r <==> FCu in layerSet
    ensures B in r <==> BCu in layerSet
    ensures |r| <= 2 && (|r| == 2 ==> r == [F, B])
  {
    (if FCu in layerSet then [F] else []) + (if BCu in layerSet then [B] else [])
  }

  /** The drill shape lookup. */
  function DrillShapeLookup(code: DrillShapeCode): (r: Option<DrillShapeName>)
    ensures r.None? <==> code.DrillUnknown?
  {
    match code
    case DrillCircle => Some(CircleDrill)
    case DrillOblong => Some(OblongDrill)
    case DrillUnknown(_) => None
  }

  /** Plated (standard) and non-plated holes are through-hole pads. */
  predicate IsThroughHole(attribute: PadAttribute) {
    attribute == PadStandard || attribute == PadHoleNotPlated
  }

  /** `parse_pad`. The angle is the orientation with its sign inverted,
      unlike drawing rotations. */
  function ParsePad(api: Api, pad: Pad): (r: Option<PadRecord>)
    ensures r.None? <==> ShapeLookup(api, pad.shape).None?
    ensures r.Some? ==>
      && r.value.shape == ShapeLookup(api, pad.shape).value
      && r.value.layers == PadLayers(pad.layerSet)
      && r.value.pos == pad.position && r.value.size == pad.size
      && (F in r.value.layers <==> FCu in pad.layerSet)
      && (B in r.value.layers <==> BCu in pad.layerSet)
      && r.value.angle == -pad.orientation
      && (r.value.pin1 <==> pad.name == "1" || pad.name == "A1")
    ensures r.Some? ==>
      && (r.value.polygons.Some? <==> r.value.shape == ShapeCustom)
      && (r.value.polygons.Some? ==> r.value.polygons.value == PolySetOutlines(api, pad.customShape))
      && (r.value.radius.Some? <==> r.value.shape == ShapeRoundRect)
      && (r.value.radius.Some? ==> r.value.radius.value == pad.cornerRadius)
      && (r.value.offset.Some? <==> api.hasOffset)
      && (r.value.offset.Some? ==> r.value.offset.value == pad.offset)
    ensures r.Some? ==>
      && (r.value.mount.Th? <==> IsThroughHole(pad.attribute))
      && (r.value.mount.Th? ==>
            && r.value.mount.drillSize == pad.drillSize
            && r.value.mount.drillShape == DrillShapeLookup(pad.drillShape)
            && (r.value.mount.drillShape.None? <==> pad.drillShape.DrillUnknown?))
  {
    var shape := ShapeLookup(api, pad.shape);
    if shape.None? then None
    else
      var polygons := if shape.value == ShapeCustom then Some(PolySetOutlines(api, pad.customShape)) else None;
      var radius := if shape.value == ShapeRoundRect then Some(pad.cornerRadius) else None;
      var mount :=
        if IsThroughHole(pad.attribute) then Th(DrillShapeLookup(pad.drillShape), pad.drillSize)
        else Smd;
      var offset := if api.hasOffset then Some(pad.offset) else None;
      Some(PadRecord(PadLayers(pad.layerSet), pad.position, pad.size, -pad.orientation, shape.value,
                     pad.name == "1" || pad.name == "A1", polygons, radius, mount, offset))
  }
}
