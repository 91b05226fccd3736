/** A read-only snapshot of the board model (the `pcbnew` objects the
    generator reads). The values the accessors return are fields; the class
    name (GetClass) and the parent footprint (GetParentModule) choose the Item
    constructor; which accessors exist depends on the KiCad version, recorded
    in Api. */
module Board {
  import opened Base

  /** Board layers the generator distinguishes; every other layer is OtherLayer. */
  datatype Layer = FCu | BCu | FSilkS | BSilkS | EdgeCuts | OtherLayer(id: int)

  /** Which version-dependent accessors the board model offers (`hasattr` probes). */
  datatype Api = Api(
    hasPolyShape: bool,      // DRAWSEGMENT.GetPolyShape
    hasPointCount: bool,     // SHAPE_LINE_CHAIN.PointCount
    hasTextAngle: bool,      // TEXTE_PCB.GetTextAngle
    hasTextHeight: bool,     // GetTextHeight / GetTextWidth
    hasShownText: bool,      // GetShownText
    hasRoundRect: bool,      // pcbnew.PAD_SHAPE_ROUNDRECT
    hasCustomPad: bool,      // pcbnew.PAD_SHAPE_CUSTOM
    hasOffset: bool          // D_PAD.GetOffset
  )

  /** A polygon set: its outlines, each an ordered chain of points. */
  type PolySet = seq<seq<Point>>

  /** The stroke shape code of a graphic segment (STROKE_T). */
  datatype ShapeCode = SSegment | SCircle | SArc | SPolygon | SUnsupported(code: int)

  /** The geometry of a DRAWSEGMENT or EDGE_MODULE object; lengths in nanometres,
      angles in tenths of a degree, as the board model gives them. */
  datatype Graphic = Graphic(
    shape: ShapeCode,
    start: Point,
    end: Point,
    width: int,
    radius: int,
    arcAngleStart: int,
    angle: int,              // GetAngle: the arc's signed sweep
    polyShape: PolySet
  )

  /** A text object: TEXTE_PCB ("PTEXT") or TEXTE_MODULE ("MTEXT"). */
  datatype TextData = TextData(
    visible: bool,
    position: Point,
    drawRotation: int,       // GetDrawRotation, read for module text
    textAngle: int,          // GetTextAngle
    orientation: int,        // GetOrientation, older API
    textHeight: int,
    textWidth: int,
    height: int,             // GetHeight, older API
    width: int,              // GetWidth, older API
    shownText: string,
    text: string,
    horizJustify: int
  )

  /** A drawing primitive, by the class name the board model reports. */
  datatype Item =
    | DrawSegment(layer: Layer, g: Graphic)                      // "DRAWSEGMENT", on the board
    | ModuleGraphic(layer: Layer, g: Graphic, moduleOrientation: int) // "MGRAPHIC", in a footprint
    | BoardText(layer: Layer, t: TextData)                       // "PTEXT"
    | ModuleText(layer: Layer, t: TextData)                      // "MTEXT"
    | OtherItem(layer: Layer)                                    // any other class (dimensions, targets, ...)

  datatype PadShapeCode = PadRect | PadOval | PadCircle | PadRoundRect | PadCustom
                        | PadUnsupported(code: int)   // trapezoid and any other code

  datatype PadAttribute = PadStandard | PadSmd | PadConn | PadHoleNotPlated

  datatype DrillShapeCode = DrillCircle | DrillOblong | DrillUnknown(code: int)

  /** A D_PAD. */
  datatype Pad = Pad(
    name: string,
    layerSet: set<Layer>,
    position: Point,
    size: Point,
    orientation: int,
    shape: PadShapeCode,
    customShape: PolySet,    // GetCustomShapeAsPolygon
    cornerRadius: int,       // GetRoundRectCornerRadius
    attribute: PadAttribute,
    drillShape: DrillShapeCode,
    drillSize: Point,
    offset: Point
  )

  /** A MODULE (footprint). `footprintName` is GetFPID().GetFootprintName(), or
      GetLibItemName() on versions that lack the former. */
  datatype Module = Module(
    reference: string,
    value: string,
    footprintName: string,
    attributes: int,
    layer: Layer,
    center: Point,
    rectPosition: Point,
    rectSize: Point,
    referenceText: Item,     // Reference(): the reference label, an "MTEXT"
    valueText: Item,         // Value(): the value label, an "MTEXT"
    graphics: seq<Item>,     // GraphicalItems()
    pads: seq<Pad>
  )

  /** A BOARD: its board-level drawings and its footprints. */
  datatype Pcb = Pcb(drawings: seq<Item>, modules: seq<Module>)
}
