/** The extractors: walk the board's drawings and footprints, parse each
    primitive and collect the results per layer (`parse_edges`,
    `parse_silkscreen`, `parse_modules`). */
module Extract {
  import opened Base
  import opened Board
  import opened Shapes
  import opened Pads

  /** The parsed drawings of the items on `layer` that parse, in item order. */
  function ParsedOn(api: Api, ds: seq<Item>, layer: Layer): seq<Drawing> {
    if ds == [] then []
    else
      var d := ds[|ds| - 1];
      var parsed := ParseDrawing(api, d);
      ParsedOn(api, ds[..|ds| - 1], layer) + (if d.layer == layer && parsed.Some? then [parsed.value] else [])
  }

  /** The items on `layer` that parse, in order. */
  function ParseableOn(api: Api, ds: seq<Item>, layer: Layer): seq<Item> {
    if ds == [] then []
    else
      var d := ds[|ds| - 1];
      ParseableOn(api, ds[..|ds| - 1], layer) + (if d.layer == layer && ParseDrawing(api, d).Some? then [d] else [])
  }

  /** Every footprint's graphical items, footprint after footprint. */
  function ModuleGraphics(ms: seq<Module>): seq<Item> {
    if ms == [] then [] else ModuleGraphics(ms[..|ms| - 1]) + ms[|ms| - 1].graphics
  }

  /** Every footprint's reference label, value label and graphical items. */
  function ModuleSilkItems(ms: seq<Module>): seq<Item> {
    if ms == [] then []
    else
      var m := ms[|ms| - 1];
      ModuleSilkItems(ms[..|ms| - 1]) + [m.referenceText, m.valueText] + m.graphics
  }

  /** What `parse_edges` walks: board drawings, then footprint graphics. */
  function EdgeCandidates(pcb: Pcb): seq<Item> {
    pcb.drawings + ModuleGraphics(pcb.modules)
  }

  /** What `parse_silkscreen` walks: board drawings, then footprint labels and graphics. */
  function SilkCandidates(pcb: Pcb): seq<Item> {
    pcb.drawings + ModuleSilkItems(pcb.modules)
  }

  /** The board outline's bounding box: the merge of the board model's own
      bounding boxes of these items (EDA_RECT::Merge is the board model's). */
  datatype BoundingBox = MergedBoxOf(items: seq<Item>)

  /** The first half of `parse_edges`: the board drawings, then every
      footprint's graphical items appended one by one. */
  method EdgeItems(pcb: Pcb) returns (drawings: seq<Item>)
    ensures drawings == EdgeCandidates(pcb)
  {
    drawings := pcb.drawings;
    var i := 0;
    while i < |pcb.modules|
      invariant 0 <= i <= |pcb.modules|
      invariant drawings == pcb.drawings + ModuleGraphics(pcb.modules[..i])
    {
      var m := pcb.modules[i];
      ghost var before := drawings;
      var j := 0;
      while j < |m.graphics|
        invariant 0 <= j <= |m.graphics|
        invariant drawings == before + m.graphics[..j]
      {
        assert m.graphics[..j + 1] == m.graphics[..j] + [m.graphics[j]];
        drawings := drawings + [m.graphics[j]];
        j := j + 1;
      }
      assert m.graphics[..j] == m.graphics;
      ModuleGraphicsStep(pcb.modules, i);
      assert drawings == pcb.drawings + ModuleGraphics(pcb.modules[..i + 1]);
      i := i + 1;
    }
    assert pcb.modules[..i] == pcb.modules;
  }

  /** The first half of `parse_silkscreen`: the board drawings, then every
      footprint's reference label, value label and graphical items. */
  method SilkItems(pcb: Pcb) returns (drawings: seq<Item>)
    ensures drawings == SilkCandidates(pcb)
    ensures |drawings| == |pcb.drawings| + 2 * |pcb.modules| + |ModuleGraphics(pcb.modules)|
  {
    drawings := pcb.drawings;
    var i := 0;
    while i < |pcb.modules|
      invariant 0 <= i <= |pcb.modules|
      invariant drawings == pcb.drawings + ModuleSilkItems(pcb.modules[..i])
    {
      var m := pcb.modules[i];
      drawings := drawings + [m.referenceText];
      drawings := drawings + [m.valueText];
      ghost var before := drawings;
      var j := 0;
      while j < |m.graphics|
        invariant 0 <= j <= |m.graphics|
        invariant drawings == before + m.graphics[..j]
      {
        assert m.graphics[..j + 1] == m.graphics[..j] + [m.graphics[j]];
        drawings := drawings + [m.graphics[j]];
        j := j + 1;
      }
      assert m.graphics[..j] == m.graphics;
      ModuleSilkItemsStep(pcb.modules, i);
      assert drawings == pcb.drawings + ModuleSilkItems(pcb.modules[..i + 1]);
      i := i + 1;
    }
    assert pcb.modules[..i] == pcb.modules;
    SilkItemsLength(pcb.modules);
  }

  /** Each footprint adds its two labels and its graphical items. */
  lemma {:induction false} SilkItemsLength(ms: seq<Module>)
    ensures |ModuleSilkItems(ms)| == 2 * |ms| + |ModuleGraphics(ms)|
    decreases |ms|
  {
    if ms != [] {
      SilkItemsLength(ms[..|ms| - 1]);
    }
  }

  /** `parse_edges`: the parsed outline drawings, and the merged box of the
      items that parsed, which is absent exactly when none did. */
  method ParseEdges(api: Api, pcb: Pcb) returns (edges: seq<Drawing>, bbox: Option<BoundingBox>)
    ensures edges == ParsedOn(api, EdgeCandidates(pcb), EdgeCuts)
    ensures bbox.None? <==> edges == []
    ensures bbox.Some? ==> bbox.value.items == ParseableOn(api, EdgeCandidates(pcb), EdgeCuts)
  {
    edges := [];
    var drawings := EdgeItems(pcb);
    bbox := None;
    var k := 0;
    while k < |drawings|
      invariant 0 <= k <= |drawings|
      invariant edges == ParsedOn(api, drawings[..k], EdgeCuts)
      invariant |ParseableOn(api, drawings[..k], EdgeCuts)| == |edges|
      invariant bbox == if edges == [] then None else Some(MergedBoxOf(ParseableOn(api, drawings[..k], EdgeCuts)))
    {
      var d := drawings[k];
      ParsedOnStep(api, drawings, k, EdgeCuts);
      ParseableOnStep(api, drawings, k, EdgeCuts);
      if d.layer == EdgeCuts {
        var parsed := ParseDrawing(api, d);
        if parsed.Some? {
          edges := edges + [parsed.value];
          if bbox.None? {
            assert ParseableOn(api, drawings[..k + 1], EdgeCuts) == [] + [d] == [d];
            bbox := Some(MergedBoxOf([d]));
          } else {
            bbox := Some(MergedBoxOf(bbox.value.items + [d]));
          }
        }
      }
      k := k + 1;
    }
    assert drawings[..k] == drawings;
  }

  /** `parse_silkscreen`: the parsed drawings on the front and on the back silkscreen. */
  method ParseSilkscreen(api: Api, pcb: Pcb) returns (front: seq<Drawing>, back: seq<Drawing>)
    ensures front == ParsedOn(api, SilkCandidates(pcb), FSilkS)
    ensures back == ParsedOn(api, SilkCandidates(pcb), BSilkS)
  {
    front, back := [], [];
    var drawings := SilkItems(pcb);
    var k := 0;
    while k < |drawings|
      invariant 0 <= k <= |drawings|
      invariant front == ParsedOn(api, drawings[..k], FSilkS)
      invariant back == ParsedOn(api, drawings[..k], BSilkS)
    {
      var d := drawings[k];
      ParsedOnStep(api, drawings, k, FSilkS);
      ParsedOnStep(api, drawings, k, BSilkS);
      if d.layer == FSilkS || d.layer == BSilkS {
        var drawing := ParseDrawing(api, d);
        if drawing.Some? {
          if d.layer == FSilkS {
            front := front + [drawing.value];
          } else {
            back := back + [drawing.value];
          }
        }
      }
      k := k + 1;
    }
    assert drawings[..k] == drawings;
  }

  /** A footprint's copper drawing, tagged with its side. */
  datatype ModuleDrawing = ModuleDrawing(layer: Side, drawing: Drawing)

  datatype FootprintBox = FootprintBox(pos: Point, size: Point)

  /** The record of one footprint in the document. */
  datatype ModuleRecord = ModuleRecord(
    ref: string,
    center: Point,
    bbox: FootprintBox,
    pads: seq<PadRecord>,
    drawings: seq<ModuleDrawing>,
    layer: Option<Side>
  )

  /** The side of a copper layer. */
  function CopperSide(layer: Layer): Option<Side> {
    match layer
    case FCu => Some(F)
    case BCu => Some(B)
    case _ => None
  }

  /** The footprint's graphical items on front or back copper that parse, tagged with their side. */
  function CopperDrawings(api: Api, gs: seq<Item>): seq<ModuleDrawing> {
    if gs == [] then []
    else
      var d := gs[|gs| - 1];
      var parsed := ParseDrawing(api, d);
      CopperDrawings(api, gs[..|gs| - 1])
        + (if CopperSide(d.layer).Some? && parsed.Some? then [ModuleDrawing(CopperSide(d.layer).value, parsed.value)] else [])
  }

  /** The footprint's pads that parse, in order. */
  function ParsedPads(api: Api, ps: seq<Pad>): seq<PadRecord> {
    if ps == [] then []
    else
      var parsed := ParsePad(api, ps[|ps| - 1]);
      ParsedPads(api, ps[..|ps| - 1]) + (if parsed.Some? then [parsed.value] else [])
  }

  /** The record `parse_modules` builds for one footprint. */
  function ModuleRecordOf(api: Api, m: Module): ModuleRecord {
    ModuleRecord(m.reference, m.center, FootprintBox(m.rectPosition, m.rectSize),
                 ParsedPads(api, m.pads), CopperDrawings(api, m.graphics), CopperSide(m.layer))
  }

  /** The footprint map after writing every footprint under its reference, in order. */
  function ModuleMap(api: Api, ms: seq<Module>): map<string, ModuleRecord> {
    if ms == [] then map[]
    else
      var m := ms[|ms| - 1];
      ModuleMap(api, ms[..|ms| - 1])[m.reference := ModuleRecordOf(api, m)]
  }

  /** `parse_modules`. */
  method ParseModules(api: Api, ms: seq<Module>) returns (modules: map<string, ModuleRecord>)
    ensures modules == ModuleMap(api, ms)
  {
    modules := map[];
    var i := 0;
    while i < |ms|
      invariant 0 <= i <= |ms|
      invariant modules == ModuleMap(api, ms[..i])
    {
      var m := ms[i];
      var drawings: seq<ModuleDrawing> := [];
      var j := 0;
      while j < |m.graphics|
        invariant 0 <= j <= |m.graphics|
        invariant drawings == CopperDrawings(api, m.graphics[..j])
      {
        var d := m.graphics[j];
        CopperDrawingsStep(api, m.graphics, j);
        if d.layer == FCu || d.layer == BCu {
          var drawing := ParseDrawing(api, d);
          if drawing.Some? {
            drawings := drawings + [ModuleDrawing(if d.layer == FCu then F else B, drawing.value)];
          }
        }
        j := j + 1;
      }
      assert m.graphics[..j] == m.graphics;
      var pads: seq<PadRecord> := [];
      var p := 0;
      while p < |m.pads|
        invariant 0 <= p <= |m.pads|
        invariant pads == ParsedPads(api, m.pads[..p])
      {
        ParsedPadsStep(api, m.pads, p);
        var padRecord := ParsePad(api, m.pads[p]);
        if padRecord.Some? {
          pads := pads + [padRecord.value];
        }
        p := p + 1;
      }
      assert m.pads[..p] == m.pads;
      modules := modules[m.reference := ModuleRecord(m.reference, m.center, FootprintBox(m.rectPosition, m.rectSize),
                                                     pads, drawings, CopperSide(m.layer))];
      ModuleMapStep(api, ms, i);
      i := i + 1;
    }
    assert ms[..i] == ms;
  }

  lemma ParsedOnStep(api: Api, ds: seq<Item>, k: nat, layer: Layer)
    requires k < |ds|
    ensures ds[k].layer == layer && ParseDrawing(api, ds[k]).Some? ==>
      ParsedOn(api, ds[..k + 1], layer) == ParsedOn(api, ds[..k], layer) + [ParseDrawing(api, ds[k]).value]
    ensures !(ds[k].layer == layer && ParseDrawing(api, ds[k]).Some?) ==>
      ParsedOn(api, ds[..k + 1], layer) == ParsedOn(api, ds[..k], layer)
  {
    assert ds[..k + 1][..k] == ds[..k];
  }

  lemma ParseableOnStep(api: Api, ds: seq<Item>, k: nat, layer: Layer)
    requires k < |ds|
    ensures ds[k].layer == layer && ParseDrawing(api, ds[k]).Some? ==>
      ParseableOn(api, ds[..k + 1], layer) == ParseableOn(api, ds[..k], layer) + [ds[k]]
    ensures !(ds[k].layer == layer && ParseDrawing(api, ds[k]).Some?) ==>
      ParseableOn(api, ds[..k + 1], layer) == ParseableOn(api, ds[..k], layer)
  {
    assert ds[..k + 1][..k] == ds[..k];
  }

  lemma ModuleGraphicsStep(ms: seq<Module>, i: nat)
    requires i < |ms|
    ensures ModuleGraphics(ms[..i + 1]) == ModuleGraphics(ms[..i]) + ms[i].graphics
  {
    assert ms[..i + 1][..i] == ms[..i];
  }

  lemma ModuleSilkItemsStep(ms: seq<Module>, i: nat)
    requires i < |ms|
    ensures ModuleSilkItems(ms[..i + 1]) == ModuleSilkItems(ms[..i]) + [ms[i].referenceText, ms[i].valueText] + ms[i].graphics
  {
    assert ms[..i + 1][..i] == ms[..i];
  }

  lemma CopperDrawingsStep(api: Api, gs: seq<Item>, j: nat)
    requires j < |gs|
    ensures CopperDrawings(api, gs[..j + 1]) == CopperDrawings(api, gs[..j])
      + (if CopperSide(gs[j].layer).Some? && ParseDrawing(api, gs[j]).Some?
         then [ModuleDrawing(CopperSide(gs[j].layer).value, ParseDrawing(api, gs[j]).value)] else [])
  {
    assert gs[..j + 1][..j] == gs[..j];
  }

  lemma ParsedPadsStep(api: Api, ps: seq<Pad>, p: nat)
    requires p < |ps|
    ensures ParsedPads(api, ps[..p + 1]) == ParsedPads(api, ps[..p])
      + (if ParsePad(api, ps[p]).Some? then [ParsePad(api, ps[p]).value] else [])
  {
    assert ps[..p + 1][..p] == ps[..p];
  }

  lemma ModuleMapStep(api: Api, ms: seq<Module>, i: nat)
    requires i < |ms|
    ensures ModuleMap(api, ms[..i + 1]) == ModuleMap(api, ms[..i])[ms[i].reference := ModuleRecordOf(api, ms[i])]
  {
    assert ms[..i + 1][..i] == ms[..i];
  }

  /** A drawing is collected for `layer` exactly when some item on that layer parses to it. */
  lemma ParsedOnMember(api: Api, ds: seq<Item>, layer: Layer, x: Drawing)
    ensures x in ParsedOn(api, ds, layer) <==>
            exists i :: 0 <= i < |ds| && ds[i].layer == layer && ParseDrawing(api, ds[i]) == Some(x)
  {
    if x in ParsedOn(api, ds, layer) {
      CollectedHasSource(api, ds, layer, x);
    }
    forall i | 0 <= i < |ds| && ds[i].layer == layer && ParseDrawing(api, ds[i]) == Some(x)
      ensures x in ParsedOn(api, ds, layer)
    {
      SourceIsCollected(api, ds, layer, i);
    }
  }

  lemma {:induction false} CollectedHasSource(api: Api, ds: seq<Item>, layer: Layer, x: Drawing)
    requires x in ParsedOn(api, ds, layer)
    ensures exists i :: 0 <= i < |ds| && ds[i].layer == layer && ParseDrawing(api, ds[i]) == Some(x)
    decreases |ds|
  {
    var n := |ds| - 1;
    var init := ds[..n];
    if x in ParsedOn(api, init, layer) {
      CollectedHasSource(api, init, layer, x);
      var i :| 0 <= i < n && init[i].layer == layer && ParseDrawing(api, init[i]) == Some(x);
      assert ds[i] == init[i];
    } else {
      assert ds[n].layer == layer && ParseDrawing(api, ds[n]) == Some(x);
    }
  }

  lemma {:induction false} SourceIsCollected(api: Api, ds: seq<Item>, layer: Layer, i: nat)
    requires i < |ds| && ds[i].layer == layer && ParseDrawing(api, ds[i]).Some?
    ensures ParseDrawing(api, ds[i]).value in ParsedOn(api, ds, layer)
    decreases |ds|
  {
    var n := |ds| - 1;
    var init := ds[..n];
    var parsed := ParseDrawing(api, ds[n]);
    var tail := if ds[n].layer == layer && parsed.Some? then [parsed.value] else [];
    assert ParsedOn(api, ds, layer) == ParsedOn(api, init, layer) + tail;
    if i < n {
      assert init[i] == ds[i];
      SourceIsCollected(api, init, layer, i);
    } else {
      assert tail == [parsed.value];
    }
  }

  /** Nothing is collected for `layer` exactly when no item on it parses;
      for the outline layer this is the "no board outline" failure. */
  lemma {:induction false} ParsedOnEmpty(api: Api, ds: seq<Item>, layer: Layer)
    ensures ParsedOn(api, ds, layer) == [] <==>
            forall i :: 0 <= i < |ds| && ds[i].layer == layer ==> ParseDrawing(api, ds[i]).None?
    decreases |ds|
  {
    if ds != [] {
      var n := |ds| - 1;
      ParsedOnEmpty(api, ds[..n], layer);
      assert forall i :: 0 <= i < n ==> ds[..n][i] == ds[i];
    }
  }

  /** Collecting over two item lists one after the other. */
  lemma {:induction false} ParsedOnAppend(api: Api, a: seq<Item>, b: seq<Item>, layer: Layer)
    ensures ParsedOn(api, a + b, layer) == ParsedOn(api, a, layer) + ParsedOn(api, b, layer)
    decreases |b|
  {
    if b == [] {
      assert a + b == a;
    } else {
      var n := |b| - 1;
      assert (a + b)[..|a + b| - 1] == a + b[..n];
      assert (a + b)[|a + b| - 1] == b[n];
      ParsedOnAppend(api, a, b[..n], layer);
    }
  }

  /** The items merged into the outline box are the items of the outline
      drawings, one by one. */
  lemma {:induction false} ParseableMatchesParsed(api: Api, ds: seq<Item>, layer: Layer)
    ensures |ParseableOn(api, ds, layer)| == |ParsedOn(api, ds, layer)|
    ensures forall i :: 0 <= i < |ParsedOn(api, ds, layer)| ==>
              && ParseableOn(api, ds, layer)[i].layer == layer
              && ParseDrawing(api, ParseableOn(api, ds, layer)[i]) == Some(ParsedOn(api, ds, layer)[i])
    decreases |ds|
  {
    if ds != [] {
      ParseableMatchesParsed(api, ds[..|ds| - 1], layer);
    }
  }

  /** The drawings of the tagged copper drawings on one side. */
  function DrawingsOnSide(mds: seq<ModuleDrawing>, side: Side): seq<Drawing> {
    if mds == [] then []
    else
      var md := mds[|mds| - 1];
      DrawingsOnSide(mds[..|mds| - 1], side) + (if md.layer == side then [md.drawing] else [])
  }

  /** A footprint's drawings are exactly its front-copper drawings tagged F
      and its back-copper drawings tagged B, each side in item order. */
  lemma {:induction false} CopperDrawingsBySide(api: Api, gs: seq<Item>)
    ensures DrawingsOnSide(CopperDrawings(api, gs), F) == ParsedOn(api, gs, FCu)
    ensures DrawingsOnSide(CopperDrawings(api, gs), B) == ParsedOn(api, gs, BCu)
    ensures |CopperDrawings(api, gs)| == |ParsedOn(api, gs, FCu)| + |ParsedOn(api, gs, BCu)|
    decreases |gs|
  {
    if gs != [] {
      var n := |gs| - 1;
      CopperDrawingsBySide(api, gs[..n]);
      var prefix := CopperDrawings(api, gs[..n]);
      var all := CopperDrawings(api, gs);
      if |all| > |prefix| {
        assert all[..|all| - 1] == prefix;
      } else {
        assert all == prefix;
      }
    }
  }

  /** A pad record is kept exactly when some pad parses to it. */
  lemma ParsedPadsMember(api: Api, ps: seq<Pad>, r: PadRecord)
    ensures r in ParsedPads(api, ps) <==> exists i :: 0 <= i < |ps| && ParsePad(api, ps[i]) == Some(r)
  {
    if r in ParsedPads(api, ps) {
      KeptPadHasSource(api, ps, r);
    }
    forall i | 0 <= i < |ps| && ParsePad(api, ps[i]) == Some(r)
      ensures r in ParsedPads(api, ps)
    {
      ParsedPadIsKept(api, ps, i);
    }
  }

  lemma {:induction false} KeptPadHasSource(api: Api, ps: seq<Pad>, r: PadRecord)
    requires r in ParsedPads(api, ps)
    ensures exists i :: 0 <= i < |ps| && ParsePad(api, ps[i]) == Some(r)
    decreases |ps|
  {
    var n := |ps| - 1;
    var init := ps[..n];
    if r in ParsedPads(api, init) {
      KeptPadHasSource(api, init, r);
      var i :| 0 <= i < n && ParsePad(api, init[i]) == Some(r);
      assert ps[i] == init[i];
    } else {
      assert ParsePad(api, ps[n]) == Some(r);
    }
  }

  lemma {:induction false} ParsedPadIsKept(api: Api, ps: seq<Pad>, i: nat)
    requires i < |ps| && ParsePad(api, ps[i]).Some?
    ensures ParsePad(api, ps[i]).value in ParsedPads(api, ps)
    decreases |ps|
  {
    var n := |ps| - 1;
    var init := ps[..n];
    if i < n {
      assert init[i] == ps[i];
      ParsedPadIsKept(api, init, i);
    }
  }

  /** The footprint map has an entry for every reference and no other. */
  lemma {:induction false} ModuleMapKeys(api: Api, ms: seq<Module>)
    ensures forall ref :: ref in ModuleMap(api, ms) <==> exists j :: 0 <= j < |ms| && ms[j].reference == ref
    decreases |ms|
  {
    if ms != [] {
      var n := |ms| - 1;
      ModuleMapKeys(api, ms[..n]);
      assert forall j :: 0 <= j < n ==> ms[..n][j] == ms[j];
    }
  }

  /** Last write wins: a reference maps to the record of the last footprint carrying it. */
  lemma {:induction false} ModuleMapLastWins(api: Api, ms: seq<Module>, j: nat)
    requires j < |ms|
    requires forall k :: j < k < |ms| ==> ms[k].reference != ms[j].reference
    ensures ms[j].reference in ModuleMap(api, ms)
    ensures ModuleMap(api, ms)[ms[j].reference] == ModuleRecordOf(api, ms[j])
    decreases |ms|
  {
    var n := |ms| - 1;
    if j < n {
      ModuleMapLastWins(api, ms[..n], j);
    }
  }
}
