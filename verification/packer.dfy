/** The buffer-building loop of `recalculate_info`: one walk over the loop
    triangles that fills the mesh buffers, the wireframe buffers and the UV
    editor buffers, and feeds the stretching accumulators.

    The code keeps one three-entry scratch list per mesh attribute, rewritten
    for every triangle, and one six-entry scratch list per wireframe attribute
    that is rewritten only for edges seen for the first time in the pass, so
    the other slots keep whatever an earlier triangle wrote. Parallel lists are
    kept here as one sequence of records per buffer family. */
module Packer {
  import opened Geometry
  import opened MeshData
  import opened Settings
  import opened Metrics
  import opened Wrappers
  import Dispatch
  import Overlap
  import Shading

  /** The theme colours of the 3D viewport; all but the face colour are RGB
      and are made opaque when used. */
  datatype Theme = Theme(vertexSelect: Vec3, vertex: Vec3, faceSelect: Vec4, edgeSeam: Vec3, edgeSelect: Vec3, wireEdit: Vec3)

  /** The object and editor state a pass reads. */
  datatype PassConfig = PassConfig(
    operation: Operation,
    stretchType: StretchType,
    explosion: bool,
    showWire: bool,
    editMode: bool,
    uvSync: bool,
    theme: Theme,
    num: Numerics
  )

  /** Island colours, explosion directions and overlap labels computed before the pass. */
  datatype Lookups = Lookups(islandColours: map<nat, Vec2>, directions: map<nat, Vec3>, labels: map<nat, bool>)

  /** One corner in the mesh buffers: position, normal, explosion direction,
      texture coordinate and wireframe face colour. */
  datatype CornerData = CornerData(co: Vec3, normal: Vec3, direction: Vec3, texCoord: Vec3, faceColour: Vec4)

  /** One wireframe vertex with its colours. */
  datatype WirePoint = WirePoint(co: Vec3, normal: Vec3, direction: Vec3, vertexColour: Vec4, seamColour: Vec4, edgeColour: Vec4)

  /** One corner in the UV editor buffers. */
  datatype UvCorner = UvCorner(uv: Vec3, input: InputRef)

  datatype Buffers = Buffers(corners: seq<CornerData>, inputs: seq<InputRef>, wire: seq<WirePoint>, uvs: seq<UvCorner>)

  /** The six wireframe scratch slots and the edges already written this pass. */
  datatype WireScratch = WireScratch(slots: seq<WirePoint>, visited: set<nat>)

  datatype PassState = PassState(buffers: Buffers, wire: WireScratch, acc: Accumulators)

  const BlankWire: WirePoint := WirePoint(Zero3, Zero3, Zero3, Zero4, Zero4, Zero4)
  const BlankSlots: seq<WirePoint> := [BlankWire, BlankWire, BlankWire, BlankWire, BlankWire, BlankWire]

  const InitialState: PassState := PassState(Buffers([], [], [], []), WireScratch(BlankSlots, {}), NoAccumulators)

  /** The mesh indices are valid and every polygon has the island colour and
      explosion direction the settings will ask for. */
  predicate Ready(cfg: PassConfig, lk: Lookups, mesh: Mesh) {
    && ValidMesh(mesh)
    && (forall p :: 0 <= p < |mesh.polygons| ==> (cfg.explosion ==> p in lk.directions))
    && (forall p :: 0 <= p < |mesh.polygons| ==> (cfg.operation == UvIslands ==> p in lk.islandColours))
  }

  predicate AllValid(mesh: Mesh, tris: seq<LoopTriangle>) {
    forall k :: 0 <= k < |tris| ==> ValidTriangle(mesh, tris[k])
  }

  /** Wireframe data is written only in edit mode with the wire shown. */
  predicate WireWanted(cfg: PassConfig) {
    cfg.showWire && cfg.editMode
  }

  /** The explosion direction of a polygon's corners, zero without the explosion view. */
  function Direction(cfg: PassConfig, lk: Lookups, poly: nat): Vec3
    requires cfg.explosion ==> poly in lk.directions
  {
    if cfg.explosion then lk.directions[poly] else Zero3
  }

  /** Corner `i` of a visible triangle as the mesh buffers receive it. */
  function CornerOf(cfg: PassConfig, lk: Lookups, mesh: Mesh, t: LoopTriangle, i: nat): CornerData
    requires Ready(cfg, lk, mesh) && ValidTriangle(mesh, t) && i < 3
  {
    var v := mesh.vertices[t.vertices[i]];
    CornerData(v.co, v.normal, Direction(cfg, lk, t.polygon), Lift(mesh.loops[t.loops[i]].uv),
               if mesh.polygons[t.polygon].select then cfg.theme.faceSelect else Zero4)
  }

  /** The edge that loop `i` of the triangle starts. */
  function EdgeOf(mesh: Mesh, t: LoopTriangle, i: nat): nat
    requires ValidTriangle(mesh, t) && i < 3
  {
    mesh.loops[t.loops[i]].edge
  }

  /** One end of an edge as the wireframe buffers receive it. */
  function WirePointOf(mesh: Mesh, theme: Theme, edge: Edge, v: nat, direction: Vec3): WirePoint
    requires v < |mesh.vertices|
  {
    var vertex := mesh.vertices[v];
    WirePoint(vertex.co, vertex.normal, direction,
              Opaque(if vertex.select then theme.vertexSelect else theme.vertex),
              if edge.seam then Opaque(theme.edgeSeam) else Zero4,
              Opaque(if edge.select then theme.edgeSelect else theme.wireEdit))
  }

  /** Loop `i` of a triangle: on the first visit of its edge the two ends are
      written to slots 2i and 2i+1 and the edge is marked; otherwise nothing
      changes. */
  function WireCorner(mesh: Mesh, theme: Theme, direction: Vec3, w: WireScratch, t: LoopTriangle, i: nat): (r: WireScratch)
    requires ValidMesh(mesh) && ValidTriangle(mesh, t) && i < 3 && |w.slots| == 6
    ensures |r.slots| == 6
    ensures r.visited == w.visited + {EdgeOf(mesh, t, i)}
    ensures EdgeOf(mesh, t, i) in w.visited ==> r == w
    ensures EdgeOf(mesh, t, i) !in w.visited ==>
              var edge := mesh.edges[EdgeOf(mesh, t, i)];
              r.slots[2 * i] == WirePointOf(mesh, theme, edge, edge.v0, direction)
              && r.slots[2 * i + 1] == WirePointOf(mesh, theme, edge, edge.v1, direction)
    ensures forall k :: 0 <= k < 6 && k != 2 * i && k != 2 * i + 1 ==> r.slots[k] == w.slots[k]
  {
    var e := EdgeOf(mesh, t, i);
    if e in w.visited then w
    else
      var edge := mesh.edges[e];
      var slots := w.slots[2 * i := WirePointOf(mesh, theme, edge, edge.v0, direction)]
                          [2 * i + 1 := WirePointOf(mesh, theme, edge, edge.v1, direction)];
      WireScratch(slots, w.visited + {e})
  }

  /** The three edges of a triangle. */
  function TriangleEdges(mesh: Mesh, t: LoopTriangle): set<nat>
    requires ValidTriangle(mesh, t)
  {
    {EdgeOf(mesh, t, 0), EdgeOf(mesh, t, 1), EdgeOf(mesh, t, 2)}
  }

  /** The wireframe part of one visible triangle: its three loops in order. */
  function WireTriangle(cfg: PassConfig, mesh: Mesh, direction: Vec3, w: WireScratch, t: LoopTriangle): (r: WireScratch)
    requires ValidMesh(mesh) && ValidTriangle(mesh, t) && |w.slots| == 6
    ensures |r.slots| == 6
    ensures r.visited == (if WireWanted(cfg) then w.visited + TriangleEdges(mesh, t) else w.visited)
    ensures !WireWanted(cfg) ==> r == w
  {
    if !WireWanted(cfg) then w
    else
      var w0 := WireCorner(mesh, cfg.theme, direction, w, t, 0);
      var w1 := WireCorner(mesh, cfg.theme, direction, w0, t, 1);
      WireCorner(mesh, cfg.theme, direction, w1, t, 2)
  }

  /** The triangle and its UV triangle, as the metrics see them. */
  function Source(mesh: Mesh, t: LoopTriangle): Dispatch.TriangleSource
    requires ValidTriangle(mesh, t)
  {
    var tri := Tri(mesh.vertices[t.vertices[0]].co, mesh.vertices[t.vertices[1]].co, mesh.vertices[t.vertices[2]].co);
    var uvTri := Tri(Lift(mesh.loops[t.loops[0]].uv), Lift(mesh.loops[t.loops[1]].uv), Lift(mesh.loops[t.loops[2]].uv));
    Dispatch.TriangleSource(t.vertices, t.polygon, tri, uvTri)
  }

  /** The triangle's input, given the accumulators before it. */
  function InputOf(cfg: PassConfig, lk: Lookups, mesh: Mesh, acc: Accumulators, t: LoopTriangle): (r: TriangleInput)
    requires Ready(cfg, lk, mesh) && ValidTriangle(mesh, t)
    ensures |r.refs| == 3
  {
    Dispatch.RecalcTriangleInput(cfg.operation, cfg.stretchType, cfg.editMode, cfg.num,
                                 lk.islandColours, lk.labels, acc, Source(mesh, t))
  }

  /** A triangle's corners go to the UV editor when its polygon is selected
      or UV selection is synced with the mesh. */
  predicate ToUvEditor(cfg: PassConfig, mesh: Mesh, t: LoopTriangle)
    requires t.polygon < |mesh.polygons|
  {
    mesh.polygons[t.polygon].select || cfg.uvSync
  }

  function UvCornersOf(corners: seq<CornerData>, refs: seq<InputRef>): (r: seq<UvCorner>)
    requires |corners| == |refs|
    ensures |r| == |corners|
    ensures forall k :: 0 <= k < |r| ==> r[k] == UvCorner(corners[k].texCoord, refs[k])
  {
    if |corners| == 0 then [] else [UvCorner(corners[0].texCoord, refs[0])] + UvCornersOf(corners[1..], refs[1..])
  }

  /** One iteration of the packing loop. */
  function Step(cfg: PassConfig, lk: Lookups, mesh: Mesh, st: PassState, t: LoopTriangle): PassState
    requires Ready(cfg, lk, mesh) && ValidTriangle(mesh, t) && |st.wire.slots| == 6
  {
    if !Visible(mesh, t) then st
    else
      var w := WireTriangle(cfg, mesh, Direction(cfg, lk, t.polygon), st.wire, t);
      var input := InputOf(cfg, lk, mesh, st.acc, t);
      var corners := [CornerOf(cfg, lk, mesh, t, 0), CornerOf(cfg, lk, mesh, t, 1), CornerOf(cfg, lk, mesh, t, 2)];
      var uvs := if ToUvEditor(cfg, mesh, t) then st.buffers.uvs + UvCornersOf(corners, input.refs) else st.buffers.uvs;
      PassState(Buffers(st.buffers.corners + corners, st.buffers.inputs + input.refs, st.buffers.wire + w.slots, uvs),
                w, input.acc)
  }

  /** The state after the loop has run over `tris`. */
  function PackFold(cfg: PassConfig, lk: Lookups, mesh: Mesh, tris: seq<LoopTriangle>): (r: PassState)
    requires Ready(cfg, lk, mesh) && AllValid(mesh, tris)
    ensures |r.wire.slots| == 6
  {
    if |tris| == 0 then InitialState
    else
      var prefix := tris[..|tris| - 1];
      assert AllValid(mesh, prefix);
      var st := PackFold(cfg, lk, mesh, prefix);
      Step(cfg, lk, mesh, st, tris[|tris| - 1])
  }

  /** The visible triangles among `tris`, in order. */
  function VisibleTris(mesh: Mesh, tris: seq<LoopTriangle>): (r: seq<LoopTriangle>)
    requires AllValid(mesh, tris)
    ensures |r| <= |tris| && AllValid(mesh, r)
    ensures forall k :: 0 <= k < |r| ==> Visible(mesh, r[k])
  {
    if |tris| == 0 then []
    else
      assert AllValid(mesh, tris[..|tris| - 1]);
      var rest := VisibleTris(mesh, tris[..|tris| - 1]);
      if Visible(mesh, tris[|tris| - 1]) then rest + [tris[|tris| - 1]] else rest
  }

  /** The visible triangles that also go to the UV editor. */
  function UvTris(cfg: PassConfig, mesh: Mesh, tris: seq<LoopTriangle>): (r: seq<LoopTriangle>)
    requires AllValid(mesh, tris)
    ensures |r| <= |tris|
  {
    if |tris| == 0 then []
    else
      assert AllValid(mesh, tris[..|tris| - 1]);
      var rest := UvTris(cfg, mesh, tris[..|tris| - 1]);
      var t := tris[|tris| - 1];
      if Visible(mesh, t) && ToUvEditor(cfg, mesh, t) then rest + [t] else rest
  }

  /** The edges of the given triangles. */
  function EdgesOf(mesh: Mesh, tris: seq<LoopTriangle>): set<nat>
    requires AllValid(mesh, tris)
  {
    if |tris| == 0 then {}
    else
      assert AllValid(mesh, tris[..|tris| - 1]);
      EdgesOf(mesh, tris[..|tris| - 1]) + TriangleEdges(mesh, tris[|tris| - 1])
  }

  // ------------------------------------------------------------- properties

  /** The prefix of the triangles before the last one is valid too. */
  lemma PrefixValid(mesh: Mesh, tris: seq<LoopTriangle>)
    requires AllValid(mesh, tris) && |tris| > 0
    ensures AllValid(mesh, tris[..|tris| - 1])
  {
  }

  /** Each visible triangle adds three entries to every mesh buffer and six
      to every wireframe buffer; the UV editor buffers grow by three only for
      triangles whose polygon is selected or when selection is synced. */
  lemma {:induction false} PackShape(cfg: PassConfig, lk: Lookups, mesh: Mesh, tris: seq<LoopTriangle>)
    requires Ready(cfg, lk, mesh) && AllValid(mesh, tris)
    ensures var st := PackFold(cfg, lk, mesh, tris);
            && |st.buffers.corners| == 3 * |VisibleTris(mesh, tris)|
            && |st.buffers.inputs| == 3 * |VisibleTris(mesh, tris)|
            && |st.buffers.wire| == 6 * |VisibleTris(mesh, tris)|
            && |st.buffers.uvs| == 3 * |UvTris(cfg, mesh, tris)|
  {
    if |tris| > 0 {
      PrefixValid(mesh, tris);
      PackShape(cfg, lk, mesh, tris[..|tris| - 1]);
    }
  }

  /** Corner i of the j-th visible triangle sits at position 3j + i of the
      mesh buffers. */
  lemma {:induction false} PackCorners(cfg: PassConfig, lk: Lookups, mesh: Mesh, tris: seq<LoopTriangle>)
    requires Ready(cfg, lk, mesh) && AllValid(mesh, tris)
    ensures var st := PackFold(cfg, lk, mesh, tris);
            var vis := VisibleTris(mesh, tris);
            |st.buffers.corners| == 3 * |vis| &&
            forall j, i :: 0 <= j < |vis| && 0 <= i < 3 ==> st.buffers.corners[3 * j + i] == CornerOf(cfg, lk, mesh, vis[j], i)
  {
    PackShape(cfg, lk, mesh, tris);
    if |tris| > 0 {
      var prefix := tris[..|tris| - 1];
      var t := tris[|tris| - 1];
      PrefixValid(mesh, tris);
      PackCorners(cfg, lk, mesh, prefix);
      PackShape(cfg, lk, mesh, prefix);
      var before := PackFold(cfg, lk, mesh, prefix).buffers.corners;
      var vis := VisibleTris(mesh, tris);
      var corners := PackFold(cfg, lk, mesh, tris).buffers.corners;
      if Visible(mesh, t) {
        assert corners == before + [CornerOf(cfg, lk, mesh, t, 0), CornerOf(cfg, lk, mesh, t, 1), CornerOf(cfg, lk, mesh, t, 2)];
        assert vis == VisibleTris(mesh, prefix) + [t];
        forall j, i | 0 <= j < |vis| && 0 <= i < 3
          ensures corners[3 * j + i] == CornerOf(cfg, lk, mesh, vis[j], i)
        {
          if j < |vis| - 1 {
            assert vis[j] == VisibleTris(mesh, prefix)[j];
            assert corners[3 * j + i] == before[3 * j + i];
          }
        }
      }
    }
  }

  /** The handles the given triangles pick for their corners, in order; the
      choice does not depend on the accumulators, so it is taken from none. */
  function HandlesOf(cfg: PassConfig, lk: Lookups, mesh: Mesh, vis: seq<LoopTriangle>): (r: seq<InputRef>)
    requires Ready(cfg, lk, mesh) && AllValid(mesh, vis)
    ensures |r| == 3 * |vis|
  {
    if |vis| == 0 then []
    else
      assert AllValid(mesh, vis[..|vis| - 1]);
      HandlesOf(cfg, lk, mesh, vis[..|vis| - 1]) + InputOf(cfg, lk, mesh, NoAccumulators, vis[|vis| - 1]).refs
  }

  lemma {:induction false} HandlesOfAt(cfg: PassConfig, lk: Lookups, mesh: Mesh, vis: seq<LoopTriangle>, j: nat, i: nat)
    requires Ready(cfg, lk, mesh) && AllValid(mesh, vis) && j < |vis| && i < 3
    ensures HandlesOf(cfg, lk, mesh, vis)[3 * j + i] == InputOf(cfg, lk, mesh, NoAccumulators, vis[j]).refs[i]
  {
    var prefix := vis[..|vis| - 1];
    PrefixValid(mesh, vis);
    if j < |vis| - 1 {
      HandlesOfAt(cfg, lk, mesh, prefix, j, i);
      assert prefix[j] == vis[j];
    }
  }

  /** The input buffer of a pass holds the handles of the visible triangles. */
  lemma {:induction false} PackHandles(cfg: PassConfig, lk: Lookups, mesh: Mesh, tris: seq<LoopTriangle>)
    requires Ready(cfg, lk, mesh) && AllValid(mesh, tris)
    ensures PackFold(cfg, lk, mesh, tris).buffers.inputs == HandlesOf(cfg, lk, mesh, VisibleTris(mesh, tris))
  {
    if |tris| > 0 {
      var prefix := tris[..|tris| - 1];
      var t := tris[|tris| - 1];
      PrefixValid(mesh, tris);
      PackHandles(cfg, lk, mesh, prefix);
      if Visible(mesh, t) {
        var st := PackFold(cfg, lk, mesh, prefix);
        var vis := VisibleTris(mesh, prefix);
        Dispatch.RefsIndependentOfAccumulators(cfg.operation, cfg.stretchType, cfg.editMode, cfg.num,
                                               lk.islandColours, lk.labels, st.acc, NoAccumulators, Source(mesh, t));
        assert (vis + [t])[..|vis|] == vis;
      }
    }
  }

  /** Corner i of the j-th visible triangle has, at position 3j + i of the
      input buffer, the handle its triangle picks; which handle that is does
      not depend on the accumulators, so it is the one picked from none. */
  lemma PackInputs(cfg: PassConfig, lk: Lookups, mesh: Mesh, tris: seq<LoopTriangle>)
    requires Ready(cfg, lk, mesh) && AllValid(mesh, tris)
    ensures var st := PackFold(cfg, lk, mesh, tris);
            var vis := VisibleTris(mesh, tris);
            |st.buffers.inputs| == 3 * |vis| &&
            forall j, i :: 0 <= j < |vis| && 0 <= i < 3 ==>
              st.buffers.inputs[3 * j + i] == InputOf(cfg, lk, mesh, NoAccumulators, vis[j]).refs[i]
  {
    var vis := VisibleTris(mesh, tris);
    PackHandles(cfg, lk, mesh, tris);
    forall j, i | 0 <= j < |vis| && 0 <= i < 3
      ensures HandlesOf(cfg, lk, mesh, vis)[3 * j + i] == InputOf(cfg, lk, mesh, NoAccumulators, vis[j]).refs[i]
    {
      HandlesOfAt(cfg, lk, mesh, vis, j, i);
    }
  }

  /** Showing overlapping UVs in edit mode, every corner of the j-th visible
      triangle carries its polygon's overlap colour. */
  lemma PackOverlapInputs(cfg: PassConfig, lk: Lookups, mesh: Mesh, j: nat, i: nat)
    requires Ready(cfg, lk, mesh) && cfg.operation == UvOverlap && cfg.editMode
    requires j < |VisibleTris(mesh, mesh.triangles)| && i < 3
    ensures var st := PackFold(cfg, lk, mesh, mesh.triangles);
            var t := VisibleTris(mesh, mesh.triangles)[j];
            3 * j + i < |st.buffers.inputs|
            && st.buffers.inputs[3 * j + i] == Fixed(Overlap.RecalculateUvOverlap(lk.labels, t.polygon))
  {
    assert AllValid(mesh, mesh.triangles);
    PackInputs(cfg, lk, mesh, mesh.triangles);
    var t := VisibleTris(mesh, mesh.triangles)[j];
    var refs := InputOf(cfg, lk, mesh, NoAccumulators, t).refs;
    assert refs == Triple(Fixed(Overlap.RecalculateUvOverlap(lk.labels, t.polygon)));
    var st := PackFold(cfg, lk, mesh, mesh.triangles);
    assert st.buffers.inputs[3 * j + i] == refs[i];
  }

  /** With the UV normals overlay, each corner of the j-th visible triangle
      carries the normal colour of its UV triangle, and the UV editor draws it
      with the hue of blue when that triangle faces up and of red when it is
      flipped. */
  lemma PackNormalColours(cfg: PassConfig, lk: Lookups, mesh: Mesh, j: nat, i: nat, u: Shading.ColourUniforms)
    requires Ready(cfg, lk, mesh) && cfg.operation == UvNormals
    requires j < |VisibleTris(mesh, mesh.triangles)| && i < 3
    requires u.maxDivision == Shading.MaxDivisionUniform(false, MaxDivisionDefault)
    ensures var st := PackFold(cfg, lk, mesh, mesh.triangles);
            var uvTri := Source(mesh, VisibleTris(mesh, mesh.triangles)[j]).uvTri;
            var faceUp := cfg.num.normalZ(uvTri.a, uvTri.b, uvTri.c) >= 0.0;
            && 3 * j + i < |st.buffers.inputs|
            && st.buffers.inputs[3 * j + i] == Fixed(Dispatch.UvNormalColour(cfg.num, uvTri))
            && Shading.UvVertexColour(Resolve(st.acc, st.buffers.inputs[3 * j + i]), u)
               == Shading.Shaded(Shading.ShaderHue(if faceUp then Shading.ColorBlue else Shading.ColorRed, u),
                                 u.saturation, u.value, u.alpha)
  {
    assert AllValid(mesh, mesh.triangles);
    PackInputs(cfg, lk, mesh, mesh.triangles);
    var t := VisibleTris(mesh, mesh.triangles)[j];
    var refs := InputOf(cfg, lk, mesh, NoAccumulators, t).refs;
    assert refs == Triple(Fixed(Dispatch.UvNormalColour(cfg.num, Source(mesh, t).uvTri)));
    var st := PackFold(cfg, lk, mesh, mesh.triangles);
    assert st.buffers.inputs[3 * j + i] == refs[i];
  }

  // ------------------------------------------------------ missing labels

  /** The packing loop as written, against labels that may never have been
      created (`None`): each visible triangle that shows overlapping UVs in
      edit mode reads its polygon's label, and a missing labels attribute
      aborts the pass. The value read is the one the dispatch computes from
      the lookups' labels. */
  function PackFoldAsWritten(cfg: PassConfig, lk: Lookups, mesh: Mesh, tris: seq<LoopTriangle>,
                             labels: Option<map<nat, bool>>): (r: Overlap.Outcome<PassState>)
    requires Ready(cfg, lk, mesh) && AllValid(mesh, tris)
    ensures r.Ok? ==> |r.value.wire.slots| == 6
  {
    if |tris| == 0 then Overlap.Ok(InitialState)
    else
      var prefix := tris[..|tris| - 1];
      var t := tris[|tris| - 1];
      assert AllValid(mesh, prefix);
      match PackFoldAsWritten(cfg, lk, mesh, prefix, labels)
      case AttributeError => Overlap.AttributeError
      case Ok(st) =>
        if Visible(mesh, t) && cfg.operation == UvOverlap && cfg.editMode then
          match Overlap.RecalculateUvOverlapAsWritten(labels, t.polygon)
          case AttributeError => Overlap.AttributeError
          case Ok(_) => Overlap.Ok(Step(cfg, lk, mesh, st, t))
        else Overlap.Ok(Step(cfg, lk, mesh, st, t))
  }

  /** The pass as written raises exactly when the labels are missing and some
      visible triangle shows overlapping UVs in edit mode; otherwise it ends
      in the state of the pass with labels. */
  lemma {:induction false} PackFoldAsWrittenOutcome(cfg: PassConfig, lk: Lookups, mesh: Mesh, tris: seq<LoopTriangle>,
                                                    labels: Option<map<nat, bool>>)
    requires Ready(cfg, lk, mesh) && AllValid(mesh, tris)
    ensures var r := PackFoldAsWritten(cfg, lk, mesh, tris, labels);
            && (r.AttributeError? <==>
                  labels.None? && cfg.operation == UvOverlap && cfg.editMode && |VisibleTris(mesh, tris)| > 0)
            && (r.Ok? ==> r.value == PackFold(cfg, lk, mesh, tris))
  {
    if |tris| > 0 {
      PrefixValid(mesh, tris);
      PackFoldAsWrittenOutcome(cfg, lk, mesh, tris[..|tris| - 1], labels);
    }
  }

  /** Every handle in the buffers names an existing accumulator. */
  predicate HandlesResolve(st: PassState) {
    && (forall k :: 0 <= k < |st.buffers.inputs| ==> Resolvable(st.acc, st.buffers.inputs[k]))
    && (forall k :: 0 <= k < |st.buffers.uvs| ==> Resolvable(st.acc, st.buffers.uvs[k].input))
  }

  lemma ResolvableGrows(before: Accumulators, after: Accumulators, ref: InputRef)
    requires Grows(before, after) && Resolvable(before, ref)
    ensures Resolvable(after, ref)
  {
  }

  /** At every point of the pass each corner's handle can be resolved, and
      every edge-length accumulator keeps y = 1. */
  lemma {:induction false} PackAccumulators(cfg: PassConfig, lk: Lookups, mesh: Mesh, tris: seq<LoopTriangle>)
    requires Ready(cfg, lk, mesh) && AllValid(mesh, tris)
    ensures HandlesResolve(PackFold(cfg, lk, mesh, tris))
    ensures UnitLengthY(PackFold(cfg, lk, mesh, tris).acc)
  {
    if |tris| > 0 {
      var prefix := tris[..|tris| - 1];
      var t := tris[|tris| - 1];
      PrefixValid(mesh, tris);
      PackAccumulators(cfg, lk, mesh, prefix);
      var st := PackFold(cfg, lk, mesh, prefix);
      if Visible(mesh, t) {
        var input := InputOf(cfg, lk, mesh, st.acc, t);
        var next := PackFold(cfg, lk, mesh, tris);
        assert next.acc == input.acc;
        Dispatch.LengthAccumulatorsKeepUnitY(cfg.operation, cfg.stretchType, cfg.editMode, cfg.num,
                                             lk.islandColours, lk.labels, st.acc, Source(mesh, t));
        forall k | 0 <= k < |next.buffers.inputs|
          ensures Resolvable(next.acc, next.buffers.inputs[k])
        {
          if k < |st.buffers.inputs| {
            ResolvableGrows(st.acc, input.acc, st.buffers.inputs[k]);
          } else {
            assert next.buffers.inputs[k] == input.refs[k - |st.buffers.inputs|];
          }
        }
        forall k | 0 <= k < |next.buffers.uvs|
          ensures Resolvable(next.acc, next.buffers.uvs[k].input)
        {
          if k < |st.buffers.uvs| {
            ResolvableGrows(st.acc, input.acc, st.buffers.uvs[k].input);
          } else {
            assert next.buffers.uvs[k].input == input.refs[k - |st.buffers.uvs|];
          }
        }
      }
    }
  }

  /** With the wire shown in edit mode, the edges marked after the pass are
      exactly those of the visible triangles; otherwise none is marked, the
      scratch slots stay blank and every wireframe entry is blank. */
  lemma {:induction false} PackVisited(cfg: PassConfig, lk: Lookups, mesh: Mesh, tris: seq<LoopTriangle>)
    requires Ready(cfg, lk, mesh) && AllValid(mesh, tris)
    ensures var st := PackFold(cfg, lk, mesh, tris);
            WireWanted(cfg) ==> st.wire.visited == EdgesOf(mesh, VisibleTris(mesh, tris))
    ensures var st := PackFold(cfg, lk, mesh, tris);
            !WireWanted(cfg) ==> (st.wire == WireScratch(BlankSlots, {}) &&
                                  forall k :: 0 <= k < |st.buffers.wire| ==> st.buffers.wire[k] == BlankWire)
  {
    if |tris| > 0 {
      var prefix := tris[..|tris| - 1];
      var t := tris[|tris| - 1];
      PrefixValid(mesh, tris);
      PackVisited(cfg, lk, mesh, prefix);
      var vis := VisibleTris(mesh, prefix);
      if Visible(mesh, t) {
        assert VisibleTris(mesh, tris) == vis + [t];
        assert (vis + [t])[..|vis|] == vis;
      }
    }
  }

  /** With UV selection synced, the UV editor buffers mirror the mesh buffers
      corner for corner. */
  lemma {:induction false} PackSyncMirrors(cfg: PassConfig, lk: Lookups, mesh: Mesh, tris: seq<LoopTriangle>)
    requires Ready(cfg, lk, mesh) && AllValid(mesh, tris) && cfg.uvSync
    ensures var b := PackFold(cfg, lk, mesh, tris).buffers;
            |b.uvs| == |b.corners| == |b.inputs|
            && forall k :: 0 <= k < |b.uvs| ==> b.uvs[k] == UvCorner(b.corners[k].texCoord, b.inputs[k])
  {
    if |tris| > 0 {
      PrefixValid(mesh, tris);
      PackSyncMirrors(cfg, lk, mesh, tris[..|tris| - 1]);
    }
  }

  /** Hidden triangles contribute nothing: the pass over only the visible
      triangles ends in the same state. */
  lemma {:induction false} HiddenContributeNothing(cfg: PassConfig, lk: Lookups, mesh: Mesh, tris: seq<LoopTriangle>)
    requires Ready(cfg, lk, mesh) && AllValid(mesh, tris)
    ensures PackFold(cfg, lk, mesh, tris) == PackFold(cfg, lk, mesh, VisibleTris(mesh, tris))
  {
    if |tris| > 0 {
      var prefix := tris[..|tris| - 1];
      var t := tris[|tris| - 1];
      PrefixValid(mesh, tris);
      HiddenContributeNothing(cfg, lk, mesh, prefix);
      var vis := VisibleTris(mesh, prefix);
      if Visible(mesh, t) {
        assert (vis + [t])[..|vis|] == vis;
      }
    }
  }

  // ------------------------------------------------------------- area sums

  /** The polygons of the visible triangles among `tris`. */
  function PolygonsOf(mesh: Mesh, tris: seq<LoopTriangle>): set<nat>
    requires AllValid(mesh, tris)
  {
    if |tris| == 0 then {}
    else
      assert AllValid(mesh, tris[..|tris| - 1]);
      var t := tris[|tris| - 1];
      PolygonsOf(mesh, tris[..|tris| - 1]) + (if Visible(mesh, t) then {t.polygon} else {})
  }

  /** The area pairs of the visible triangles of polygon `p`, summed. */
  function AreaSum(num: Numerics, mesh: Mesh, tris: seq<LoopTriangle>, p: nat): Vec2
    requires AllValid(mesh, tris)
  {
    if |tris| == 0 then Zero2
    else
      assert AllValid(mesh, tris[..|tris| - 1]);
      var t := tris[|tris| - 1];
      var rest := AreaSum(num, mesh, tris[..|tris| - 1], p);
      if Visible(mesh, t) && t.polygon == p then
        var src := Source(mesh, t);
        Plus(rest, AreaPair(num, src.tri, src.uvTri))
      else rest
  }

  /** A polygon with no visible triangle sums to zero. */
  lemma {:induction false} AreaSumOfAbsent(num: Numerics, mesh: Mesh, tris: seq<LoopTriangle>, p: nat)
    requires AllValid(mesh, tris) && p !in PolygonsOf(mesh, tris)
    ensures AreaSum(num, mesh, tris, p) == Zero2
  {
    if |tris| > 0 {
      PrefixValid(mesh, tris);
      AreaSumOfAbsent(num, mesh, tris[..|tris| - 1], p);
    }
  }

  /** With the area metric, after the pass the area sums hold an entry for
      exactly the polygons with a visible triangle, and each entry is the sum
      of the (mesh area, UV area) pairs of that polygon's visible triangles. */
  lemma {:induction false} PackAreaSums(cfg: PassConfig, lk: Lookups, mesh: Mesh, tris: seq<LoopTriangle>)
    requires Ready(cfg, lk, mesh) && AllValid(mesh, tris)
    requires cfg.operation == UvStretching && cfg.stretchType == Area
    ensures var areas := PackFold(cfg, lk, mesh, tris).acc.areas;
            areas.Keys == PolygonsOf(mesh, tris)
            && forall p :: p in areas ==> areas[p] == AreaSum(cfg.num, mesh, tris, p)
  {
    if |tris| > 0 {
      var prefix := tris[..|tris| - 1];
      var t := tris[|tris| - 1];
      PrefixValid(mesh, tris);
      PackAreaSums(cfg, lk, mesh, prefix);
      var st := PackFold(cfg, lk, mesh, prefix);
      if Visible(mesh, t) {
        var src := Source(mesh, t);
        var pair := AreaPair(cfg.num, src.tri, src.uvTri);
        var next := PackFold(cfg, lk, mesh, tris);
        assert next.acc == AddArea(st.acc, t.polygon, pair);
        if t.polygon !in st.acc.areas {
          AreaSumOfAbsent(cfg.num, mesh, prefix, t.polygon);
        }
        assert next.acc.areas[t.polygon] == AreaSum(cfg.num, mesh, tris, t.polygon);
      }
    }
  }

  // ------------------------------------------------------- wireframe slots

  /** The edges marked before loop `i` of the triangle is reached, given the
      edges marked before the triangle. */
  function MarkedBefore(mesh: Mesh, visited: set<nat>, t: LoopTriangle, i: nat): set<nat>
    requires ValidTriangle(mesh, t) && i < 3
  {
    if i == 0 then visited
    else if i == 1 then visited + {EdgeOf(mesh, t, 0)}
    else visited + {EdgeOf(mesh, t, 0), EdgeOf(mesh, t, 1)}
  }

  /** With the wire shown, slots 2i and 2i+1 receive the two ends of loop i's
      edge when that edge has not been marked yet; otherwise they keep what
      they held, which is whatever an earlier triangle wrote there. */
  lemma WireTriangleSlots(cfg: PassConfig, mesh: Mesh, direction: Vec3, w: WireScratch, t: LoopTriangle, i: nat)
    requires ValidMesh(mesh) && ValidTriangle(mesh, t) && |w.slots| == 6 && i < 3
    requires WireWanted(cfg)
    ensures var r := WireTriangle(cfg, mesh, direction, w, t);
            var e := EdgeOf(mesh, t, i);
            var edge := mesh.edges[e];
            && (e in MarkedBefore(mesh, w.visited, t, i) ==> r.slots[2 * i] == w.slots[2 * i] && r.slots[2 * i + 1] == w.slots[2 * i + 1])
            && (e !in MarkedBefore(mesh, w.visited, t, i) ==>
                  r.slots[2 * i] == WirePointOf(mesh, cfg.theme, edge, edge.v0, direction)
                  && r.slots[2 * i + 1] == WirePointOf(mesh, cfg.theme, edge, edge.v1, direction))
  {
    var w0 := WireCorner(mesh, cfg.theme, direction, w, t, 0);
    var w1 := WireCorner(mesh, cfg.theme, direction, w0, t, 1);
    assert WireTriangle(cfg, mesh, direction, w, t) == WireCorner(mesh, cfg.theme, direction, w1, t, 2);
  }

  /** After a pass with the wire shown, the scratch slots hold the six
      entries last appended to the wireframe buffers, or are still blank when
      no triangle was visible. */
  lemma {:induction false} PackWireTail(cfg: PassConfig, lk: Lookups, mesh: Mesh, tris: seq<LoopTriangle>)
    requires Ready(cfg, lk, mesh) && AllValid(mesh, tris) && WireWanted(cfg)
    ensures var st := PackFold(cfg, lk, mesh, tris);
            var n := |VisibleTris(mesh, tris)|;
            && |st.buffers.wire| == 6 * n
            && (n == 0 ==> st.wire.slots == BlankSlots)
            && (n > 0 ==> st.wire.slots == st.buffers.wire[6 * (n - 1)..])
  {
    PackShape(cfg, lk, mesh, tris);
    if |tris| > 0 {
      var prefix := tris[..|tris| - 1];
      PrefixValid(mesh, tris);
      PackWireTail(cfg, lk, mesh, prefix);
    }
  }

  /** The edges of the triangles in a sequence include those of each one. */
  lemma {:induction false} EdgesOfIncludes(mesh: Mesh, tris: seq<LoopTriangle>, k: nat)
    requires AllValid(mesh, tris) && k < |tris|
    ensures TriangleEdges(mesh, tris[k]) <= EdgesOf(mesh, tris)
  {
    PrefixValid(mesh, tris);
    if k < |tris| - 1 {
      EdgesOfIncludes(mesh, tris[..|tris| - 1], k);
    }
  }

  /** Slots 2i and 2i+1 of the j-th triangle `t` in the wireframe entries
      `wire`, given the edges `marked` before it: the two ends of loop i's
      edge when neither `marked` nor an earlier loop of `t` has that edge;
      otherwise the entries of the previous triangle, blank for the first. */
  predicate SlotsFollow(mesh: Mesh, theme: Theme, wire: seq<WirePoint>, j: nat, i: nat, t: LoopTriangle, marked: set<nat>, dir: Vec3)
    requires ValidMesh(mesh) && ValidTriangle(mesh, t) && i < 3 && 6 * j + 6 <= |wire|
  {
    var e := EdgeOf(mesh, t, i);
    var edge := mesh.edges[e];
    if e !in MarkedBefore(mesh, marked, t, i) then
      wire[6 * j + 2 * i] == WirePointOf(mesh, theme, edge, edge.v0, dir)
      && wire[6 * j + 2 * i + 1] == WirePointOf(mesh, theme, edge, edge.v1, dir)
    else
      wire[6 * j + 2 * i] == (if j == 0 then BlankWire else wire[6 * (j - 1) + 2 * i])
      && wire[6 * j + 2 * i + 1] == (if j == 0 then BlankWire else wire[6 * (j - 1) + 2 * i + 1])
  }

  /** Appending entries does not disturb the slots of an earlier triangle. */
  lemma SlotsFollowExtended(mesh: Mesh, theme: Theme, wire: seq<WirePoint>, more: seq<WirePoint>, j: nat, i: nat,
                            t: LoopTriangle, marked: set<nat>, dir: Vec3)
    requires ValidMesh(mesh) && ValidTriangle(mesh, t) && i < 3 && 6 * j + 6 <= |wire|
    requires SlotsFollow(mesh, theme, wire, j, i, t, marked, dir)
    ensures SlotsFollow(mesh, theme, wire + more, j, i, t, marked, dir)
  {
    var w := wire + more;
    assert w[6 * j + 2 * i] == wire[6 * j + 2 * i] && w[6 * j + 2 * i + 1] == wire[6 * j + 2 * i + 1];
    if j > 0 {
      assert w[6 * (j - 1) + 2 * i] == wire[6 * (j - 1) + 2 * i];
      assert w[6 * (j - 1) + 2 * i + 1] == wire[6 * (j - 1) + 2 * i + 1];
    }
  }

  /** The six entries a visible triangle appends follow the rule, when the
      scratch it starts from holds the previous six entries (or is blank for
      the first triangle) and the marked edges are those seen before it. */
  lemma SlotsFollowAppended(cfg: PassConfig, mesh: Mesh, wire: seq<WirePoint>, j: nat, w: WireScratch, t: LoopTriangle, i: nat, dir: Vec3)
    requires ValidMesh(mesh) && ValidTriangle(mesh, t) && |w.slots| == 6 && i < 3 && WireWanted(cfg)
    requires |wire| == 6 * j
    requires j == 0 ==> w.slots == BlankSlots
    requires j > 0 ==> w.slots == wire[6 * (j - 1)..]
    ensures SlotsFollow(mesh, cfg.theme, wire + WireTriangle(cfg, mesh, dir, w, t).slots, j, i, t, w.visited, dir)
  {
    var r := WireTriangle(cfg, mesh, dir, w, t);
    var all := wire + r.slots;
    WireTriangleSlots(cfg, mesh, dir, w, t, i);
    assert all[6 * j + 2 * i] == r.slots[2 * i] && all[6 * j + 2 * i + 1] == r.slots[2 * i + 1];
    if j > 0 {
      assert w.slots[2 * i] == all[6 * (j - 1) + 2 * i];
      assert w.slots[2 * i + 1] == all[6 * (j - 1) + 2 * i + 1];
    }
  }

  /** The rule for the slots of the last triangle, when it is visible. */
  lemma PackWireSlotsLast(cfg: PassConfig, lk: Lookups, mesh: Mesh, tris: seq<LoopTriangle>, i: nat)
    requires Ready(cfg, lk, mesh) && AllValid(mesh, tris) && WireWanted(cfg) && i < 3
    requires |tris| > 0 && Visible(mesh, tris[|tris| - 1])
    ensures var vis := VisibleTris(mesh, tris);
            var j := |vis| - 1;
            var wire := PackFold(cfg, lk, mesh, tris).buffers.wire;
            && |vis| > 0
            && |wire| == 6 * |vis|
            && SlotsFollow(mesh, cfg.theme, wire, j, i, vis[j], EdgesOf(mesh, vis[..j]), Direction(cfg, lk, vis[j].polygon))
  {
    var prefix := tris[..|tris| - 1];
    var t := tris[|tris| - 1];
    PrefixValid(mesh, tris);
    var st := PackFold(cfg, lk, mesh, prefix);
    PackWireLastStep(cfg, lk, mesh, tris);
    PackWireTail(cfg, lk, mesh, prefix);
    PackVisited(cfg, lk, mesh, prefix);
    SlotsFollowLast(cfg, mesh, st.buffers.wire, st.wire, VisibleTris(mesh, prefix), t, i, Direction(cfg, lk, t.polygon));
  }

  /** `SlotsFollowAppended` for the triangle that follows `vis`. */
  lemma SlotsFollowLast(cfg: PassConfig, mesh: Mesh, wire: seq<WirePoint>, w: WireScratch, vis: seq<LoopTriangle>,
                        t: LoopTriangle, i: nat, dir: Vec3)
    requires ValidMesh(mesh) && AllValid(mesh, vis) && ValidTriangle(mesh, t) && |w.slots| == 6 && i < 3 && WireWanted(cfg)
    requires |wire| == 6 * |vis| && w.visited == EdgesOf(mesh, vis)
    requires |vis| == 0 ==> w.slots == BlankSlots
    requires |vis| > 0 ==> w.slots == wire[6 * (|vis| - 1)..]
    ensures var all := vis + [t];
            AllValid(mesh, all)
            && SlotsFollow(mesh, cfg.theme, wire + WireTriangle(cfg, mesh, dir, w, t).slots, |vis|, i, all[|vis|],
                           EdgesOf(mesh, all[..|vis|]), dir)
  {
    var all := vis + [t];
    assert all[..|vis|] == vis;
    assert all[|vis|] == t;
    SlotsFollowAppended(cfg, mesh, wire, |vis|, w, t, i, dir);
  }

  /** A visible last triangle appends its wireframe scratch to the buffers. */
  lemma PackWireLastStep(cfg: PassConfig, lk: Lookups, mesh: Mesh, tris: seq<LoopTriangle>)
    requires Ready(cfg, lk, mesh) && AllValid(mesh, tris)
    requires |tris| > 0 && Visible(mesh, tris[|tris| - 1])
    ensures var prefix := tris[..|tris| - 1];
            var t := tris[|tris| - 1];
            AllValid(mesh, prefix)
            && var st := PackFold(cfg, lk, mesh, prefix);
            && VisibleTris(mesh, tris) == VisibleTris(mesh, prefix) + [t]
            && PackFold(cfg, lk, mesh, tris).buffers.wire
               == st.buffers.wire + WireTriangle(cfg, mesh, Direction(cfg, lk, t.polygon), st.wire, t).slots
  {
    PrefixValid(mesh, tris);
  }

  /** The rule for the slots of an earlier triangle survives a further one. */
  lemma PackWireSlotsEarlier(cfg: PassConfig, lk: Lookups, mesh: Mesh, tris: seq<LoopTriangle>, j: nat, i: nat)
    requires Ready(cfg, lk, mesh) && AllValid(mesh, tris) && WireWanted(cfg) && i < 3 && |tris| > 0
    requires var prefix := tris[..|tris| - 1];
             AllValid(mesh, prefix)
             && var vis := VisibleTris(mesh, prefix);
             var wire := PackFold(cfg, lk, mesh, prefix).buffers.wire;
             && j < |vis|
             && |wire| == 6 * |vis|
             && SlotsFollow(mesh, cfg.theme, wire, j, i, vis[j], EdgesOf(mesh, vis[..j]), Direction(cfg, lk, vis[j].polygon))
    ensures var vis := VisibleTris(mesh, tris);
            var wire := PackFold(cfg, lk, mesh, tris).buffers.wire;
            && j < |vis|
            && |wire| == 6 * |vis|
            && SlotsFollow(mesh, cfg.theme, wire, j, i, vis[j], EdgesOf(mesh, vis[..j]), Direction(cfg, lk, vis[j].polygon))
  {
    var prefix := tris[..|tris| - 1];
    var t := tris[|tris| - 1];
    var vis := VisibleTris(mesh, prefix);
    var st := PackFold(cfg, lk, mesh, prefix);
    if Visible(mesh, t) {
      var w := WireTriangle(cfg, mesh, Direction(cfg, lk, t.polygon), st.wire, t);
      assert VisibleTris(mesh, tris) == vis + [t];
      assert (vis + [t])[..j] == vis[..j];
      assert (vis + [t])[j] == vis[j];
      assert PackFold(cfg, lk, mesh, tris).buffers.wire == st.buffers.wire + w.slots;
      SlotsFollowExtended(mesh, cfg.theme, st.buffers.wire, w.slots, j, i, vis[j], EdgesOf(mesh, vis[..j]),
                          Direction(cfg, lk, vis[j].polygon));
    }
  }

  /** In the wireframe buffers after a pass with the wire shown, slots 2i and
      2i+1 of the j-th visible triangle hold the ends of loop i's edge when no
      earlier visible triangle and no earlier loop of this one has that edge,
      and otherwise repeat what the previous visible triangle left there. */
  lemma {:induction false} PackWireSlots(cfg: PassConfig, lk: Lookups, mesh: Mesh, tris: seq<LoopTriangle>, j: nat, i: nat)
    requires Ready(cfg, lk, mesh) && AllValid(mesh, tris) && WireWanted(cfg)
    requires j < |VisibleTris(mesh, tris)| && i < 3
    ensures var wire := PackFold(cfg, lk, mesh, tris).buffers.wire;
            var vis := VisibleTris(mesh, tris);
            && |wire| == 6 * |vis|
            && SlotsFollow(mesh, cfg.theme, wire, j, i, vis[j], EdgesOf(mesh, vis[..j]), Direction(cfg, lk, vis[j].polygon))
  {
    var prefix := tris[..|tris| - 1];
    PrefixValid(mesh, tris);
    if Visible(mesh, tris[|tris| - 1]) && j == |VisibleTris(mesh, tris)| - 1 {
      PackWireSlotsLast(cfg, lk, mesh, tris, i);
    } else {
      PackWireSlots(cfg, lk, mesh, prefix, j, i);
      PackWireSlotsEarlier(cfg, lk, mesh, tris, j, i);
    }
  }

  /** An edge shared with an earlier visible triangle is written by that
      triangle only: the later one repeats the previous triangle's slots. */
  lemma SharedEdgeWrittenOnce(cfg: PassConfig, lk: Lookups, mesh: Mesh, tris: seq<LoopTriangle>, j1: nat, j2: nat, i: nat)
    requires Ready(cfg, lk, mesh) && AllValid(mesh, tris) && WireWanted(cfg)
    requires j1 < j2 < |VisibleTris(mesh, tris)| && i < 3
    requires EdgeOf(mesh, VisibleTris(mesh, tris)[j2], i) in TriangleEdges(mesh, VisibleTris(mesh, tris)[j1])
    ensures var wire := PackFold(cfg, lk, mesh, tris).buffers.wire;
            6 * j2 + 2 * i + 1 < |wire|
            && wire[6 * j2 + 2 * i] == wire[6 * (j2 - 1) + 2 * i]
            && wire[6 * j2 + 2 * i + 1] == wire[6 * (j2 - 1) + 2 * i + 1]
  {
    var vis := VisibleTris(mesh, tris);
    assert AllValid(mesh, vis[..j2]);
    assert vis[..j2][j1] == vis[j1];
    EdgesOfIncludes(mesh, vis[..j2], j1);
    PackWireSlots(cfg, lk, mesh, tris, j2, i);
  }

  // ----------------------------------------------------------- the loop

  /** The packing loop as the code runs it: one pass over the loop
      triangles, skipping hidden ones. */
  method PackTriangles(cfg: PassConfig, lk: Lookups, mesh: Mesh) returns (st: PassState)
    requires Ready(cfg, lk, mesh)
    ensures st == PackFold(cfg, lk, mesh, mesh.triangles)
    ensures var vis := |VisibleTris(mesh, mesh.triangles)|;
            |st.buffers.corners| == |st.buffers.inputs| == 3 * vis && |st.buffers.wire| == 6 * vis
    ensures HandlesResolve(st)
    ensures WireWanted(cfg) ==> st.wire.visited == EdgesOf(mesh, VisibleTris(mesh, mesh.triangles))
  {
    assert AllValid(mesh, mesh.triangles);
    st := InitialState;
    var k := 0;
    while k < |mesh.triangles|
      invariant 0 <= k <= |mesh.triangles|
      invariant AllValid(mesh, mesh.triangles[..k])
      invariant st == PackFold(cfg, lk, mesh, mesh.triangles[..k])
    {
      assert mesh.triangles[..k + 1][..k] == mesh.triangles[..k];
      st := Step(cfg, lk, mesh, st, mesh.triangles[k]);
      k := k + 1;
    }
    assert mesh.triangles[..k] == mesh.triangles;
    PackShape(cfg, lk, mesh, mesh.triangles);
    PackAccumulators(cfg, lk, mesh, mesh.triangles);
    PackVisited(cfg, lk, mesh, mesh.triangles);
  }
}
