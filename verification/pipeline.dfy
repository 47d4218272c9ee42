/** `recalculate_info`: one recalculation of the overlay operator. It serves
    a pending request to select overlapping UVs, clears the object's
    `recalculate` flag, relabels overlapping polygons when asked to, colours
    the UV islands when the operation or the explosion view needs them, and
    runs the packing loop.

    What the operator keeps between recalculations is the overlap labels
    only: every other dictionary and buffer is cleared first. */
module Pipeline {
  import opened Geometry
  import opened Wrappers
  import opened MeshData
  import opened Settings
  import Islands
  import Metrics
  import Overlap
  import Packer

  /** The editor state one recalculation reads and writes. */
  datatype Host = Host(
    selectOverlap: bool,          // the window manager's request to select overlapping UVs
    uvSync: bool,                 // UV selection is synced with the mesh selection
    editMode: bool,               // the invoked object is in edit mode
    obj: ObjectSettings,          // the invoked object's settings
    objSelected: bool,            // the invoked object is one of the selected objects
    others: seq<ObjectSettings>   // the settings of the other selected objects
  )

  /** What the host hands over: the evaluated mesh (read after the host's own
      overlapping-UV selection has run, when it ran), its UV islands as lists
      of polygon indices, the object location, the theme and the numerics. */
  datatype Inputs = Inputs(mesh: Mesh, islands: seq<seq<nat>>, location: Vec3, theme: Packer.Theme, num: Numerics)

  /** The operator's state after a recalculation. */
  datatype Overlay = Overlay(labels: map<nat, bool>, islands: Islands.IslandMaps, pass: Packer.PassState)

  /** An operator that has not recalculated yet: no labels. */
  const FreshOverlay: Overlay := Overlay(Overlap.InitialLabels, Islands.NoIslandMaps, Packer.InitialState)

  datatype Recalculated = Recalculated(host: Host, overlay: Overlay)

  /** Island colours are computed for the islands operation and for the explosion view. */
  predicate NeedsIslands(s: ObjectSettings) {
    s.operation == UvIslands || s.explosion
  }

  /** The host's islands name existing polygons and cover every polygon. */
  predicate IslandsCover(islands: seq<seq<nat>>, polygonCount: nat) {
    && Islands.ValidIslands(islands, polygonCount)
    && forall p :: 0 <= p < polygonCount ==> p in Islands.Covered(islands)
  }

  /** What a recalculation needs of the host's data. */
  predicate WellFormed(h: Host, inp: Inputs) {
    && ValidMesh(inp.mesh)
    && (NeedsIslands(h.obj) ==> IslandsCover(inp.islands, |inp.mesh.polygons|))
  }

  function Centres(mesh: Mesh): (r: seq<Vec3>)
    ensures |r| == |mesh.polygons|
    ensures forall k :: 0 <= k < |r| ==> r[k] == mesh.polygons[k].center
  {
    seq(|mesh.polygons|, k requires 0 <= k < |mesh.polygons| => mesh.polygons[k].center)
  }

  /** Marks every settings record for relabelling. */
  function MarkAll(objs: seq<ObjectSettings>): (r: seq<ObjectSettings>)
    ensures |r| == |objs|
    ensures forall k :: 0 <= k < |r| ==> r[k] == objs[k].(overlapRecalculate := true)
  {
    seq(|objs|, k requires 0 <= k < |objs| => objs[k].(overlapRecalculate := true))
  }

  /** A selection request is served in edit mode only, and marks the
      selected objects for relabelling only when UV selection is not synced. */
  predicate ServesSelection(h: Host) {
    h.selectOverlap && h.editMode && !h.uvSync
  }

  /** The overlapping-UV request: in edit mode the request is consumed, and
      without UV sync every selected object is marked for relabelling (the
      host's own selection of overlapping UVs is outside this model; its
      effect is in the mesh the recalculation reads). */
  function ServeSelectionRequest(h: Host): (r: Host)
    ensures r.uvSync == h.uvSync && r.editMode == h.editMode && r.objSelected == h.objSelected
    ensures r.selectOverlap == (h.selectOverlap && !h.editMode)
    ensures r.obj.overlapRecalculate == (h.obj.overlapRecalculate || (ServesSelection(h) && h.objSelected))
    ensures r.obj == h.obj.(overlapRecalculate := r.obj.overlapRecalculate)
    ensures |r.others| == |h.others|
    ensures forall k :: 0 <= k < |r.others| ==>
              r.others[k] == h.others[k].(overlapRecalculate := h.others[k].overlapRecalculate || ServesSelection(h))
  {
    if h.selectOverlap && h.editMode then
      var cleared := h.(selectOverlap := false);
      if h.uvSync then cleared
      else cleared.(obj := if h.objSelected then h.obj.(overlapRecalculate := true) else h.obj,
                    others := MarkAll(h.others))
    else h
  }

  /** The pass settings the object and the editor give. */
  function ConfigOf(h: Host, inp: Inputs): Packer.PassConfig {
    Packer.PassConfig(h.obj.operation, h.obj.stretchType, h.obj.explosion, h.obj.showWire,
                      h.editMode, h.uvSync, inp.theme, inp.num)
  }

  /** The island maps of a recalculation, built from empty maps. */
  function IslandMapsOf(s: ObjectSettings, inp: Inputs): (r: Islands.IslandMaps)
    requires NeedsIslands(s) ==> Islands.ValidIslands(inp.islands, |inp.mesh.polygons|)
    ensures !NeedsIslands(s) ==> r == Islands.NoIslandMaps
    ensures NeedsIslands(s) ==> r.colours.Keys == Islands.Covered(inp.islands)
    ensures r.directions.Keys == (if s.explosion then Islands.Covered(inp.islands) else {})
  {
    if NeedsIslands(s) then
      Islands.RecalculatePolyIslands(inp.islands, Centres(inp.mesh), inp.location, s.explosion, inp.num, Islands.NoIslandMaps)
    else Islands.NoIslandMaps
  }

  function LookupsOf(s: ObjectSettings, inp: Inputs, labels: map<nat, bool>): Packer.Lookups
    requires NeedsIslands(s) ==> Islands.ValidIslands(inp.islands, |inp.mesh.polygons|)
  {
    var maps := IslandMapsOf(s, inp);
    Packer.Lookups(maps.colours, maps.directions, labels)
  }

  /** A recalculation relabels when the object was marked, before or by the
      selection request it serves. */
  predicate Relabels(h: Host) {
    h.obj.overlapRecalculate || (ServesSelection(h) && h.objSelected)
  }

  /** One recalculation. */
  function RecalculateInfo(h: Host, inp: Inputs, ov: Overlay): (r: Recalculated)
    requires WellFormed(h, inp)
    ensures !r.host.obj.recalculate && !r.host.obj.overlapRecalculate
    ensures r.host.obj == h.obj.(recalculate := false, overlapRecalculate := false)
    ensures r.overlay.labels == (if Relabels(h) then Overlap.OverlapLabels(inp.mesh) else ov.labels)
  {
    var h1 := ServeSelectionRequest(h);
    var obj := h1.obj.(recalculate := false, overlapRecalculate := false);
    var labels := if h1.obj.overlapRecalculate then Overlap.OverlapLabels(inp.mesh) else ov.labels;
    var h2 := h1.(obj := obj);
    var maps := IslandMapsOf(obj, inp);
    var lk := Packer.Lookups(maps.colours, maps.directions, labels);
    Recalculated(h2, Overlay(labels, maps, Packer.PackFold(ConfigOf(h2, inp), lk, inp.mesh, inp.mesh.triangles)))
  }

  /** The recalculation as the code runs it: the labelling and packing loops. */
  method RecalculateInfoLoops(h: Host, inp: Inputs, ov: Overlay) returns (r: Recalculated)
    requires WellFormed(h, inp)
    ensures r == RecalculateInfo(h, inp, ov)
    ensures Packer.HandlesResolve(r.overlay.pass)
  {
    var h1 := ServeSelectionRequest(h);
    var labels := ov.labels;
    if h1.obj.overlapRecalculate {
      labels := Overlap.LabelOverlapped(inp.mesh);
    }
    var h2 := h1.(obj := h1.obj.(recalculate := false, overlapRecalculate := false));
    var maps := IslandMapsOf(h2.obj, inp);
    var lk := Packer.Lookups(maps.colours, maps.directions, labels);
    RecalculateInfoPass(h, inp, ov);
    var pass := Packer.PackTriangles(ConfigOf(h2, inp), lk, inp.mesh);
    r := Recalculated(h2, Overlay(labels, maps, pass));
  }

  // ------------------------------------------------------------- properties

  /** The editor after a recalculation: the selection request is consumed
      in edit mode, the other selected objects are marked exactly when it was
      served, and nothing else changes. */
  lemma RecalculateInfoHost(h: Host, inp: Inputs, ov: Overlay)
    requires WellFormed(h, inp)
    ensures var r := RecalculateInfo(h, inp, ov).host;
            && r.selectOverlap == (h.selectOverlap && !h.editMode)
            && r.uvSync == h.uvSync && r.editMode == h.editMode && r.objSelected == h.objSelected
            && |r.others| == |h.others|
            && (forall k :: 0 <= k < |r.others| ==>
                  (r.others[k].overlapRecalculate <==> h.others[k].overlapRecalculate || ServesSelection(h)))
            && (forall k :: 0 <= k < |r.others| ==>
                  r.others[k].(overlapRecalculate := h.others[k].overlapRecalculate) == h.others[k])
  {
  }

  /** The pass runs on the object's settings and the labels and island maps
      of this recalculation, and every polygon has the colour and direction
      its settings ask for. */
  lemma {:induction false} RecalculateInfoPass(h: Host, inp: Inputs, ov: Overlay)
    requires WellFormed(h, inp)
    ensures var r := RecalculateInfo(h, inp, ov);
            var cfg := ConfigOf(r.host, inp);
            var lk := LookupsOf(r.host.obj, inp, r.overlay.labels);
            && Packer.Ready(cfg, lk, inp.mesh)
            && r.overlay.pass == Packer.PackFold(cfg, lk, inp.mesh, inp.mesh.triangles)
  {
    var r := RecalculateInfo(h, inp, ov);
    var maps := IslandMapsOf(r.host.obj, inp);
    assert r.overlay.islands == maps;
    if NeedsIslands(r.host.obj) {
      assert forall p :: 0 <= p < |inp.mesh.polygons| ==> p in maps.colours;
    }
  }

  /** A recalculation on its own result changes nothing: a request it could
      serve is consumed, the labels are kept, and the overlay is rebuilt the
      same. */
  lemma RecalculateInfoSettles(h: Host, inp: Inputs, ov: Overlay)
    requires WellFormed(h, inp)
    ensures var r := RecalculateInfo(h, inp, ov);
            WellFormed(r.host, inp) && RecalculateInfo(r.host, inp, r.overlay) == r
  {
    var r := RecalculateInfo(h, inp, ov);
    assert NeedsIslands(r.host.obj) == NeedsIslands(h.obj);
    var h1 := ServeSelectionRequest(r.host);
    assert h1 == r.host;
  }

  /** After a served request on an object showing overlapping UVs, each
      corner of the j-th visible triangle is blue exactly when every loop of
      its polygon is selected in the UV map, and negative otherwise. */
  lemma {:induction false} OverlapAfterRequest(h: Host, inp: Inputs, ov: Overlay, j: nat, i: nat)
    requires WellFormed(h, inp)
    requires ServesSelection(h) && h.objSelected && h.obj.operation == UvOverlap
    requires j < |Packer.VisibleTris(inp.mesh, inp.mesh.triangles)| && i < 3
    ensures var pass := RecalculateInfo(h, inp, ov).overlay.pass;
            var t := Packer.VisibleTris(inp.mesh, inp.mesh.triangles)[j];
            && 3 * j + i < |pass.buffers.inputs|
            && (pass.buffers.inputs[3 * j + i] == Metrics.Fixed(Overlap.Labelled) <==> Overlap.AllLoopsSelected(inp.mesh, t.polygon))
            && (pass.buffers.inputs[3 * j + i] == Metrics.Fixed(Overlap.Negative) <==> !Overlap.AllLoopsSelected(inp.mesh, t.polygon))
  {
    var r := RecalculateInfo(h, inp, ov);
    RecalculateInfoPass(h, inp, ov);
    var lk := LookupsOf(r.host.obj, inp, r.overlay.labels);
    Packer.PackOverlapInputs(ConfigOf(r.host, inp), lk, inp.mesh, j, i);
    var t := Packer.VisibleTris(inp.mesh, inp.mesh.triangles)[j];
    Overlap.OverlapColourIff(inp.mesh, t.polygon);
    assert Overlap.Labelled != Overlap.Negative;
  }

  // ----------------------------------------------------- unlabelled operator

  /** The code as written keeps no labels until a labelling pass has run
      (`None`), and a pass that reads them then raises. It reads them on the
      first visible triangle when the object shows overlapping UVs in edit
      mode. */
  predicate ReadsMissingLabels(h: Host, inp: Inputs, labels: Option<map<nat, bool>>)
    requires ValidMesh(inp.mesh)
  {
    && labels.None? && !Relabels(h)
    && h.obj.operation == UvOverlap && h.editMode
    && |Packer.VisibleTris(inp.mesh, inp.mesh.triangles)| > 0
  }

  /** One recalculation as written: the labels attribute is created only by
      a labelling pass, and the packing loop reads it through the as-written
      per-triangle overlap colour. */
  function RecalculateInfoAsWritten(h: Host, inp: Inputs, labels: Option<map<nat, bool>>): (r: Overlap.Outcome<Recalculated>)
    requires WellFormed(h, inp)
    ensures r.Ok? ==> !r.value.host.obj.recalculate && !r.value.host.obj.overlapRecalculate
  {
    var h1 := ServeSelectionRequest(h);
    var stored := StoredLabels(h, inp, labels);
    var h2 := h1.(obj := h1.obj.(recalculate := false, overlapRecalculate := false));
    var maps := IslandMapsOf(h2.obj, inp);
    var lk := Packer.Lookups(maps.colours, maps.directions, stored.GetOr(Overlap.InitialLabels));
    match Packer.PackFoldAsWritten(ConfigOf(h2, inp), lk, inp.mesh, inp.mesh.triangles, stored)
    case AttributeError => Overlap.AttributeError
    case Ok(pass) => Overlap.Ok(Recalculated(h2, Overlay(stored.GetOr(Overlap.InitialLabels), maps, pass)))
  }

  /** The labels a recalculation as written ends with: fresh ones when it
      relabels, otherwise whatever the operator had. */
  function StoredLabels(h: Host, inp: Inputs, labels: Option<map<nat, bool>>): Option<map<nat, bool>>
    requires ValidMesh(inp.mesh)
  {
    if ServeSelectionRequest(h).obj.overlapRecalculate then Some(Overlap.OverlapLabels(inp.mesh)) else labels
  }

  /** The pass as written, in terms of the settings the recalculation packs with. */
  lemma AsWrittenPass(h: Host, inp: Inputs, labels: Option<map<nat, bool>>)
    requires WellFormed(h, inp)
    ensures var r := RecalculateInfo(h, inp, Overlay(labels.GetOr(Overlap.InitialLabels), Islands.NoIslandMaps, Packer.InitialState));
            var cfg := ConfigOf(r.host, inp);
            var lk := LookupsOf(r.host.obj, inp, r.overlay.labels);
            var stored := StoredLabels(h, inp, labels);
            && Packer.Ready(cfg, lk, inp.mesh) && Packer.AllValid(inp.mesh, inp.mesh.triangles)
            && r.overlay.labels == stored.GetOr(Overlap.InitialLabels)
            && RecalculateInfoAsWritten(h, inp, labels)
               == (match Packer.PackFoldAsWritten(cfg, lk, inp.mesh, inp.mesh.triangles, stored)
                   case AttributeError => Overlap.AttributeError
                   case Ok(pass) => Overlap.Ok(r.(overlay := r.overlay.(pass := pass))))
  {
    RecalculateInfoPass(h, inp, Overlay(labels.GetOr(Overlap.InitialLabels), Islands.NoIslandMaps, Packer.InitialState));
  }

  /** The recalculation as written raises exactly when it reads labels that
      were never created: no labels yet, no relabelling, overlapping UVs
      shown in edit mode and at least one visible triangle. Otherwise it is
      the recalculation with those labels, or none. */
  lemma RecalculateInfoAsWrittenOutcome(h: Host, inp: Inputs, labels: Option<map<nat, bool>>)
    requires WellFormed(h, inp)
    ensures var r := RecalculateInfoAsWritten(h, inp, labels);
            && (r.AttributeError? <==> ReadsMissingLabels(h, inp, labels))
            && (!ReadsMissingLabels(h, inp, labels) ==>
                  r == Overlap.Ok(RecalculateInfo(h, inp, Overlay(labels.GetOr(Overlap.InitialLabels), Islands.NoIslandMaps, Packer.InitialState))))
  {
    var ri := RecalculateInfo(h, inp, Overlay(labels.GetOr(Overlap.InitialLabels), Islands.NoIslandMaps, Packer.InitialState));
    var cfg := ConfigOf(ri.host, inp);
    var lk := LookupsOf(ri.host.obj, inp, ri.overlay.labels);
    var stored := StoredLabels(h, inp, labels);
    AsWrittenPass(h, inp, labels);
    RecalculateInfoPass(h, inp, Overlay(labels.GetOr(Overlap.InitialLabels), Islands.NoIslandMaps, Packer.InitialState));
    Packer.PackFoldAsWrittenOutcome(cfg, lk, inp.mesh, inp.mesh.triangles, stored);
    assert stored.None? <==> labels.None? && !Relabels(h);
    assert cfg.operation == h.obj.operation && cfg.editMode == h.editMode;
  }

  /** A fresh operator on an object that shows overlapping UVs, in edit mode
      with UV sync on (for instance after reopening a file saved with that
      overlay and refreshing it): a pending request is consumed without
      marking anything, no labelling pass runs, and the first visible
      triangle reads labels that do not exist. */
  lemma UnlabelledOverlayRaises(h: Host, inp: Inputs)
    requires WellFormed(h, inp)
    requires h.editMode && h.uvSync && !h.obj.overlapRecalculate && h.obj.operation == UvOverlap
    requires |Packer.VisibleTris(inp.mesh, inp.mesh.triangles)| > 0
    ensures RecalculateInfoAsWritten(h, inp, None) == Overlap.AttributeError
  {
    RecalculateInfoAsWrittenOutcome(h, inp, None);
  }

  /** Creating the labels empty with the operator removes the failure, and
      once labels exist it agrees with the code as written. */
  lemma FreshOverlayNeverRaises(h: Host, inp: Inputs, labels: map<nat, bool>)
    requires WellFormed(h, inp)
    ensures RecalculateInfo(h, inp, FreshOverlay).overlay.labels
              == (if Relabels(h) then Overlap.OverlapLabels(inp.mesh) else map[])
    ensures RecalculateInfoAsWritten(h, inp, Some(labels))
              == Overlap.Ok(RecalculateInfo(h, inp, Overlay(labels, Islands.NoIslandMaps, Packer.InitialState)))
  {
    RecalculateInfoAsWrittenOutcome(h, inp, Some(labels));
  }
}
