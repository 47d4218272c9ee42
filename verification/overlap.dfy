/** Overlapping UVs. The host first selects every UV that overlaps another
    one; the overlay then labels each polygon whose loops are all selected in
    the UV map, and a triangle of a labelled polygon is drawn blue. */
module Overlap {
  import opened Geometry
  import opened Wrappers
  import opened MeshData
  import Shading

  /** The input of a labelled triangle, and of anything not to be drawn. */
  const Labelled: Vec2 := Vec2(Shading.ColorBlue, 0.0)
  const Negative: Vec2 := Vec2(Shading.ColorNegative, 0.0)

  /** Every loop of polygon `p` is selected in the active UV map. */
  predicate AllLoopsSelected(mesh: Mesh, p: nat)
    requires ValidMesh(mesh) && p < |mesh.polygons|
  {
    forall i :: 0 <= i < |mesh.polygons[p].loopIndices| ==> mesh.loops[mesh.polygons[p].loopIndices[i]].uvSelect
  }

  /** The labels a labelling pass should produce: `true` for exactly the
      polygons whose loops are all selected. */
  function OverlapLabels(mesh: Mesh): (r: map<nat, bool>)
    requires ValidMesh(mesh)
    ensures forall p :: p in r ==> r[p]
  {
    map p | 0 <= p < |mesh.polygons| && AllLoopsSelected(mesh, p) :: true
  }

  /** `label_overlapped`: a fresh map, filled polygon by polygon; every loop
      of a polygon is inspected, none is skipped. */
  method LabelOverlapped(mesh: Mesh) returns (labels: map<nat, bool>)
    requires ValidMesh(mesh)
    ensures forall p: nat :: p in labels <==> p < |mesh.polygons| && AllLoopsSelected(mesh, p)
    ensures forall p :: p in labels ==> labels[p]
    ensures labels == OverlapLabels(mesh)
  {
    labels := map[];
    var p := 0;
    while p < |mesh.polygons|
      invariant 0 <= p <= |mesh.polygons|
      invariant forall q: nat :: q in labels <==> q < p && AllLoopsSelected(mesh, q)
      invariant forall q :: q in labels ==> labels[q]
    {
      var loopIndices := mesh.polygons[p].loopIndices;
      var isSelected := true;
      var i := 0;
      while i < |loopIndices|
        invariant 0 <= i <= |loopIndices|
        invariant isSelected <==> forall k :: 0 <= k < i ==> mesh.loops[loopIndices[k]].uvSelect
      {
        if !mesh.loops[loopIndices[i]].uvSelect {
          isSelected := false;
        }
        i := i + 1;
      }
      if isSelected {
        labels := labels[p := true];
      }
      p := p + 1;
    }
  }

  /** `recalculate_uv_overlap` with the labels the operator holds: blue for a
      labelled polygon, the negative sentinel otherwise. The same value goes to
      all three corners of the triangle. */
  function RecalculateUvOverlap(labels: map<nat, bool>, poly: nat): (r: Vec2)
    ensures r == Labelled || r == Negative
  {
    if poly in labels && labels[poly] then Labelled else Negative
  }

  /** A triangle after a labelling pass is blue exactly when every loop of its
      polygon is selected in the UV map. */
  lemma OverlapColourIff(mesh: Mesh, poly: nat)
    requires ValidMesh(mesh) && poly < |mesh.polygons|
    ensures RecalculateUvOverlap(OverlapLabels(mesh), poly) == Labelled <==> AllLoopsSelected(mesh, poly)
    ensures RecalculateUvOverlap(OverlapLabels(mesh), poly) == Negative <==> !AllLoopsSelected(mesh, poly)
  {
  }

  /** The result of reading the operator's labels, which may raise. */
  datatype Outcome<T> = Ok(value: T) | AttributeError

  /** The code as written: the labels attribute exists only once a labelling
      pass has run on this operator (`None` otherwise), and reading a missing
      attribute raises. */
  function RecalculateUvOverlapAsWritten(labels: Option<map<nat, bool>>, poly: nat): (r: Outcome<Vec2>)
    ensures labels.None? <==> r.AttributeError?
    ensures labels.Some? ==> r == Ok(RecalculateUvOverlap(labels.value, poly))
  {
    match labels
    case None => AttributeError
    case Some(l) => if poly in l && l[poly] then Ok(Labelled) else Ok(Negative)
  }

  /** An overlay started without a labelling pass fails on its first
      triangle of the overlap operation. */
  lemma UnlabelledOperatorRaises(poly: nat)
    ensures RecalculateUvOverlapAsWritten(None, poly) == AttributeError
  {
  }

  /** The operator state with the labels attribute created empty when the
      operator starts, which is what the rest of this model uses. */
  const InitialLabels: map<nat, bool> := map[]

  /** Starting from empty labels, a triangle is not shown as overlapping
      before a labelling pass, and once labels exist the corrected reading
      agrees with the code as written. */
  lemma CorrectedOverlapAgrees(labels: Option<map<nat, bool>>, poly: nat)
    ensures RecalculateUvOverlap(labels.GetOr(InitialLabels), poly) == Negative || labels.Some?
    ensures labels.Some? ==> RecalculateUvOverlapAsWritten(labels, poly) == Ok(RecalculateUvOverlap(labels.GetOr(InitialLabels), poly))
  {
  }
}
