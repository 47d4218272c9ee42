/** `recalc_triangle_input`: the input a triangle hands to its three corners,
    chosen by the object's operation. */
module Dispatch {
  import opened Geometry
  import opened Settings
  import opened Metrics
  import Overlap
  import Shading

  /** The input of a triangle that has nothing to show. */
  const Negative: Vec2 := Overlap.Negative

  /** `recalculate_uv_normals`: blue when the UV triangle faces up (its normal's
      z is not negative), red when it is flipped. */
  function UvNormalColour(num: Numerics, uvTri: Tri): (r: Vec2)
    ensures r.y == 0.0
    ensures r.x == Shading.ColorBlue <==> num.normalZ(uvTri.a, uvTri.b, uvTri.c) >= 0.0
    ensures r.x == Shading.ColorRed <==> num.normalZ(uvTri.a, uvTri.b, uvTri.c) < 0.0
  {
    Vec2(if num.normalZ(uvTri.a, uvTri.b, uvTri.c) >= 0.0 then Shading.ColorBlue else Shading.ColorRed, 0.0)
  }

  /** What the object's settings say about one triangle. */
  datatype TriangleSource = TriangleSource(vertices: seq<nat>, poly: nat, tri: Tri, uvTri: Tri)

  /** The input of a triangle: island colour, one of the stretching metrics,
      the UV normal colour, the overlap label (only in edit mode), and the
      negative sentinel for anything else. */
  function RecalcTriangleInput(op: Operation, stretchType: StretchType, editMode: bool, num: Numerics,
                               islandColours: map<nat, Vec2>, labels: map<nat, bool>,
                               acc: Accumulators, src: TriangleSource): (r: TriangleInput)
    requires |src.vertices| == 3
    requires op == UvIslands ==> src.poly in islandColours
    ensures |r.refs| == 3
    ensures Grows(acc, r.acc) && forall i :: 0 <= i < 3 ==> Resolvable(r.acc, r.refs[i])
    ensures op != UvStretching ==> r.acc == acc
    ensures op == UvIslands ==> r.refs == Triple(Fixed(islandColours[src.poly]))
    ensures op == UvNormals ==> r.refs == Triple(Fixed(UvNormalColour(num, src.uvTri)))
    ensures op == UvOverlap && editMode ==> r.refs == Triple(Fixed(Overlap.RecalculateUvOverlap(labels, src.poly)))
    ensures op == NoOperation || (op == UvOverlap && !editMode) ==> r.refs == Triple(Fixed(Negative))
    ensures op == UvStretching && stretchType == Area ==> r == AreaStretching(num, acc, src.poly, src.tri, src.uvTri)
    ensures op == UvStretching && stretchType == EdgeLength ==> r == EdgeLengthStretching(num, acc, src.poly, src.tri, src.uvTri)
    ensures op == UvStretching && stretchType == Angles ==>
              r == AngleStretching(num, acc, src.vertices, src.poly, src.tri, src.uvTri)
  {
    match op
    case UvIslands => TriangleInput(acc, Triple(Fixed(islandColours[src.poly])))
    case UvStretching =>
      (match stretchType
       case Angles => AngleStretching(num, acc, src.vertices, src.poly, src.tri, src.uvTri)
       case Area => AreaStretching(num, acc, src.poly, src.tri, src.uvTri)
       case EdgeLength => EdgeLengthStretching(num, acc, src.poly, src.tri, src.uvTri))
    case UvNormals => TriangleInput(acc, Triple(Fixed(UvNormalColour(num, src.uvTri))))
    case UvOverlap =>
      if editMode then TriangleInput(acc, Triple(Fixed(Overlap.RecalculateUvOverlap(labels, src.poly))))
      else TriangleInput(acc, Triple(Fixed(Negative)))
    case NoOperation => TriangleInput(acc, Triple(Fixed(Negative)))
  }

  /** Which accumulator (or fixed value) a corner shows does not depend on
      what the accumulators held before the triangle. */
  lemma RefsIndependentOfAccumulators(op: Operation, stretchType: StretchType, editMode: bool, num: Numerics,
                                      islandColours: map<nat, Vec2>, labels: map<nat, bool>,
                                      acc1: Accumulators, acc2: Accumulators, src: TriangleSource)
    requires |src.vertices| == 3
    requires op == UvIslands ==> src.poly in islandColours
    ensures RecalcTriangleInput(op, stretchType, editMode, num, islandColours, labels, acc1, src).refs
         == RecalcTriangleInput(op, stretchType, editMode, num, islandColours, labels, acc2, src).refs
  {
  }

  /** A triangle with nothing to show is transparent in the UV editor: the
      sensitivity uniform is 0 outside the stretching overlay. */
  lemma NothingToShowIsTransparent(op: Operation, stretchType: StretchType, editMode: bool, num: Numerics,
                                   islandColours: map<nat, Vec2>, labels: map<nat, bool>,
                                   acc: Accumulators, src: TriangleSource, u: Shading.ColourUniforms, i: nat)
    requires |src.vertices| == 3 && i < 3
    requires op == NoOperation || (op == UvOverlap && !editMode)
    requires u.maxDivision == Shading.MaxDivisionUniform(false, MaxDivisionDefault)
    ensures var r := RecalcTriangleInput(op, stretchType, editMode, num, islandColours, labels, acc, src);
            Shading.UvVertexColour(Resolve(r.acc, r.refs[i]), u) == Shading.Transparent
  {
    Shading.NegativeSentinelIsTransparent(u);
  }

  /** An island or flipped-normal triangle is never transparent in the UV
      editor as long as its colour value is not negative. */
  lemma IslandAndNormalInputsShow(op: Operation, stretchType: StretchType, editMode: bool, num: Numerics,
                                  islandColours: map<nat, Vec2>, labels: map<nat, bool>,
                                  acc: Accumulators, src: TriangleSource, u: Shading.ColourUniforms, i: nat)
    requires |src.vertices| == 3 && i < 3
    requires op == UvNormals || (op == UvIslands && src.poly in islandColours && islandColours[src.poly].x >= 0.0)
    requires u.maxDivision == Shading.MaxDivisionUniform(false, MaxDivisionDefault)
    ensures var r := RecalcTriangleInput(op, stretchType, editMode, num, islandColours, labels, acc, src);
            Shading.UvVertexColour(Resolve(r.acc, r.refs[i]), u).Shaded?
  {
  }

  /** Every edge-length accumulator starts at y = 1 and no triangle changes
      its y. */
  lemma {:induction false} LengthAccumulatorsKeepUnitY(op: Operation, stretchType: StretchType, editMode: bool, num: Numerics,
                                    islandColours: map<nat, Vec2>, labels: map<nat, bool>,
                                    acc: Accumulators, src: TriangleSource)
    requires |src.vertices| == 3
    requires op == UvIslands ==> src.poly in islandColours
    requires UnitLengthY(acc)
    ensures UnitLengthY(RecalcTriangleInput(op, stretchType, editMode, num, islandColours, labels, acc, src).acc)
  {
    var r := RecalcTriangleInput(op, stretchType, editMode, num, islandColours, labels, acc, src);
    if op == UvStretching && stretchType == EdgeLength {
      assert r.acc == AddLengths(acc, src.poly, EdgeRatios(num, src.tri, src.uvTri));
    } else {
      assert r.acc.lengths == acc.lengths;
    }
  }
}
