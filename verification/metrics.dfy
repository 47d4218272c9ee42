/** The per-triangle distortion metrics of the stretching overlay and the
    per-polygon accumulators they feed.

    A metric compares a mesh triangle with its UV triangle (UV coordinates
    lifted to z = 0). The accumulators live for one recalculation pass. In the
    code, the value a triangle hands to its corners is the accumulator object
    itself, which later triangles of the same polygon keep mutating, and the
    GPU buffers are only filled after the pass. A corner's input is therefore
    recorded here as an `InputRef` naming the accumulator, resolved against
    the accumulators at the end of the pass. */
module Metrics {
  import opened Geometry
  import Shading

  datatype Tri = Tri(a: Vec3, b: Vec3, c: Vec3)

  /** Corner `i` (0, 1 or 2) of a triangle. */
  function Corner(t: Tri, i: nat): Vec3
    requires i < 3
  {
    if i == 0 then t.a else if i == 1 then t.b else t.c
  }

  /** The triangle with its corners taken from the second one on. */
  function Rotate(t: Tri): Tri {
    Tri(t.b, t.c, t.a)
  }

  /** Edge vectors from each corner to the next, wrapping around. */
  function Edges(t: Tri): (r: seq<Vec3>)
    ensures |r| == 3
    ensures forall i :: 0 <= i < 3 ==> r[i] == Sub(Corner(t, (i + 1) % 3), Corner(t, i))
  {
    [Sub(t.b, t.a), Sub(t.c, t.b), Sub(t.a, t.c)]
  }

  // ---------------------------------------------------------------- angles

  /** The angle at `apex` between the edges to `p` and to `q`; 0 when either
      edge has zero length. */
  function CornerAngle(num: Numerics, apex: Vec3, p: Vec3, q: Vec3): real {
    var e1 := Sub(p, apex);
    var e2 := Sub(q, apex);
    if num.length(e1) == 0.0 || num.length(e2) == 0.0 then 0.0 else num.angle(e1, e2)
  }

  /** `get_angles`: the interior angle at each corner, measured from the
      edge to the next corner towards the edge to the previous one. */
  function GetAngles(num: Numerics, t: Tri): (r: seq<real>)
    ensures |r| == 3
    ensures forall i :: 0 <= i < 3 ==> r[i] == CornerAngle(num, Corner(t, i), Corner(t, (i + 1) % 3), Corner(t, (i + 2) % 3))
    ensures forall i :: 0 <= i < 3 && num.length(Sub(Corner(t, (i + 1) % 3), Corner(t, i))) == 0.0 ==> r[i] == 0.0
    ensures forall i :: 0 <= i < 3 && num.length(Sub(Corner(t, (i + 2) % 3), Corner(t, i))) == 0.0 ==> r[i] == 0.0
  {
    [CornerAngle(num, t.a, t.b, t.c), CornerAngle(num, t.b, t.c, t.a), CornerAngle(num, t.c, t.a, t.b)]
  }

  /** Starting the triangle at its second corner rotates its angles the same way. */
  lemma GetAnglesRotation(num: Numerics, t: Tri)
    ensures GetAngles(num, Rotate(t)) == GetAngles(num, t)[1..] + GetAngles(num, t)[..1]
  {
  }

  /** A triangle collapsed to a point has all angles 0, whatever the angle
      function returns, as long as the zero vector has length 0. */
  lemma GetAnglesCollapsed(num: Numerics, v: Vec3)
    requires num.length(Zero3) == 0.0
    ensures GetAngles(num, Tri(v, v, v)) == [0.0, 0.0, 0.0]
  {
    assert Sub(v, v) == Zero3;
  }

  // ----------------------------------------------------------- edge lengths

  /** The lengths of the three edges, as one vector. */
  function SideLengths(num: Numerics, t: Tri): Vec3 {
    var e := Edges(t);
    Vec3(num.length(e[0]), num.length(e[1]), num.length(e[2]))
  }

  /** The edge lengths scaled to unit length, so that only their proportions count. */
  function NormalizedSides(num: Numerics, t: Tri): Vec3 {
    num.normalize(SideLengths(num, t))
  }

  /** The stretch of one edge: 0 if either length is 0, otherwise the larger
      length over the smaller. */
  function EdgeRatio(length: real, uvLength: real): (r: real)
    ensures length == 0.0 || uvLength == 0.0 ==> r == 0.0
    ensures length > 0.0 && uvLength > 0.0 ==> r >= 1.0 && r == Shading.Max(length, uvLength) / Shading.Min(length, uvLength)
  {
    if length == 0.0 || uvLength == 0.0 then 0.0
    else if length > uvLength then
      (if uvLength > 0.0 then Shading.RatioAtLeastOne(length, uvLength); length / uvLength else length / uvLength)
    else
      (if length > 0.0 then Shading.RatioAtLeastOne(uvLength, length); uvLength / length else uvLength / length)
  }

  /** The Python edge ratio and the shaders' division are the same function. */
  lemma EdgeRatioIsShaderDivision(length: real, uvLength: real)
    ensures EdgeRatio(length, uvLength) == Shading.GetDivision(length, uvLength)
  {
  }

  /** For lengths that are not negative, a ratio is never strictly between 0 and 1. */
  lemma EdgeRatioNotBelowOne(length: real, uvLength: real)
    requires length >= 0.0 && uvLength >= 0.0
    ensures EdgeRatio(length, uvLength) == 0.0 || EdgeRatio(length, uvLength) >= 1.0
  {
  }

  /** One halving step of the running edge-length average. */
  function HalfStep(x: real, ratio: real): real {
    (x + ratio) / 2.0
  }

  /** Folds the ratios into the accumulator, one halving step per ratio in order. */
  function FoldLength(acc: Vec2, ratios: seq<real>): (r: Vec2)
    ensures r.y == acc.y
    ensures |ratios| == 0 ==> r == acc
    decreases ratios
  {
    if |ratios| == 0 then acc else FoldLength(Vec2(HalfStep(acc.x, ratios[0]), acc.y), ratios[1..])
  }

  /** Three folded ratios weigh 1/8, 1/4 and 1/2, and the old value 1/8:
      the newest edge counts most, so this is not a mean. */
  lemma FoldLengthThree(acc: Vec2, r0: real, r1: real, r2: real)
    ensures FoldLength(acc, [r0, r1, r2]).x == acc.x / 8.0 + r0 / 8.0 + r1 / 4.0 + r2 / 2.0
  {
    var x1 := HalfStep(acc.x, r0);
    var x2 := HalfStep(x1, r1);
    assert [r0, r1, r2][1..] == [r1, r2];
    assert [r1, r2][1..] == [r2];
    assert FoldLength(acc, [r0, r1, r2]) == FoldLength(Vec2(x1, acc.y), [r1, r2]);
    assert FoldLength(Vec2(x1, acc.y), [r1, r2]) == FoldLength(Vec2(x2, acc.y), [r2]);
    assert FoldLength(Vec2(x2, acc.y), [r2]).x == HalfStep(x2, r2);
  }

  /** Folding keeps the value inside any interval holding the old value and every ratio. */
  lemma {:induction false} FoldLengthBounds(acc: Vec2, ratios: seq<real>, lo: real, hi: real)
    requires lo <= acc.x <= hi
    requires forall i :: 0 <= i < |ratios| ==> lo <= ratios[i] <= hi
    ensures lo <= FoldLength(acc, ratios).x <= hi
    decreases |ratios|
  {
    if |ratios| > 0 {
      FoldLengthBounds(Vec2(HalfStep(acc.x, ratios[0]), acc.y), ratios[1..], lo, hi);
    }
  }

  /** The order of the ratios matters: two ratios folded either way differ. */
  lemma FoldLengthOrderMatters()
    ensures FoldLength(Vec2(0.0, 1.0), [1.0, 2.0]) != FoldLength(Vec2(0.0, 1.0), [2.0, 1.0])
  {
    assert [1.0, 2.0][1..] == [2.0];
    assert [2.0, 1.0][1..] == [1.0];
    assert [2.0][1..] == [] && [1.0][1..] == [];
  }

  /** The per-edge ratios of a triangle pair, from normalised side lengths. */
  function EdgeRatios(num: Numerics, tri: Tri, uvTri: Tri): (r: seq<real>)
    ensures |r| == 3
  {
    var t := NormalizedSides(num, tri);
    var u := NormalizedSides(num, uvTri);
    [EdgeRatio(t.x, u.x), EdgeRatio(t.y, u.y), EdgeRatio(t.z, u.z)]
  }

  // ----------------------------------------------------------------- areas

  /** Lays the three sides end to end along the given directions, giving the
      three corners of a reconstructed triangle. */
  function Reconstruct(sides: Vec3, dirs: seq<Vec3>): (r: seq<Vec3>)
    requires |dirs| == 3
    ensures |r| == 3
    ensures r[0] == Scale(sides.x, dirs[0])
    ensures r[1] == Add(r[0], Scale(sides.y, dirs[1])) && r[2] == Add(r[1], Scale(sides.z, dirs[2]))
  {
    var p0 := Add(Zero3, Scale(sides.x, dirs[0]));
    var p1 := Add(p0, Scale(sides.y, dirs[1]));
    var p2 := Add(p1, Scale(sides.z, dirs[2]));
    [p0, p1, p2]
  }

  /** Scaling every side by `k` scales every rebuilt corner by `k`, so
      rebuilt triangles with proportional sides are similar. */
  lemma ReconstructScales(sides: Vec3, dirs: seq<Vec3>, k: real)
    requires |dirs| == 3
    ensures var r := Reconstruct(sides, dirs);
            var s := Reconstruct(Scale(k, sides), dirs);
            forall n :: 0 <= n < 3 ==> s[n] == Scale(k, r[n])
  {
    var r := Reconstruct(sides, dirs);
    var ks := Scale(k, sides);
    var s := Reconstruct(ks, dirs);
    ScaleTwice(k, sides.x, ks.x, dirs[0]);
    assert s[0] == Scale(k, r[0]);
    ScaleTwice(k, sides.y, ks.y, dirs[1]);
    ScaleAdd(k, r[0], Scale(sides.y, dirs[1]));
    assert s[1] == Scale(k, r[1]);
    ScaleTwice(k, sides.z, ks.z, dirs[2]);
    ScaleAdd(k, r[1], Scale(sides.z, dirs[2]));
  }

  lemma ScaleTwice(k: real, a: real, ka: real, v: Vec3)
    requires ka == k * a
    ensures Scale(ka, v) == Scale(k, Scale(a, v))
  {
    assert ka * v.x == k * (a * v.x);
    assert ka * v.y == k * (a * v.y);
    assert ka * v.z == k * (a * v.z);
  }

  lemma ScaleAdd(k: real, a: Vec3, b: Vec3)
    ensures Scale(k, Add(a, b)) == Add(Scale(k, a), Scale(k, b))
  {
  }

  /** The normalised directions of the UV triangle's edges. */
  function UvDirections(num: Numerics, uvTri: Tri): (r: seq<Vec3>)
    ensures |r| == 3
  {
    var e := Edges(uvTri);
    [num.normalize(e[0]), num.normalize(e[1]), num.normalize(e[2])]
  }

  /** The areas compared by the area metric: both triangles are rebuilt from
      their normalised side lengths, laid along the UV triangle's edge
      directions; the result is (mesh area, UV area). */
  function AreaPair(num: Numerics, tri: Tri, uvTri: Tri): (r: Vec2)
    ensures NormalizedSides(num, tri) == NormalizedSides(num, uvTri) ==> r.x == r.y
  {
    var dirs := UvDirections(num, uvTri);
    var t := Reconstruct(NormalizedSides(num, tri), dirs);
    var u := Reconstruct(NormalizedSides(num, uvTri), dirs);
    Vec2(num.areaTri(t[0], t[1], t[2]), num.areaTri(u[0], u[1], u[2]))
  }

  // ------------------------------------------------------------ accumulators

  /** The accumulators of one pass: area pairs by polygon, angle pairs by
      (vertex, polygon), and edge-length averages by polygon. */
  datatype Accumulators = Accumulators(
    areas: map<nat, Vec2>,
    angles: map<(nat, nat), Vec2>,
    lengths: map<nat, Vec2>
  )

  const NoAccumulators: Accumulators := Accumulators(map[], map[], map[])

  /** The accumulator a polygon's first triangle creates for the edge-length metric. */
  const LengthStart: Vec2 := Vec2(0.0, 1.0)

  /** Adds a pair to a polygon's area sums; the first visit creates the entry. */
  function AddArea(acc: Accumulators, poly: nat, pair: Vec2): (r: Accumulators)
    ensures r.areas.Keys == acc.areas.Keys + {poly}
    ensures poly !in acc.areas ==> r.areas[poly] == pair
    ensures poly in acc.areas ==> r.areas[poly] == Plus(acc.areas[poly], pair)
    ensures forall q :: q in acc.areas && q != poly ==> r.areas[q] == acc.areas[q]
    ensures r.angles == acc.angles && r.lengths == acc.lengths
  {
    var sum := if poly in acc.areas then Plus(acc.areas[poly], pair) else pair;
    acc.(areas := acc.areas[poly := sum])
  }

  /** Adds a pair to the angle sums of one (vertex, polygon) key. */
  function AddAngle(acc: Accumulators, key: (nat, nat), pair: Vec2): (r: Accumulators)
    ensures r.angles.Keys == acc.angles.Keys + {key}
    ensures key !in acc.angles ==> r.angles[key] == pair
    ensures key in acc.angles ==> r.angles[key] == Plus(acc.angles[key], pair)
    ensures forall k :: k in acc.angles && k != key ==> r.angles[k] == acc.angles[k]
    ensures r.areas == acc.areas && r.lengths == acc.lengths
  {
    var sum := if key in acc.angles then Plus(acc.angles[key], pair) else pair;
    acc.(angles := acc.angles[key := sum])
  }

  /** Folds a triangle's ratios into its polygon's edge-length average,
      starting from (0, 1) on the polygon's first visit. */
  function AddLengths(acc: Accumulators, poly: nat, ratios: seq<real>): (r: Accumulators)
    ensures r.lengths.Keys == acc.lengths.Keys + {poly}
    ensures poly !in acc.lengths ==> r.lengths[poly] == FoldLength(LengthStart, ratios)
    ensures poly in acc.lengths ==> r.lengths[poly] == FoldLength(acc.lengths[poly], ratios)
    ensures r.lengths[poly].y == (if poly in acc.lengths then acc.lengths[poly].y else 1.0)
    ensures forall q :: q in acc.lengths && q != poly ==> r.lengths[q] == acc.lengths[q]
    ensures r.areas == acc.areas && r.angles == acc.angles
  {
    var start := if poly in acc.lengths then acc.lengths[poly] else LengthStart;
    acc.(lengths := acc.lengths[poly := FoldLength(start, ratios)])
  }

  /** Every edge-length sum keeps the y = 1 its start value gives it. */
  predicate UnitLengthY(acc: Accumulators) {
    forall p :: p in acc.lengths ==> acc.lengths[p].y == 1.0
  }

  /** Area sums do not depend on the order in which triangles are visited. */
  lemma AddAreaCommutes(acc: Accumulators, p: nat, a: Vec2, q: nat, b: Vec2)
    ensures AddArea(AddArea(acc, p, a), q, b) == AddArea(AddArea(acc, q, b), p, a)
  {
    var left := AddArea(AddArea(acc, p, a), q, b);
    var right := AddArea(AddArea(acc, q, b), p, a);
    assert left.areas == right.areas;
  }

  /** Angle sums do not depend on the order in which triangles are visited. */
  lemma AddAngleCommutes(acc: Accumulators, k1: (nat, nat), a: Vec2, k2: (nat, nat), b: Vec2)
    ensures AddAngle(AddAngle(acc, k1, a), k2, b) == AddAngle(AddAngle(acc, k2, b), k1, a)
  {
    var left := AddAngle(AddAngle(acc, k1, a), k2, b);
    var right := AddAngle(AddAngle(acc, k2, b), k1, a);
    assert left.angles == right.angles;
  }

  // ---------------------------------------------------- corner input handles

  /** What a corner's input is: a value fixed when the triangle is visited,
      or the accumulator of a polygon (or of a vertex of a polygon) as it
      stands at the end of the pass. */
  datatype InputRef = Fixed(value: Vec2) | AreaOf(poly: nat) | AngleOf(vertex: nat, poly: nat) | LengthOf(poly: nat)

  predicate Resolvable(acc: Accumulators, ref: InputRef) {
    match ref
    case Fixed(_) => true
    case AreaOf(p) => p in acc.areas
    case AngleOf(v, p) => (v, p) in acc.angles
    case LengthOf(p) => p in acc.lengths
  }

  /** The value a corner shows: read from the accumulators after the pass. */
  function Resolve(acc: Accumulators, ref: InputRef): Vec2
    requires Resolvable(acc, ref)
  {
    match ref
    case Fixed(v) => v
    case AreaOf(p) => acc.areas[p]
    case AngleOf(v, p) => acc.angles[(v, p)]
    case LengthOf(p) => acc.lengths[p]
  }

  /** Accumulators only gain keys during a pass. */
  predicate Grows(before: Accumulators, after: Accumulators) {
    && before.areas.Keys <= after.areas.Keys
    && before.angles.Keys <= after.angles.Keys
    && before.lengths.Keys <= after.lengths.Keys
  }

  /** The inputs of one triangle and the accumulators after it. */
  datatype TriangleInput = TriangleInput(acc: Accumulators, refs: seq<InputRef>)

  function Triple(ref: InputRef): seq<InputRef> {
    [ref, ref, ref]
  }

  /** `recalculate_area_stretching`: the triangle's area pair is added to its
      polygon's sums and all three corners show those sums. */
  function AreaStretching(num: Numerics, acc: Accumulators, poly: nat, tri: Tri, uvTri: Tri): (r: TriangleInput)
    ensures r.acc == AddArea(acc, poly, AreaPair(num, tri, uvTri))
    ensures r.refs == Triple(AreaOf(poly))
    ensures Grows(acc, r.acc) && forall i :: 0 <= i < |r.refs| ==> Resolvable(r.acc, r.refs[i])
  {
    TriangleInput(AddArea(acc, poly, AreaPair(num, tri, uvTri)), Triple(AreaOf(poly)))
  }

  /** `recalculate_edge_length_stretching`: the three edge ratios are folded
      into the polygon's average and all three corners show it. */
  function EdgeLengthStretching(num: Numerics, acc: Accumulators, poly: nat, tri: Tri, uvTri: Tri): (r: TriangleInput)
    ensures r.acc == AddLengths(acc, poly, EdgeRatios(num, tri, uvTri))
    ensures r.refs == Triple(LengthOf(poly))
    ensures Grows(acc, r.acc) && forall i :: 0 <= i < |r.refs| ==> Resolvable(r.acc, r.refs[i])
  {
    TriangleInput(AddLengths(acc, poly, EdgeRatios(num, tri, uvTri)), Triple(LengthOf(poly)))
  }

  /** `recalculate_angle_stretching`: corner i adds (mesh angle, UV angle) to
      the sums of its (vertex, polygon) key and shows those sums. */
  function AngleStretching(num: Numerics, acc: Accumulators, vertices: seq<nat>, poly: nat, tri: Tri, uvTri: Tri): (r: TriangleInput)
    requires |vertices| == 3
    ensures |r.refs| == 3
    ensures forall i :: 0 <= i < 3 ==> r.refs[i] == AngleOf(vertices[i], poly)
    ensures Grows(acc, r.acc) && forall i :: 0 <= i < |r.refs| ==> Resolvable(r.acc, r.refs[i])
    ensures r.acc.areas == acc.areas && r.acc.lengths == acc.lengths
  {
    var triAngles := GetAngles(num, tri);
    var uvAngles := GetAngles(num, uvTri);
    var a0 := AddAngle(acc, (vertices[0], poly), Vec2(triAngles[0], uvAngles[0]));
    var a1 := AddAngle(a0, (vertices[1], poly), Vec2(triAngles[1], uvAngles[1]));
    var a2 := AddAngle(a1, (vertices[2], poly), Vec2(triAngles[2], uvAngles[2]));
    TriangleInput(a2, [AngleOf(vertices[0], poly), AngleOf(vertices[1], poly), AngleOf(vertices[2], poly)])
  }

  /** With three distinct vertices, each corner's key gains exactly that
      corner's (mesh angle, UV angle) pair. */
  lemma AngleStretchingAddsCornerAngles(num: Numerics, acc: Accumulators, vertices: seq<nat>, poly: nat, tri: Tri, uvTri: Tri, i: nat)
    requires |vertices| == 3 && vertices[0] != vertices[1] && vertices[1] != vertices[2] && vertices[0] != vertices[2]
    requires i < 3
    ensures var key := (vertices[i], poly);
            var pair := Vec2(GetAngles(num, tri)[i], GetAngles(num, uvTri)[i]);
            AngleStretching(num, acc, vertices, poly, tri, uvTri).acc.angles[key]
              == (if key in acc.angles then Plus(acc.angles[key], pair) else pair)
  {
  }
}
