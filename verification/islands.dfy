/** UV islands: each island, in the order the host discovers them, gets a hue
    and, when the explosion view is on, a direction pointing from the object's
    location towards the island's centre. The islands themselves are found by
    the host (its linked-UV-island query) and are an input here. */
module Islands {
  import opened Geometry

  const MinHue: real := 0.0
  const MaxHue: real := 1.0

  /** Per-polygon island colour `(hue, 0)` and explosion direction. */
  datatype IslandMaps = IslandMaps(colours: map<nat, Vec2>, directions: map<nat, Vec3>)

  const NoIslandMaps: IslandMaps := IslandMaps(map[], map[])

  /** Every entry of `island` is below `n`. */
  predicate InRange(island: seq<nat>, n: nat) {
    forall i :: 0 <= i < |island| ==> island[i] < n
  }

  /** Every island is non-empty and names polygons of the mesh. */
  predicate ValidIslands(islands: seq<seq<nat>>, polygonCount: nat) {
    forall j :: 0 <= j < |islands| ==> |islands[j]| > 0 && InRange(islands[j], polygonCount)
  }

  /** No polygon belongs to two islands. */
  predicate Disjoint(islands: seq<seq<nat>>) {
    forall j, k, p :: 0 <= j < k < |islands| && p in islands[j] ==> p !in islands[k]
  }

  /** The polygons of one island. */
  function Members(island: seq<nat>): set<nat> {
    set p | p in island
  }

  /** The polygons that belong to an island at position `i` or later. */
  function CoveredFrom(islands: seq<seq<nat>>, i: nat): set<nat>
    decreases |islands| - i
  {
    if i >= |islands| then {} else Members(islands[i]) + CoveredFrom(islands, i + 1)
  }

  /** The polygons that belong to some island. */
  function Covered(islands: seq<seq<nat>>): set<nat> {
    CoveredFrom(islands, 0)
  }

  function CentreSum(island: seq<nat>, centres: seq<Vec3>): Vec3
    requires InRange(island, |centres|)
  {
    if |island| == 0 then Zero3
    else
      assert InRange(island[..|island| - 1], |centres|);
      Add(CentreSum(island[..|island| - 1], centres), centres[island[|island| - 1]])
  }

  /** The mean of the island's polygon centres. */
  function Centroid(island: seq<nat>, centres: seq<Vec3>): Vec3
    requires |island| > 0 && InRange(island, |centres|)
  {
    var sum := CentreSum(island, centres);
    var n := |island| as real;
    Vec3(sum.x / n, sum.y / n, sum.z / n)
  }

  /** The way an island moves in the explosion view: +Z for an island centred
      exactly on the object's location, the normalised offset otherwise. */
  function ExplosionDirection(num: Numerics, centroid: Vec3, location: Vec3): (d: Vec3)
    ensures centroid == location ==> d == Up
    ensures centroid != location ==> d == num.normalize(Sub(centroid, location))
  {
    var offset := Sub(centroid, location);
    if offset == Zero3 then
      Up
    else
      assert centroid != location;
      num.normalize(offset)
  }

  /** The explosion direction of every island, from its centroid. */
  function IslandDirections(num: Numerics, islands: seq<seq<nat>>, centres: seq<Vec3>, location: Vec3): (r: seq<Vec3>)
    requires ValidIslands(islands, |centres|)
    ensures |r| == |islands|
    ensures forall j :: 0 <= j < |islands| ==> r[j] == ExplosionDirection(num, Centroid(islands[j], centres), location)
  {
    seq(|islands|, j requires 0 <= j < |islands| => ExplosionDirection(num, Centroid(islands[j], centres), location))
  }

  /** Gives every polygon of one island the hue and, in the explosion view,
      the island's direction. */
  function PaintIsland(m: IslandMaps, island: seq<nat>, hue: real, direction: Vec3, explosion: bool): (r: IslandMaps)
    ensures r.colours.Keys == m.colours.Keys + Members(island)
    ensures forall p :: p in island ==> r.colours[p] == Vec2(hue, 0.0)
    ensures forall p :: p !in island && p in m.colours ==> r.colours[p] == m.colours[p]
    ensures !explosion ==> r.directions == m.directions
    ensures explosion ==> r.directions.Keys == m.directions.Keys + Members(island)
    ensures explosion ==> forall p :: p in island ==> r.directions[p] == direction
    ensures forall p :: p !in island && p in m.directions ==> r.directions[p] == m.directions[p]
  {
    var colours := m.colours + map p | p in island :: Vec2(hue, 0.0);
    if explosion then
      IslandMaps(colours, m.directions + map p | p in island :: direction)
    else
      IslandMaps(colours, m.directions)
  }

  /** Walks the islands from position `i` on, in discovery order; the running
      hue grows by `step` before each island is painted. `dirs` holds the
      explosion direction of every island. */
  function AssignFrom(m: IslandMaps, islands: seq<seq<nat>>, i: nat, dirs: seq<Vec3>,
                      explosion: bool, colourValue: real, step: real): IslandMaps
    requires i <= |islands| == |dirs|
    decreases |islands| - i
  {
    if i == |islands| then
      m
    else
      var value := colourValue + step;
      AssignFrom(PaintIsland(m, islands[i], value, dirs[i], explosion), islands, i + 1, dirs, explosion, value, step)
  }

  /** The running colour value after `k` increments of `step`. */
  function RunningHue(start: real, step: real, k: nat): real {
    if k == 0 then start else RunningHue(start, step, k - 1) + step
  }

  /** The hue of the island at (0-based) position `j` out of `n`. */
  function Hue(j: nat, n: nat): real
    requires j < n
  {
    RunningHue(MinHue, MaxHue / n as real, j + 1)
  }

  lemma {:induction false} RunningHueShift(start: real, step: real, k: nat)
    ensures RunningHue(start + step, step, k) == RunningHue(start, step, k + 1)
  {
    if k > 0 {
      RunningHueShift(start, step, k - 1);
    }
  }

  lemma {:induction false} RunningHueClosedForm(start: real, step: real, k: nat)
    ensures RunningHue(start, step, k) == start + k as real * step
  {
    if k > 0 {
      RunningHueClosedForm(start, step, k - 1);
    }
  }

  /** Painting adds exactly the keys of the islands walked. */
  lemma {:induction false} AssignFromKeys(m: IslandMaps, islands: seq<seq<nat>>, i: nat, dirs: seq<Vec3>,
                                          explosion: bool, colourValue: real, step: real)
    requires i <= |islands| == |dirs|
    ensures AssignFrom(m, islands, i, dirs, explosion, colourValue, step).colours.Keys
         == m.colours.Keys + CoveredFrom(islands, i)
    ensures AssignFrom(m, islands, i, dirs, explosion, colourValue, step).directions.Keys
         == m.directions.Keys + (if explosion then CoveredFrom(islands, i) else {})
    decreases |islands| - i
  {
    if i < |islands| {
      var value := colourValue + step;
      var painted := PaintIsland(m, islands[i], value, dirs[i], explosion);
      AssignFromKeys(painted, islands, i + 1, dirs, explosion, value, step);
    }
  }

  /** A polygon outside the islands walked keeps its colour and direction. */
  lemma {:induction false} AssignFromKeeps(m: IslandMaps, islands: seq<seq<nat>>, i: nat, dirs: seq<Vec3>,
                                           explosion: bool, colourValue: real, step: real, p: nat)
    requires i <= |islands| == |dirs|
    requires p !in CoveredFrom(islands, i)
    ensures var r := AssignFrom(m, islands, i, dirs, explosion, colourValue, step);
            (p in r.colours <==> p in m.colours) && (p in m.colours ==> r.colours[p] == m.colours[p])
    ensures var r := AssignFrom(m, islands, i, dirs, explosion, colourValue, step);
            (p in r.directions <==> p in m.directions) && (p in m.directions ==> r.directions[p] == m.directions[p])
    decreases |islands| - i
  {
    if i < |islands| {
      var value := colourValue + step;
      var painted := PaintIsland(m, islands[i], value, dirs[i], explosion);
      assert p !in islands[i];
      AssignFromKeeps(painted, islands, i + 1, dirs, explosion, value, step, p);
    }
  }

  /** A polygon of the island at position `j` is in no later island. */
  lemma {:induction false} NotCoveredLater(islands: seq<seq<nat>>, j: nat, i: nat, p: nat)
    requires Disjoint(islands) && j < i <= |islands| && p in islands[j]
    ensures p !in CoveredFrom(islands, i)
    decreases |islands| - i
  {
    if i < |islands| {
      assert p !in islands[i];
      NotCoveredLater(islands, j, i + 1, p);
    }
  }

  /** A polygon of any island at position `i` or later is covered from `i`. */
  lemma {:induction false} CoveredMember(islands: seq<seq<nat>>, i: nat, j: nat, p: nat)
    requires i <= j < |islands| && p in islands[j]
    ensures p in CoveredFrom(islands, i)
    decreases j - i
  {
    if i < j {
      CoveredMember(islands, i + 1, j, p);
    }
  }

  /** The island at position `j` is painted with the running hue after
      j - i + 1 steps, and all its polygons share the island's direction. */
  lemma {:induction false} AssignFromIsland(m: IslandMaps, islands: seq<seq<nat>>, i: nat, dirs: seq<Vec3>,
                                            explosion: bool, colourValue: real,
                                            step: real, j: nat, p: nat)
    requires i <= |islands| == |dirs| && Disjoint(islands)
    requires i <= j < |islands| && p in islands[j]
    ensures var r := AssignFrom(m, islands, i, dirs, explosion, colourValue, step);
            p in r.colours && r.colours[p] == Vec2(RunningHue(colourValue, step, j - i + 1), 0.0)
    ensures var r := AssignFrom(m, islands, i, dirs, explosion, colourValue, step);
            explosion ==> p in r.directions && r.directions[p] == dirs[j]
    decreases |islands| - i
  {
    if j == i {
      AssignFromFirstIsland(m, islands, i, dirs, explosion, colourValue, step, p);
    } else {
      var value := colourValue + step;
      var painted := PaintIsland(m, islands[i], value, dirs[i], explosion);
      assert AssignFrom(m, islands, i, dirs, explosion, colourValue, step)
          == AssignFrom(painted, islands, i + 1, dirs, explosion, value, step);
      AssignFromIsland(painted, islands, i + 1, dirs, explosion, value, step, j, p);
      RunningHueShift(colourValue, step, j - i);
    }
  }

  /** The island at position `i` keeps the colour and direction it is
      painted with, since no later island contains its polygons. */
  lemma AssignFromFirstIsland(m: IslandMaps, islands: seq<seq<nat>>, i: nat, dirs: seq<Vec3>,
                              explosion: bool, colourValue: real, step: real, p: nat)
    requires i < |islands| == |dirs| && Disjoint(islands) && p in islands[i]
    ensures var r := AssignFrom(m, islands, i, dirs, explosion, colourValue, step);
            p in r.colours && r.colours[p] == Vec2(RunningHue(colourValue, step, 1), 0.0)
    ensures var r := AssignFrom(m, islands, i, dirs, explosion, colourValue, step);
            explosion ==> p in r.directions && r.directions[p] == dirs[i]
  {
    var value := colourValue + step;
    var painted := PaintIsland(m, islands[i], value, dirs[i], explosion);
    assert AssignFrom(m, islands, i, dirs, explosion, colourValue, step)
        == AssignFrom(painted, islands, i + 1, dirs, explosion, value, step);
    NotCoveredLater(islands, i, i + 1, p);
    AssignFromKeeps(painted, islands, i + 1, dirs, explosion, value, step, p);
    if explosion {
      assert p in painted.directions && painted.directions[p] == dirs[i];
    }
  }

  /** `recalculate_poly_islands`: colours (and directions) for every island
      polygon, with hues spread evenly over (0, 1]. */
  function RecalculatePolyIslands(islands: seq<seq<nat>>, centres: seq<Vec3>, location: Vec3,
                                  explosion: bool, num: Numerics, m: IslandMaps): (r: IslandMaps)
    requires ValidIslands(islands, |centres|)
    ensures r.colours.Keys == m.colours.Keys + Covered(islands)
    ensures r.directions.Keys == m.directions.Keys + (if explosion then Covered(islands) else {})
    ensures |islands| == 0 ==> r == m
  {
    if |islands| == 0 then m
    else
      var step := MaxHue / |islands| as real;
      var dirs := IslandDirections(num, islands, centres, location);
      AssignFromKeys(m, islands, 0, dirs, explosion, MinHue, step);
      AssignFrom(m, islands, 0, dirs, explosion, MinHue, step)
  }

  /** A polygon in no island keeps whatever colour and direction it had. */
  lemma RecalculateKeepsOthers(islands: seq<seq<nat>>, centres: seq<Vec3>, location: Vec3,
                               explosion: bool, num: Numerics, m: IslandMaps, p: nat)
    requires ValidIslands(islands, |centres|) && p !in Covered(islands)
    ensures var r := RecalculatePolyIslands(islands, centres, location, explosion, num, m);
            (p in r.colours ==> p in m.colours && r.colours[p] == m.colours[p])
            && (p in r.directions ==> p in m.directions && r.directions[p] == m.directions[p])
  {
    if |islands| > 0 {
      AssignFromKeeps(m, islands, 0, IslandDirections(num, islands, centres, location), explosion, MinHue, MaxHue / |islands| as real, p);
    }
  }

  /** With disjoint islands, every polygon of the island at position j gets
      hue (j+1)/n, and in the explosion view the direction of its island. */
  lemma IslandHueAndDirection(islands: seq<seq<nat>>, centres: seq<Vec3>, location: Vec3,
                              explosion: bool, num: Numerics, m: IslandMaps, j: nat, p: nat)
    requires ValidIslands(islands, |centres|) && Disjoint(islands)
    requires j < |islands| && p in islands[j]
    ensures var r := RecalculatePolyIslands(islands, centres, location, explosion, num, m);
            p in r.colours && r.colours[p] == Vec2(Hue(j, |islands|), 0.0)
    ensures var r := RecalculatePolyIslands(islands, centres, location, explosion, num, m);
            explosion ==> (p in r.directions &&
                           r.directions[p] == ExplosionDirection(num, Centroid(islands[j], centres), location))
  {
    AssignFromIsland(m, islands, 0, IslandDirections(num, islands, centres, location), explosion, MinHue, MaxHue / |islands| as real, j, p);
  }

  /** After the island pass, every polygon of an island has a colour value
      in (0, 1], so the UV editor never hides an island triangle. */
  lemma IslandColoursPositive(islands: seq<seq<nat>>, centres: seq<Vec3>, location: Vec3,
                              explosion: bool, num: Numerics, m: IslandMaps, j: nat, p: nat)
    requires ValidIslands(islands, |centres|) && Disjoint(islands)
    requires j < |islands| && p in islands[j]
    ensures var r := RecalculatePolyIslands(islands, centres, location, explosion, num, m);
            p in r.colours && 0.0 < r.colours[p].x <= MaxHue
  {
    IslandHueAndDirection(islands, centres, location, explosion, num, m, j, p);
    HueRange(j, |islands|);
  }

  /** Every island hue lies in (0, 1], and the last island's is 1, however
      many islands there are. */
  lemma HueRange(j: nat, n: nat)
    requires j < n
    ensures 0.0 < Hue(j, n) <= MaxHue
    ensures Hue(n - 1, n) == MaxHue
  {
    var step := MaxHue / n as real;
    assert step > 0.0;
    RunningHueClosedForm(MinHue, step, j + 1);
    RunningHueClosedForm(MinHue, step, n);
    assert (j + 1) as real * step <= n as real * step;
    assert n as real * step == MaxHue;
  }

  /** Hues lie in (0, 1], strictly increase with discovery order, and the last is 1. */
  lemma HuesIncrease(j: nat, k: nat, n: nat)
    requires j < k < n
    ensures 0.0 < Hue(j, n) < Hue(k, n) <= MaxHue
    ensures Hue(n - 1, n) == MaxHue
  {
    var step := MaxHue / n as real;
    assert step > 0.0;
    RunningHueClosedForm(MinHue, step, j + 1);
    RunningHueClosedForm(MinHue, step, k + 1);
    RunningHueClosedForm(MinHue, step, n);
    assert Hue(k, n) - Hue(j, n) == (k - j) as real * step;
    assert (k - j) as real * step > 0.0;
    assert Hue(n - 1, n) == n as real * step == MaxHue;
    assert MaxHue - Hue(k, n) == (n - 1 - k) as real * step;
    assert (n - 1 - k) as real * step >= 0.0;
  }
}
