/** The evaluated mesh the overlay reads: vertices, polygons, edges, loops
    with their active-UV-map data, and the loop triangles the host computes.
    Everything is index-based, as in the host's mesh API. */
module MeshData {
  import opened Geometry

  datatype Vertex = Vertex(co: Vec3, normal: Vec3, select: bool)

  /** A polygon with its centre, editor flags and the indices of its loops. */
  datatype Polygon = Polygon(center: Vec3, select: bool, hide: bool, loopIndices: seq<nat>)

  datatype Edge = Edge(v0: nat, v1: nat, seam: bool, select: bool)

  /** A face corner: the edge it starts, and its coordinate and selection
      flag in the active UV map. */
  datatype Loop = Loop(edge: nat, uv: Vec2, uvSelect: bool)

  /** One triangle of the host's triangulation: three vertices, the three
      loops they come from, and the polygon it belongs to. */
  datatype LoopTriangle = LoopTriangle(vertices: seq<nat>, loops: seq<nat>, polygon: nat)

  datatype Mesh = Mesh(
    vertices: seq<Vertex>,
    polygons: seq<Polygon>,
    edges: seq<Edge>,
    loops: seq<Loop>,
    triangles: seq<LoopTriangle>
  )

  predicate ValidTriangle(mesh: Mesh, t: LoopTriangle) {
    && |t.vertices| == 3 && |t.loops| == 3
    && t.polygon < |mesh.polygons|
    && (forall i :: 0 <= i < 3 ==> t.vertices[i] < |mesh.vertices| && t.loops[i] < |mesh.loops|)
  }

  /** Every index stored in the mesh names an existing element. */
  predicate ValidMesh(mesh: Mesh) {
    && (forall e :: 0 <= e < |mesh.edges| ==> mesh.edges[e].v0 < |mesh.vertices| && mesh.edges[e].v1 < |mesh.vertices|)
    && (forall l :: 0 <= l < |mesh.loops| ==> mesh.loops[l].edge < |mesh.edges|)
    && (forall p, i :: 0 <= p < |mesh.polygons| && 0 <= i < |mesh.polygons[p].loopIndices| ==>
          mesh.polygons[p].loopIndices[i] < |mesh.loops|)
    && (forall k :: 0 <= k < |mesh.triangles| ==> ValidTriangle(mesh, mesh.triangles[k]))
  }

  /** A triangle is drawn unless its polygon is hidden. */
  predicate Visible(mesh: Mesh, t: LoopTriangle)
    requires t.polygon < |mesh.polygons|
  {
    !mesh.polygons[t.polygon].hide
  }
}
