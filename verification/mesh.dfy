/** The finished mesh topology the slicer of grslicer/slicer.py reads,
    reduced to what slicing needs: per edge the heights of its two
    endpoints and its one or two adjacent faces, per face its edges in
    order, and the vertical extent of the bounding box.  Edges and faces
    refer to each other by id. */
module Mesh {
  import opened Outcomes

  type EdgeId = nat
  type FaceId = nat

  /** `za`, `zb`: z of `vertex_a` and `vertex_b`; `faceB` is absent on a
      boundary (or non-manifold) edge. */
  datatype Edge = Edge(za: real, zb: real, faceA: FaceId, faceB: Option<FaceId>)

  /** `edges` and `faces` of the topology model; `minZ`, `maxZ` are
      `aabb.min[2]` and `aabb.max[2]`. */
  datatype Topology = Topology(
    edges: map<EdgeId, Edge>,
    faces: map<FaceId, seq<EdgeId>>,
    minZ: real,
    maxZ: real)

  /** Every id resolves: the Python objects refer to each other directly, so
      no reference can dangle. */
  predicate Valid(tm: Topology) {
    && (forall e | e in tm.edges :: tm.edges[e].faceA in tm.faces)
    && (forall e | e in tm.edges && tm.edges[e].faceB.Some? :: tm.edges[e].faceB.value in tm.faces)
    && (forall f, i | f in tm.faces && 0 <= i < |tm.faces[f]| :: tm.faces[f][i] in tm.edges)
  }

  /** The bounding box bounds every edge, as it does when computed from the
      vertices. */
  predicate InsideBox(tm: Topology) {
    forall e | e in tm.edges :: tm.minZ <= Lo(tm.edges[e]) && Hi(tm.edges[e]) <= tm.maxZ
  }

  /** Every edge has two adjacent faces: the mesh is a closed surface. */
  predicate ClosedSurface(tm: Topology) {
    forall e | e in tm.edges :: tm.edges[e].faceB.Some?
  }

  function Lo(edge: Edge): real {
    if edge.za <= edge.zb then edge.za else edge.zb
  }

  function Hi(edge: Edge): real {
    if edge.za <= edge.zb then edge.zb else edge.za
  }

  /** The crossing test of `_init_edge_height_map`: a non-horizontal edge
      crosses the plane at height `h` when `lo < h <= hi` for its sorted
      endpoint heights. */
  predicate Crosses(edge: Edge, h: real) {
    edge.za != edge.zb && Lo(edge) < h <= Hi(edge)
  }

  /** The edges crossing the plane at height `h`. */
  function CrossingSet(tm: Topology, h: real): (s: set<EdgeId>)
    ensures forall e :: e in s <==> e in tm.edges && Crosses(tm.edges[e], h)
  {
    set e | e in tm.edges && Crosses(tm.edges[e], h)
  }

  /** The elements of a sequence, as a set. */
  function Elems<T>(s: seq<T>): set<T> {
    set x | x in s
  }

  predicate Distinct<T(==)>(s: seq<T>) {
    forall i, j | 0 <= i < j < |s| :: s[i] != s[j]
  }

  lemma {:induction false} DistinctCard<T>(s: seq<T>)
    requires Distinct(s)
    ensures |Elems(s)| == |s|
    decreases |s|
  {
    if |s| > 0 {
      var t := s[1..];
      DistinctCard(t);
      assert Elems(s) == {s[0]} + Elems(t);
      assert s[0] !in Elems(t);
    }
  }

  predicate StrictlyIncreasing(s: seq<real>) {
    forall i, j | 0 <= i < j < |s| :: s[i] < s[j]
  }
}
