/** Contour tracing of `FixedLayerHeightSlicer.slice` in grslicer/slicer.py,
    for one slicing height.

    A contour is recorded as the sequence of crossing edges it visits; its
    2D points are the intersections of those edges with the plane
    (`_edge_2d_intersection`, which is not part of this model).  The walk
    starts at a pending edge, leaves it through its `face_a`, and from then
    on leaves every edge through the face it did not come through; in each
    face it takes the first edge, in the face's order, that is still
    pending.  A contour ends when the face offers no pending edge. */
module Contours {
  import opened Outcomes
  import opened Mesh

  /** The walk entered `edge` through its only face: the face to leave
      through is None and reading its `edges` raises. */
  datatype WalkError = OpenEdge(edge: EdgeId)

  /** The face `prev_face` becomes at an edge: `face_a` on the first step;
      afterwards the face of the edge other than the one the walk came
      through, which is absent when it came through `face_a` of a one-faced
      edge. */
  function LeavingFace(edge: Edge, came: Option<FaceId>): (r: Option<FaceId>)
    ensures r.Some? ==> r.value == edge.faceA || Some(r.value) == edge.faceB
    ensures r.None? <==> came == Some(edge.faceA) && edge.faceB.None?
    ensures came.None? ==> r == Some(edge.faceA)
    ensures came.Some? && came.value != edge.faceA ==> r == Some(edge.faceA)
    ensures came == Some(edge.faceA) ==> r == edge.faceB
    ensures came.Some? && edge.faceB.Some? && edge.faceA != edge.faceB.value && came.value in {edge.faceA, edge.faceB.value}
            ==> r.Some? && r.value != came.value
  {
    match came
    case None => Some(edge.faceA)
    case Some(f) => if f == edge.faceA then edge.faceB else Some(edge.faceA)
  }

  /** Index of the first edge of `faceEdges` that is still pending, or
      `|faceEdges|` when there is none. */
  function FirstPendingIndex(faceEdges: seq<EdgeId>, pending: set<EdgeId>): (i: nat)
    ensures i <= |faceEdges|
    ensures forall j | 0 <= j < i :: faceEdges[j] !in pending
    ensures i < |faceEdges| ==> faceEdges[i] in pending
    decreases |faceEdges|
  {
    if |faceEdges| == 0 || faceEdges[0] in pending then 0
    else 1 + FirstPendingIndex(faceEdges[1..], pending)
  }

  /** `next((e for e in face.edges if e.mxid in to_visit), None)`. */
  function NextPending(faceEdges: seq<EdgeId>, pending: set<EdgeId>): (r: Option<EdgeId>)
    ensures r.Some? ==> r.value in pending && r.value in faceEdges
    ensures r.Some? ==> exists i | 0 <= i < |faceEdges| ::
      r.value == faceEdges[i] && forall j | 0 <= j < i :: faceEdges[j] !in pending
    ensures r.None? <==> forall j | 0 <= j < |faceEdges| :: faceEdges[j] !in pending
  {
    var i := FirstPendingIndex(faceEdges, pending);
    if i < |faceEdges| then Some(faceEdges[i]) else None
  }

  /** Prepends `xs` to a successful result. */
  function Prefixed(xs: seq<EdgeId>, r: Result<seq<EdgeId>, WalkError>): Result<seq<EdgeId>, WalkError> {
    match r
    case Ok(ys) => Ok(xs + ys)
    case Err(e) => Err(e)
  }

  lemma ConsDistinct(x: EdgeId, ys: seq<EdgeId>)
    requires Distinct(ys) && x !in ys
    ensures Distinct([x] + ys) && Elems([x] + ys) == {x} + Elems(ys)
  {
    assert forall j | 0 <= j < |ys| :: ([x] + ys)[j + 1] == ys[j];
  }

  /** The rest of a contour after the walk has consumed `e`, arriving through
      `came` (None at the start), with `pending` the edges not yet consumed
      at this height.  Every step consumes one pending edge, so the walk
      ends; the edges it visits are distinct and were pending. */
  function Walk(tm: Topology, e: EdgeId, came: Option<FaceId>, pending: set<EdgeId>): (r: Result<seq<EdgeId>, WalkError>)
    requires Valid(tm) && e in tm.edges && pending <= tm.edges.Keys
    requires came.Some? ==> came.value in tm.faces
    ensures r.Ok? ==> Distinct(r.value) && Elems(r.value) <= pending
    ensures r.Err? ==> && (r.error.edge == e || r.error.edge in pending)
                       && r.error.edge in tm.edges
                       && tm.edges[r.error.edge].faceB.None?
    decreases |pending|
  {
    match LeavingFace(tm.edges[e], came)
    case None => Err(OpenEdge(e))
    case Some(f) =>
      match NextPending(tm.faces[f], pending)
      case None => Ok([])
      case Some(n) =>
        match Walk(tm, n, Some(f), pending - {n})
        case Err(err) => Err(err)
        case Ok(ys) =>
          ConsDistinct(n, ys);
          Ok([n] + ys)
  }

  /** The contour traced from `start`: `start` itself, then its walk. */
  function Contour(tm: Topology, start: EdgeId, pending: set<EdgeId>): (r: Result<seq<EdgeId>, WalkError>)
    requires Valid(tm) && pending <= tm.edges.Keys && start in pending
    ensures r.Ok? ==> |r.value| >= 1 && r.value[0] == start && Distinct(r.value) && Elems(r.value) <= pending
    ensures r.Err? ==> r.error.edge in pending && tm.edges[r.error.edge].faceB.None?
  {
    match Walk(tm, start, None, pending - {start})
    case Err(err) => Err(err)
    case Ok(ys) =>
      ConsDistinct(start, ys);
      Ok([start] + ys)
  }

  /** `cs` are the contours traced, in order, from the pending set `pending`,
      each starting at some edge still pending, and `rest` is what is left
      pending after them. */
  ghost predicate TracedPrefix(tm: Topology, pending: set<EdgeId>, cs: seq<seq<EdgeId>>, rest: set<EdgeId>)
    requires Valid(tm) && pending <= tm.edges.Keys
    decreases |cs|
  {
    if |cs| == 0 then rest == pending
    else
      && |cs[0]| > 0
      && cs[0][0] in pending
      && Contour(tm, cs[0][0], pending) == Ok(cs[0])
      && TracedPrefix(tm, pending - Elems(cs[0]), cs[1..], rest)
  }

  /** Tracing `pending` to exhaustion produced the contours `cs`. */
  ghost predicate Traced(tm: Topology, pending: set<EdgeId>, cs: seq<seq<EdgeId>>)
    requires Valid(tm) && pending <= tm.edges.Keys
  {
    TracedPrefix(tm, pending, cs, {})
  }

  /** Tracing `pending` produced the contours `cs`, and then the contour
      started at `s` hit a one-faced edge. */
  ghost predicate TraceFailed(tm: Topology, pending: set<EdgeId>, cs: seq<seq<EdgeId>>, s: EdgeId)
    requires Valid(tm) && pending <= tm.edges.Keys
  {
    exists rest :: rest <= pending && TracedPrefix(tm, pending, cs, rest) && s in rest && Contour(tm, s, rest).Err?
  }

  function Flatten(cs: seq<seq<EdgeId>>): seq<EdgeId>
    decreases |cs|
  {
    if |cs| == 0 then [] else cs[0] + Flatten(cs[1..])
  }

  lemma {:induction false} TracedPrefixShrinks(tm: Topology, pending: set<EdgeId>, cs: seq<seq<EdgeId>>, rest: set<EdgeId>)
    requires Valid(tm) && pending <= tm.edges.Keys && TracedPrefix(tm, pending, cs, rest)
    ensures rest <= pending
    ensures Elems(Flatten(cs)) == pending - rest
    ensures Distinct(Flatten(cs))
    decreases |cs|
  {
    if |cs| > 0 {
      var c := cs[0];
      var p' := pending - Elems(c);
      TracedPrefixShrinks(tm, p', cs[1..], rest);
      var f := Flatten(cs[1..]);
      assert Flatten(cs) == c + f;
      assert Elems(c + f) == Elems(c) + Elems(f);
      forall i, j | 0 <= i < j < |c + f|
        ensures (c + f)[i] != (c + f)[j]
      {
        if j >= |c| && i < |c| {
          assert (c + f)[i] in Elems(c);
          assert (c + f)[j] in Elems(f);
        }
      }
    }
  }

  /** Each pending edge is consumed exactly once: the contours are
      non-empty, no edge appears twice among them, together they cover the
      pending set, and their total number of points equals its size. */
  lemma TracedPartitions(tm: Topology, pending: set<EdgeId>, cs: seq<seq<EdgeId>>)
    requires Valid(tm) && pending <= tm.edges.Keys && Traced(tm, pending, cs)
    ensures forall i | 0 <= i < |cs| :: |cs[i]| >= 1
    ensures Distinct(Flatten(cs))
    ensures Elems(Flatten(cs)) == pending
    ensures |Flatten(cs)| == |pending|
    ensures pending != {} ==> |cs| >= 1
  {
    TracedPrefixShrinks(tm, pending, cs, {});
    DistinctCard(Flatten(cs));
    TracedContoursNonEmpty(tm, pending, cs, {});
  }

  lemma {:induction false} TracedContoursNonEmpty(tm: Topology, pending: set<EdgeId>, cs: seq<seq<EdgeId>>, rest: set<EdgeId>)
    requires Valid(tm) && pending <= tm.edges.Keys && TracedPrefix(tm, pending, cs, rest)
    ensures forall i | 0 <= i < |cs| :: |cs[i]| >= 1
    decreases |cs|
  {
    if |cs| > 0 {
      TracedContoursNonEmpty(tm, pending - Elems(cs[0]), cs[1..], rest);
      assert forall i | 1 <= i < |cs| :: cs[i] == cs[1..][i - 1];
    }
  }

  lemma {:induction false} TracedPrefixExtend(tm: Topology, pending: set<EdgeId>, cs: seq<seq<EdgeId>>, rest: set<EdgeId>, c: seq<EdgeId>)
    requires Valid(tm) && pending <= tm.edges.Keys && TracedPrefix(tm, pending, cs, rest)
    requires rest <= tm.edges.Keys && |c| > 0 && c[0] in rest && Contour(tm, c[0], rest) == Ok(c)
    ensures TracedPrefix(tm, pending, cs + [c], rest - Elems(c))
    decreases |cs|
  {
    if |cs| > 0 {
      TracedPrefixShrinks(tm, pending, cs, rest);
      TracedPrefixExtend(tm, pending - Elems(cs[0]), cs[1..], rest, c);
      assert (cs + [c])[1..] == cs[1..] + [c];
    }
  }

  /** A walk whose face offers no pending edge adds nothing to the contour. */
  lemma WalkStops(tm: Topology, e: EdgeId, came: Option<FaceId>, pending: set<EdgeId>, contour: seq<EdgeId>)
    requires Valid(tm) && e in tm.edges && pending <= tm.edges.Keys
    requires came.Some? ==> came.value in tm.faces
    requires LeavingFace(tm.edges[e], came).Some?
    requires NextPending(tm.faces[LeavingFace(tm.edges[e], came).value], pending).None?
    ensures Prefixed(contour, Walk(tm, e, came, pending)) == Ok(contour)
  {
    assert contour + [] == contour;
  }

  /** A walk that moves on to the next pending edge `n` extends the contour
      by `n` and continues from `n`. */
  lemma WalkSteps(tm: Topology, e: EdgeId, came: Option<FaceId>, pending: set<EdgeId>, contour: seq<EdgeId>)
    requires Valid(tm) && e in tm.edges && pending <= tm.edges.Keys
    requires came.Some? ==> came.value in tm.faces
    requires LeavingFace(tm.edges[e], came).Some?
    requires NextPending(tm.faces[LeavingFace(tm.edges[e], came).value], pending).Some?
    ensures var f := LeavingFace(tm.edges[e], came);
      var n := NextPending(tm.faces[f.value], pending).value;
      Prefixed(contour, Walk(tm, e, came, pending)) == Prefixed(contour + [n], Walk(tm, n, f, pending - {n}))
  {
    var f := LeavingFace(tm.edges[e], came);
    var n := NextPending(tm.faces[f.value], pending).value;
    var w := Walk(tm, n, f, pending - {n});
    assert Walk(tm, e, came, pending) == Prefixed([n], w);
    if w.Ok? {
      assert contour + ([n] + w.value) == contour + [n] + w.value;
    }
  }

  /** The inner `while True` loop: pops a pending edge and walks from it
      until the face it is in offers no pending edge.  Returns the start
      edge, the outcome and the edges still pending afterwards. */
  method TraceContour(tm: Topology, toVisit: set<EdgeId>) returns (start: EdgeId, r: Result<seq<EdgeId>, WalkError>, left: set<EdgeId>)
    requires Valid(tm) && toVisit <= tm.edges.Keys && toVisit != {}
    ensures start in toVisit && r == Contour(tm, start, toVisit)
    ensures r.Ok? ==> left == toVisit - Elems(r.value)
  {
    start :| start in toVisit;  // `to_visit.pop()`: an unspecified element
    var pending := toVisit - {start};
    var contour := [start];
    var edge := start;
    var prevFace: Option<FaceId> := None;
    while true
      invariant edge in tm.edges && pending <= toVisit
      invariant prevFace.Some? ==> prevFace.value in tm.faces
      invariant |contour| >= 1 && contour[0] == start
      invariant pending == toVisit - Elems(contour)
      invariant Prefixed(contour, Walk(tm, edge, prevFace, pending)) == Contour(tm, start, toVisit)
      decreases |pending|
    {
      var face := LeavingFace(tm.edges[edge], prevFace);
      if face.None? {
        return start, Err(OpenEdge(edge)), pending;
      }
      var next := NextPending(tm.faces[face.value], pending);
      if next.None? {
        WalkStops(tm, edge, prevFace, pending, contour);
        return start, Ok(contour), pending;
      }
      WalkSteps(tm, edge, prevFace, pending, contour);
      edge := next.value;
      prevFace := face;
      contour := contour + [edge];
      pending := pending - {edge};
    }
  }

  /** The contours of one slicing height: contours are traced until no
      edge of the height's bucket is pending. */
  method TraceHeight(tm: Topology, bucket: set<EdgeId>) returns (r: Result<seq<seq<EdgeId>>, WalkError>)
    requires Valid(tm) && bucket <= tm.edges.Keys
    ensures r.Ok? ==> Traced(tm, bucket, r.value)
    ensures r.Err? ==> exists cs, s :: TraceFailed(tm, bucket, cs, s)
    ensures r.Err? ==> r.error.edge in bucket && tm.edges[r.error.edge].faceB.None?
    ensures ClosedSurface(tm) ==> r.Ok?
  {
    var toVisit := bucket;
    var contours: seq<seq<EdgeId>> := [];
    while toVisit != {}
      invariant toVisit <= bucket
      invariant TracedPrefix(tm, bucket, contours, toVisit)
      decreases toVisit
    {
      var start, c, left := TraceContour(tm, toVisit);
      if c.Err? {
        assert TraceFailed(tm, bucket, contours, start);
        return Err(c.error);
      }
      TracedPrefixExtend(tm, bucket, contours, toVisit, c.value);
      contours := contours + [c.value];
      toVisit := left;
    }
    r := Ok(contours);
  }
}
