/** `FixedLayerHeightSlicer.slice` of grslicer/slicer.py: compute the
    slicing heights, bucket the edges by the heights they cross, and trace
    the contours of every crossed height in ascending order, numbering the
    layers as they come. */
module Slicer {
  import opened Outcomes
  import opened Mesh
  import opened Planes
  import opened Buckets
  import opened Contours

  /** A layer of the layered model: its height, its sequence number and its
      contours, each given by the crossing edges it visits.  Infill is not
      part of this model. */
  datatype Layer = Layer(height: real, seqNr: nat, contours: seq<seq<EdgeId>>)

  /** `NoSlicingPositions`: the range of heights is empty and reading
      `positions[0]` raises.  `OpenEdgeWalk`: the walk at `height` entered a
      one-faced edge and reading the missing face raises. */
  datatype SliceError = NoSlicingPositions | OpenEdgeWalk(height: real, edge: EdgeId)

  /** Some element of a non-empty set of heights. */
  lemma PickHeight(s: set<real>) returns (y: real)
    requires s != {}
    ensures y in s
  {
    if forall x: real :: x !in s {
      assert false;
    }
    y :| y in s;
  }

  lemma {:induction false} SetHasMin(s: set<real>) returns (m: real)
    requires s != {}
    ensures m in s && forall x | x in s :: m <= x
    decreases |s|
  {
    var y := PickHeight(s);
    var s' := s - {y};
    if s' == {} {
      m := y;
    } else {
      var m' := SetHasMin(s');
      m := if y < m' then y else m';
    }
    forall x | x in s
      ensures m <= x
    {
      if x != y {
        assert x in s';
      }
    }
  }

  /** `s` is an ascending run of the smallest values of `keys`, and `rest`
      holds the values not yet taken. */
  ghost predicate SortedPrefix(s: seq<real>, rest: set<real>, keys: set<real>) {
    && Elems(s) + rest == keys && Elems(s) !! rest
    && StrictlyIncreasing(s)
    && forall i, x | 0 <= i < |s| && x in rest :: s[i] < x
  }

  lemma TakeLeast(s: seq<real>, rest: set<real>, keys: set<real>, m: real)
    requires SortedPrefix(s, rest, keys)
    requires m in rest && forall x | x in rest :: m <= x
    ensures SortedPrefix(s + [m], rest - {m}, keys)
  {
    assert Elems(s + [m]) == Elems(s) + {m};
    forall i, x | 0 <= i < |s + [m]| && x in rest - {m}
      ensures (s + [m])[i] < x
    {
      assert m <= x;
    }
  }

  /** `sorted(self._edge_map.keys())`: the keys in ascending order. */
  method SortedHeights(keys: set<real>) returns (s: seq<real>)
    ensures StrictlyIncreasing(s) && Elems(s) == keys && |s| == |keys|
  {
    s := [];
    var rest := keys;
    while rest != {}
      invariant SortedPrefix(s, rest, keys)
      decreases rest
    {
      ghost var least := SetHasMin(rest);
      var m :| m in rest && forall x | x in rest :: m <= x;
      TakeLeast(s, rest, keys, m);
      s := s + [m];
      rest := rest - {m};
    }
    assert Distinct(s);
    DistinctCard(s);
  }

  /** Two ascending sequences of the same values are equal: the order
      `sorted` produces is the only one. */
  lemma {:induction false} IncreasingUnique(a: seq<real>, b: seq<real>)
    requires StrictlyIncreasing(a) && StrictlyIncreasing(b) && Elems(a) == Elems(b)
    ensures a == b
    decreases |a|
  {
    assert Distinct(a) && Distinct(b);
    DistinctCard(a);
    DistinctCard(b);
    if |a| > 0 {
      assert a[0] in Elems(b);
      assert b[0] in Elems(a);
      assert a[0] == b[0];
      assert Elems(a[1..]) == Elems(a) - {a[0]} by {
        assert forall x | x in Elems(a[1..]) :: x != a[0];
        assert Elems(a) == {a[0]} + Elems(a[1..]);
      }
      assert Elems(b[1..]) == Elems(b) - {b[0]} by {
        assert forall x | x in Elems(b[1..]) :: x != b[0];
        assert Elems(b) == {b[0]} + Elems(b[1..]);
      }
      IncreasingUnique(a[1..], b[1..]);
    }
  }

  /** The slicing heights crossed by at least one edge, in the order of the
      heights. */
  function CrossedHeights(tm: Topology, p: seq<real>): (r: seq<real>)
    ensures forall h :: h in r <==> h in p && CrossingSet(tm, h) != {}
    ensures |r| <= |p|
    decreases |p|
  {
    if |p| == 0 then []
    else
      var rest := CrossedHeights(tm, p[1..]);
      assert forall h | h in p :: h == p[0] || h in p[1..];
      if CrossingSet(tm, p[0]) != {} then
        assert forall h :: h in [p[0]] + rest <==> h == p[0] || h in rest;
        [p[0]] + rest
      else rest
  }

  /** Filtering keeps the heights ascending. */
  lemma {:induction false} CrossedHeightsIncrease(tm: Topology, p: seq<real>)
    requires StrictlyIncreasing(p)
    ensures StrictlyIncreasing(CrossedHeights(tm, p))
    decreases |p|
  {
    if |p| > 0 {
      var rest := CrossedHeights(tm, p[1..]);
      CrossedHeightsIncrease(tm, p[1..]);
      forall j | 0 <= j < |rest|
        ensures p[0] < rest[j]
      {
        assert rest[j] in Elems(rest);
      }
    }
  }

  /** The heights `slice` visits: the sorted bucket keys are the crossed
      slicing heights. */
  lemma SortedKeysAreCrossedHeights(tm: Topology, p: seq<real>, keys: set<real>, heights: seq<real>)
    requires StrictlyIncreasing(p)
    requires forall h :: h in keys <==> h in p && CrossingSet(tm, h) != {}
    requires StrictlyIncreasing(heights) && Elems(heights) == keys
    ensures heights == CrossedHeights(tm, p)
  {
    CrossedHeightsIncrease(tm, p);
    assert Elems(heights) == Elems(CrossedHeights(tm, p)) by {
      forall h
        ensures h in Elems(heights) <==> h in Elems(CrossedHeights(tm, p))
      {
        assert h in Elems(heights) <==> h in keys;
      }
    }
    IncreasingUnique(heights, CrossedHeights(tm, p));
  }

  /** Layer `j` stands at height `h` and holds the contours traced from the
      edges crossing `h`, at least one. */
  ghost predicate LayerAt(tm: Topology, h: real, j: nat, layer: Layer)
    requires Valid(tm)
  {
    && layer.height == h
    && layer.seqNr == j
    && Traced(tm, CrossingSet(tm, h), layer.contours)
    && |layer.contours| >= 1
  }

  /** The layers are the first `|layers|` of the heights `hs`, in order. */
  ghost predicate LayersFollow(tm: Topology, hs: seq<real>, layers: seq<Layer>)
    requires Valid(tm)
  {
    |layers| <= |hs| && forall j | 0 <= j < |layers| :: LayerAt(tm, hs[j], j, layers[j])
  }

  /** The loop over the sorted heights: trace each height's bucket and add
      a layer numbered by its position.  A failing walk ends the run. */
  method TraceLayers(tm: Topology, m: map<real, set<EdgeId>>, heights: seq<real>) returns (r: Result<seq<Layer>, SliceError>)
    requires Valid(tm)
    requires forall h | h in m :: m[h] == CrossingSet(tm, h) && m[h] != {}
    requires forall i | 0 <= i < |heights| :: heights[i] in m
    ensures r.Ok? ==> |r.value| == |heights| && LayersFollow(tm, heights, r.value)
    ensures r.Err? ==> && r.error.OpenEdgeWalk?
                       && r.error.height in heights
                       && r.error.edge in CrossingSet(tm, r.error.height)
                       && tm.edges[r.error.edge].faceB.None?
    ensures ClosedSurface(tm) ==> r.Ok?
  {
    var layers: seq<Layer> := [];
    var i := 0;
    while i < |heights|
      invariant 0 <= i <= |heights| && |layers| == i
      invariant LayersFollow(tm, heights, layers)
    {
      var h := heights[i];
      var bucket := m[h];
      var traced := TraceHeight(tm, bucket);
      if traced.Err? {
        return Err(OpenEdgeWalk(h, traced.error.edge));
      }
      var contours := traced.value;
      TracedPartitions(tm, bucket, contours);
      if |contours| > 0 {
        var layer := Layer(h, i, contours);
        assert LayerAt(tm, h, i, layer);
        assert forall j | 0 <= j < i :: (layers + [layer])[j] == layers[j];
        layers := layers + [layer];
      }
      i := i + 1;
    }
    r := Ok(layers);
  }

  /** The whole slicing run.  With no slicing heights it fails as the code
      does; otherwise the layers are exactly the crossed heights in
      ascending order, numbered from 0, and each holds the contours traced
      from that height's crossing edges.  A failing walk names a one-faced
      crossing edge, so a closed surface always slices. */
  method Slice(tm: Topology, lh: real, end: RangeEnd) returns (r: Result<seq<Layer>, SliceError>)
    requires Valid(tm)
    ensures r == Err(NoSlicingPositions) <==> |SlicingPositions(tm.minZ, tm.maxZ, lh, end)| == 0
    ensures r.Ok? ==> var hs := CrossedHeights(tm, SlicingPositions(tm.minZ, tm.maxZ, lh, end));
      |r.value| == |hs| && LayersFollow(tm, hs, r.value)
    ensures r.Ok? ==> forall i, j | 0 <= i < j < |r.value| :: r.value[i].height < r.value[j].height
    ensures r.Err? && r.error.OpenEdgeWalk? ==>
      && r.error.height in SlicingPositions(tm.minZ, tm.maxZ, lh, end)
      && r.error.edge in CrossingSet(tm, r.error.height)
      && tm.edges[r.error.edge].faceB.None?
    ensures ClosedSurface(tm) && |SlicingPositions(tm.minZ, tm.maxZ, lh, end)| > 0 ==> r.Ok?
  {
    var p := SlicingPositions(tm.minZ, tm.maxZ, lh, end);
    if |p| == 0 {
      return Err(NoSlicingPositions);
    }
    PlanesLayout(tm.minZ, tm.maxZ, lh, end);
    var m := BuildEdgeMap(tm, p, lh);
    var heights := SortedHeights(m.Keys);
    SortedKeysAreCrossedHeights(tm, p, m.Keys, heights);
    forall i | 0 <= i < |heights|
      ensures heights[i] in m
    {
      assert heights[i] in Elems(heights);
    }
    r := TraceLayers(tm, m, heights);
    if r.Ok? {
      assert forall i | 0 <= i < |r.value| :: r.value[i].height == heights[i];
    }
    if r.Err? {
      assert r.error.height in Elems(heights);
    }
  }

  /** For a mesh inside its bounding box, `bottom` is `aabb.min z`, so on
      the slicing heights every edge's window is the one the code computes. */
  lemma SliceWindowsAsWritten(tm: Topology, lh: real, end: RangeEnd)
    requires InsideBox(tm) && lh > 0.0
    requires |SlicingPositions(tm.minZ, tm.maxZ, lh, end)| > 0
    ensures var p := SlicingPositions(tm.minZ, tm.maxZ, lh, end);
      forall e | e in tm.edges :: EdgeWindow(p, tm.edges[e], lh) == WindowAsWritten(p, Lo(tm.edges[e]), Hi(tm.edges[e]), lh)
  {
    var p := SlicingPositions(tm.minZ, tm.maxZ, lh, end);
    PlanesLayout(tm.minZ, tm.maxZ, lh, end);
    assert p[0] - lh == tm.minZ;
    EdgeWindowsAsWritten(tm, p, lh);
  }
}
