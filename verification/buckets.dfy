/** `_init_edge_height_map` of grslicer/slicer.py: every non-horizontal edge
    is put into the bucket of each slicing height it crosses, testing only
    the heights in its index window. */
module Buckets {
  import opened Mesh
  import opened Planes

  /** The index window tested for `edge`. */
  function EdgeWindow(p: seq<real>, edge: Edge, lh: real): (nat, nat)
    requires |p| > 0 && lh > 0.0
  {
    Window(p, Lo(edge), Hi(edge), lh)
  }

  /** Every bucket is non-empty, keyed by a slicing height, and holds only
      edges that cross that height. */
  ghost predicate BucketsSound(tm: Topology, p: seq<real>, m: map<real, set<EdgeId>>) {
    forall h | h in m :: && m[h] != {}
                         && h in p
                         && forall e | e in m[h] :: e in tm.edges && Crosses(tm.edges[e], h)
  }

  /** Every crossing found by testing the window of an edge in `done` has
      been recorded. */
  ghost predicate WindowCrossingsRecorded(tm: Topology, p: seq<real>, lh: real, m: map<real, set<EdgeId>>, done: set<EdgeId>)
    requires |p| > 0 && lh > 0.0 && done <= tm.edges.Keys
  {
    forall e, k | e in done && EdgeWindow(p, tm.edges[e], lh).0 <= k < EdgeWindow(p, tm.edges[e], lh).1
                  && Crosses(tm.edges[e], p[k]) :: p[k] in m && e in m[p[k]]
  }

  /** Adds `e` to the bucket of `h`, creating the bucket if needed
      (`setdefault(h, set()).add(e)`). */
  function AddToBucket(m: map<real, set<EdgeId>>, h: real, e: EdgeId): (m': map<real, set<EdgeId>>)
    ensures m'.Keys == m.Keys + {h}
    ensures m'[h] == (if h in m then m[h] else {}) + {e}
    ensures forall h' | h' in m && h' != h :: m'[h'] == m[h']
  {
    m[h := (if h in m then m[h] else {}) + {e}]
  }

  /** The bucket map: its keys are exactly the slicing heights crossed by
      some edge, and each bucket is exactly the set of edges crossing its
      height.  The soundness half holds for any heights; completeness needs
      evenly spaced heights, which the slicing positions are. */
  method BuildEdgeMap(tm: Topology, p: seq<real>, lh: real) returns (m: map<real, set<EdgeId>>)
    requires |p| > 0 && lh > 0.0
    ensures BucketsSound(tm, p, m)
    ensures Arithmetic(p, lh) ==> forall h :: h in m <==> h in p && CrossingSet(tm, h) != {}
    ensures Arithmetic(p, lh) ==> forall h | h in m :: m[h] == CrossingSet(tm, h)
  {
    m := map[];
    var remaining := tm.edges.Keys;
    ghost var done: set<EdgeId> := {};
    while remaining != {}
      invariant remaining + done == tm.edges.Keys && remaining !! done
      invariant BucketsSound(tm, p, m)
      invariant WindowCrossingsRecorded(tm, p, lh, m, done)
      decreases remaining
    {
      var e :| e in remaining;
      var edge := tm.edges[e];
      if edge.za != edge.zb {
        var (a, b) := EdgeWindow(p, edge, lh);
        var i := a;
        while i < b
          invariant a <= i
          invariant BucketsSound(tm, p, m)
          invariant WindowCrossingsRecorded(tm, p, lh, m, done)
          invariant forall k | a <= k < i && k < b && Crosses(edge, p[k]) :: p[k] in m && e in m[p[k]]
        {
          if Lo(edge) < p[i] <= Hi(edge) {
            m := AddToBucket(m, p[i], e);
          }
          i := i + 1;
        }
      }
      done := done + {e};
      remaining := remaining - {e};
    }
    if Arithmetic(p, lh) {
      BucketsExact(tm, p, lh, m);
    }
  }

  lemma BucketsExact(tm: Topology, p: seq<real>, lh: real, m: map<real, set<EdgeId>>)
    requires |p| > 0 && lh > 0.0 && Arithmetic(p, lh)
    requires BucketsSound(tm, p, m) && WindowCrossingsRecorded(tm, p, lh, m, tm.edges.Keys)
    ensures forall h :: h in m <==> h in p && CrossingSet(tm, h) != {}
    ensures forall h | h in m :: m[h] == CrossingSet(tm, h)
  {
    forall e, k | e in tm.edges && 0 <= k < |p| && Crosses(tm.edges[e], p[k])
      ensures p[k] in m && e in m[p[k]]
    {
      WindowComplete(p, lh, Lo(tm.edges[e]), Hi(tm.edges[e]), k);
    }
    forall h | h in p && CrossingSet(tm, h) != {}
      ensures h in m
    {
      var k :| 0 <= k < |p| && p[k] == h;
      var e :| e in CrossingSet(tm, h);
    }
    forall h | h in m
      ensures m[h] == CrossingSet(tm, h)
    {
      var k :| 0 <= k < |p| && p[k] == h;
    }
  }

  /** No edge reaches below `bottom`: then every edge's window is the one
      the code computes, so the buckets are the ones it fills. */
  lemma EdgeWindowsAsWritten(tm: Topology, p: seq<real>, lh: real)
    requires |p| > 0 && lh > 0.0
    requires forall e | e in tm.edges :: p[0] - lh <= Lo(tm.edges[e])
    ensures forall e | e in tm.edges ::
      EdgeWindow(p, tm.edges[e], lh) == WindowAsWritten(p, Lo(tm.edges[e]), Hi(tm.edges[e]), lh)
  {
    forall e | e in tm.edges
      ensures EdgeWindow(p, tm.edges[e], lh) == WindowAsWritten(p, Lo(tm.edges[e]), Hi(tm.edges[e]), lh)
    {
      WindowAsWrittenAgrees(p, lh, Lo(tm.edges[e]), Hi(tm.edges[e]));
    }
  }
}
