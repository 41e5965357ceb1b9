/** Slicing heights and the index window of `_init_edge_height_map` in
    grslicer/slicer.py.

    The heights are `np_range(aabb.min z + layerHeight, aabb.max z,
    layerHeight)`.  `np_range` is not part of this model, so whether the top
    of the bounding box can itself be a slicing height is a parameter.

    For an edge spanning `[lo, hi]` the slicer only tests the positions with
    indices in `positions[idx_start:idx_end]`, computed by floor division
    relative to `bottom = positions[0] - layerHeight` and padded one step
    downwards.  Heights are exact reals here. */
module Planes {
  import opened Mesh

  /** Whether the stop value of the range may itself be produced. */
  datatype RangeEnd = StopExcluded | StopIncluded

  /** Number of values `start + k step` (k = 0, 1, ...) that stay below
      `stop` (or reach it, for `StopIncluded`). */
  function PlaneCount(start: real, stop: real, step: real, end: RangeEnd): nat
    requires step > 0.0
  {
    var d := (stop - start) / step;
    match end
    case StopExcluded => if d <= 0.0 then 0 else -((-d).Floor)
    case StopIncluded => if d < 0.0 then 0 else d.Floor + 1
  }

  /** `_init_slicing_positions`: heights from `minZ + lh` upwards in steps of
      `lh`.  A non-positive layer height yields no usable heights. */
  function SlicingPositions(minZ: real, maxZ: real, lh: real, end: RangeEnd): seq<real> {
    if lh <= 0.0 then []
    else
      var start := minZ + lh;
      seq(PlaneCount(start, maxZ, lh, end), k => start + k as real * lh)
  }

  /** Evenly spaced by `lh`, counted from the first position. */
  predicate Arithmetic(p: seq<real>, lh: real) {
    forall k | 0 <= k < |p| :: p[k] == p[0] + k as real * lh
  }

  /** `h` lies within the range's stop value. */
  predicate WithinStop(h: real, stop: real, end: RangeEnd) {
    match end
    case StopExcluded => h < stop
    case StopIncluded => h <= stop
  }

  /** `h` lies beyond the range's stop value. */
  predicate BeyondStop(h: real, stop: real, end: RangeEnd) {
    !WithinStop(h, stop, end)
  }

  lemma DivBelow(a: real, b: real, lh: real)
    requires lh > 0.0 && a < b * lh
    ensures a / lh < b
  {
    var x := a / lh;
    assert x * lh == a;
    assert (b - x) * lh == b * lh - a;
  }

  lemma DivAtLeast(a: real, b: real, lh: real)
    requires lh > 0.0 && b * lh <= a
    ensures b <= a / lh
  {
    var x := a / lh;
    assert x * lh == a;
    if x < b {
      assert (b - x) * lh > 0.0;
    }
  }

  lemma MulBelow(a: real, b: real, lh: real)
    requires lh > 0.0 && b < a / lh
    ensures b * lh < a
  {
    var x := a / lh;
    assert x * lh == a;
    assert (x - b) * lh > 0.0;
  }

  lemma MulAtMost(a: real, b: real, lh: real)
    requires lh > 0.0 && b <= a / lh
    ensures b * lh <= a
  {
    var x := a / lh;
    assert x * lh == a;
    assert (x - b) * lh >= 0.0;
  }

  lemma PositionsIncrease(minZ: real, maxZ: real, lh: real, end: RangeEnd)
    requires lh > 0.0
    ensures StrictlyIncreasing(SlicingPositions(minZ, maxZ, lh, end))
  {
    var p := SlicingPositions(minZ, maxZ, lh, end);
    forall i, j | 0 <= i < j < |p|
      ensures p[i] < p[j]
    {
      assert p[j] - p[i] == (j - i) as real * lh;
    }
  }

  lemma PositionsWithinStop(minZ: real, maxZ: real, lh: real, end: RangeEnd, k: nat)
    requires lh > 0.0 && k < |SlicingPositions(minZ, maxZ, lh, end)|
    ensures WithinStop(SlicingPositions(minZ, maxZ, lh, end)[k], maxZ, end)
  {
    var start := minZ + lh;
    var d := (maxZ - start) / lh;
    match end {
      case StopExcluded =>
        assert (k as real) < d;
        MulBelow(maxZ - start, k as real, lh);
      case StopIncluded =>
        assert (k as real) <= d;
        MulAtMost(maxZ - start, k as real, lh);
    }
  }

  lemma NextPositionBeyondStop(minZ: real, maxZ: real, lh: real, end: RangeEnd)
    requires lh > 0.0
    ensures BeyondStop(minZ + lh + |SlicingPositions(minZ, maxZ, lh, end)| as real * lh, maxZ, end)
  {
    var n := |SlicingPositions(minZ, maxZ, lh, end)|;
    var start := minZ + lh;
    var d := (maxZ - start) / lh;
    match end {
      case StopExcluded =>
        if d <= 0.0 {
          MulAtMost(start - maxZ, 0.0, lh);
        } else {
          assert n as real >= d;
          MulAtMost(n as real * lh, d, lh);
          assert d * lh == maxZ - start;
        }
      case StopIncluded =>
        if d < 0.0 {
          assert d * lh == maxZ - start;
          assert (0.0 - d) * lh > 0.0;
        } else {
          assert n as real > d;
          assert d * lh == maxZ - start;
          assert (n as real - d) * lh > 0.0;
        }
    }
  }

  /** The slicing heights ascend from `minZ + lh` in steps of `lh`, never
      pass the top of the bounding box, and stop only where the next step
      would pass it. */
  lemma PlanesLayout(minZ: real, maxZ: real, lh: real, end: RangeEnd)
    requires lh > 0.0
    ensures var p := SlicingPositions(minZ, maxZ, lh, end);
      && (|p| > 0 ==> p[0] == minZ + lh)
      && Arithmetic(p, lh)
      && StrictlyIncreasing(p)
      && (forall k | 0 <= k < |p| :: WithinStop(p[k], maxZ, end))
      && BeyondStop(minZ + lh + |p| as real * lh, maxZ, end)
  {
    PositionsIncrease(minZ, maxZ, lh, end);
    forall k | 0 <= k < |SlicingPositions(minZ, maxZ, lh, end)|
      ensures WithinStop(SlicingPositions(minZ, maxZ, lh, end)[k], maxZ, end)
    {
      PositionsWithinStop(minZ, maxZ, lh, end, k);
    }
    NextPositionBeyondStop(minZ, maxZ, lh, end);
  }

  // ---------------------------------------------------------------------------
  // The index window

  /** Python's `int(a // b)` for floats: rounds the quotient down. */
  function FloorDiv(a: real, b: real): int
    requires b > 0.0
  {
    (a / b).Floor
  }

  /** `idx_start` exactly as written: one step below the floor quotient,
      but only when that quotient is positive. */
  function WindowStartAsWritten(lo: real, bottom: real, lh: real): int
    requires lh > 0.0
  {
    var s := FloorDiv(lo - bottom, lh);
    if s > 0 then s - 1 else s
  }

  /** `idx_start` with the downward pad clamped at index 0. */
  function WindowStart(lo: real, bottom: real, lh: real): nat
    requires lh > 0.0
  {
    var s := WindowStartAsWritten(lo, bottom, lh);
    if s < 0 then 0 else s
  }

  /** `idx_end`: one past the floor quotient of the top. */
  function WindowEnd(hi: real, bottom: real, lh: real): int
    requires lh > 0.0
  {
    FloorDiv(hi - bottom, lh) + 1
  }

  /** Python's treatment of a slice bound `i` on a sequence of length `len`:
      negative bounds count from the end, and bounds are clamped to
      `[0, len]`. */
  function SliceBound(i: int, len: nat): (b: nat)
    ensures b <= len
    ensures 0 <= i <= len ==> b == i
    ensures i < 0 ==> b == if i + len < 0 then 0 else i + len
  {
    if i < 0 then (if i + len < 0 then 0 else i + len)
    else if i > len then len
    else i
  }

  /** The indices `positions[idx_start:idx_end]` visits for an edge spanning
      `[lo, hi]`, as written: the half-open range `[fst, snd)`. */
  function WindowAsWritten(p: seq<real>, lo: real, hi: real, lh: real): (nat, nat)
    requires |p| > 0 && lh > 0.0
  {
    var bottom := p[0] - lh;
    (SliceBound(WindowStartAsWritten(lo, bottom, lh), |p|), SliceBound(WindowEnd(hi, bottom, lh), |p|))
  }

  /** The same window with the start clamped at index 0. */
  function Window(p: seq<real>, lo: real, hi: real, lh: real): (nat, nat)
    requires |p| > 0 && lh > 0.0
  {
    var bottom := p[0] - lh;
    (SliceBound(WindowStart(lo, bottom, lh), |p|), SliceBound(WindowEnd(hi, bottom, lh), |p|))
  }

  /** The window loses no crossing: on evenly spaced heights every index
      whose height satisfies `lo < h <= hi` lies inside it. */
  lemma WindowComplete(p: seq<real>, lh: real, lo: real, hi: real, k: nat)
    requires |p| > 0 && lh > 0.0 && Arithmetic(p, lh)
    requires k < |p| && lo < p[k] <= hi
    ensures Window(p, lo, hi, lh).0 <= k < Window(p, lo, hi, lh).1
  {
    var bottom := p[0] - lh;
    assert p[k] == bottom + (k + 1) as real * lh;
    DivBelow(lo - bottom, (k + 1) as real, lh);
    assert FloorDiv(lo - bottom, lh) <= k;
    DivAtLeast(hi - bottom, (k + 1) as real, lh);
    assert FloorDiv(hi - bottom, lh) >= k + 1;
  }

  /** For an edge that does not reach below `bottom` the window as written
      starts at a non-negative index and equals the clamped window, so the
      completeness above holds for the code as written. */
  lemma WindowAsWrittenAgrees(p: seq<real>, lh: real, lo: real, hi: real)
    requires |p| > 0 && lh > 0.0 && lo >= p[0] - lh
    ensures WindowStartAsWritten(lo, p[0] - lh, lh) >= 0
    ensures WindowAsWritten(p, lo, hi, lh) == Window(p, lo, hi, lh)
  {
    var bottom := p[0] - lh;
    DivAtLeast(lo - bottom, 0.0, lh);
  }

  /** An edge reaching below `bottom` makes `idx_start` negative; Python
      then reads the slice start from the end of the list, and the window
      as written can miss a crossing the clamped window keeps. */
  lemma WindowAsWrittenMissesBelowBottom()
    ensures var p := [1.0, 2.0, 3.0];
      && Arithmetic(p, 1.0)
      && -0.5 < p[0] <= 1.5
      && WindowAsWritten(p, -0.5, 1.5, 1.0) == (2, 2)
      && Window(p, -0.5, 1.5, 1.0) == (0, 2)
  {
    var p := [1.0, 2.0, 3.0];
    assert FloorDiv(-0.5 - 0.0, 1.0) == -1;
    assert FloorDiv(1.5 - 0.0, 1.0) == 1;
  }
}
