/**
 * The per-node work of bvh.js: triangle annotation, the union box of a subset,
 * the binned surface-area-heuristic search (3 axes x 7 boundaries), the degenerate
 * fallback and the left/right partition.
 */
module BvhSplit {
  import opened Common
  import opened Geometry
  import opened Bounds

  const NumBins: int := 8
  /** The cost that an empty side of a candidate split contributes (1e12). */
  const EmptyPenalty: real := 1000000000000.0
  /** Above this best cost (1e9) the degenerate fallback runs. */
  const FallbackThreshold: real := 1000000000.0
  /** Midpoints closer than this (1e-6) count as equal in the fallback. */
  const Epsilon: real := 0.000001

  /** A triangle after createBVH added its midpoint and its min and max corners. */
  datatype BvhTri = BvhTri(tri: Triangle, midpoint: V3, mi: V3, ma: V3)

  function RMin(x: real, y: real): real {
    if x <= y then x else y
  }

  function MinCorner(p: V3, q: V3, s: V3): V3 {
    V3(RMin(RMin(p.x, q.x), s.x), RMin(RMin(p.y, q.y), s.y), RMin(RMin(p.z, q.z), s.z))
  }

  function MaxCorner(p: V3, q: V3, s: V3): V3 {
    V3(RMax(RMax(p.x, q.x), s.x), RMax(RMax(p.y, q.y), s.y), RMax(RMax(p.z, q.z), s.z))
  }

  /** The annotation createBVH gives one triangle: the vertex mean and the vertex bounds. */
  function Annotate(t: Triangle): (r: BvhTri)
    ensures r.tri == t
    ensures forall a: Axis :: r.mi.At(a) <= r.midpoint.At(a) <= r.ma.At(a)
    ensures forall a: Axis, j | 0 <= j < 3 :: r.mi.At(a) <= t.Vert(j).pos.At(a) <= r.ma.At(a)
  {
    var p, q, s := t.v0.pos, t.v1.pos, t.v2.pos;
    BvhTri(t, V3((p.x + q.x + s.x) / 3.0, (p.y + q.y + s.y) / 3.0, (p.z + q.z + s.z) / 3.0),
           MinCorner(p, q, s), MaxCorner(p, q, s))
  }

  /** Growing the empty box by the three vertices gives exactly the corners Annotate records. */
  lemma GrownThree(p: V3, q: V3, s: V3)
    ensures Grown(Grown(Grown(NewAabb(), p), q), s) == Box(MinCorner(p, q, s), MaxCorner(p, q, s))
  {
  }

  /** The triangle's own corners are ordered, which every annotated triangle satisfies. */
  predicate Sane(t: BvhTri) {
    t.mi.x <= t.ma.x && t.mi.y <= t.ma.y && t.mi.z <= t.ma.z
  }

  predicate AllSane(ts: seq<BvhTri>) {
    forall k :: 0 <= k < |ts| ==> Sane(ts[k])
  }

  function Mid(t: BvhTri, a: Axis): real {
    t.midpoint.At(a)
  }

  // ---- Union box of a subset ----

  /** The box that the bounds loop of buildNode accumulates over `ts`. */
  function BoundsOf(ts: seq<BvhTri>): (r: Aabb)
    ensures forall k :: 0 <= k < |ts| ==> Holds(r, ts[k].mi, ts[k].ma)
    ensures |ts| > 0 ==> r.Finite()
    ensures |ts| > 0 && AllSane(ts) ==> r.Ordered()
  {
    if |ts| == 0 then NewAabb()
    else
      var b := BoundsOf(ts[..|ts| - 1]);
      var t := ts[|ts| - 1];
      forall k | 0 <= k < |ts| - 1
        ensures Holds(Merged(b, t.mi, t.ma), ts[k].mi, ts[k].ma)
      {
        assert ts[..|ts| - 1][k] == ts[k];
        HoldsWiden(b, Merged(b, t.mi, t.ma), ts[k].mi, ts[k].ma);
      }
      Merged(b, t.mi, t.ma)
  }

  /** BoundsOf(ts) is the least box that holds every triangle of ts. */
  lemma {:induction false} BoundsOfIsLeast(ts: seq<BvhTri>, c: Aabb)
    requires forall k :: 0 <= k < |ts| ==> Holds(c, ts[k].mi, ts[k].ma)
    ensures Within(BoundsOf(ts), c)
  {
    if |ts| > 0 {
      var n := |ts| - 1;
      forall k | 0 <= k < n ensures Holds(c, ts[..n][k].mi, ts[..n][k].ma) {
        assert ts[..n][k] == ts[k];
      }
      BoundsOfIsLeast(ts[..n], c);
      MergedIsLeast(BoundsOf(ts[..n]), ts[n].mi, ts[n].ma, c);
    }
  }

  /** The box of a sub-collection lies inside the box of the whole. */
  lemma BoundsOfSubset(sub: seq<BvhTri>, whole: seq<BvhTri>)
    requires multiset(sub) <= multiset(whole)
    ensures Within(BoundsOf(sub), BoundsOf(whole))
  {
    forall k | 0 <= k < |sub| ensures Holds(BoundsOf(whole), sub[k].mi, sub[k].ma) {
      assert sub[k] in multiset(sub);
      assert sub[k] in multiset(whole);
      var i :| 0 <= i < |whole| && whole[i] == sub[k];
    }
    BoundsOfIsLeast(sub, BoundsOf(whole));
  }

  // ---- Partition by a plane ----

  /** The triangles whose midpoint on `axis` is below `c`, in their original order. */
  function LeftOf(ts: seq<BvhTri>, axis: Axis, c: real): seq<BvhTri> {
    if |ts| == 0 then []
    else LeftOf(ts[..|ts| - 1], axis, c) + (if Mid(ts[|ts| - 1], axis) < c then [ts[|ts| - 1]] else [])
  }

  /** The triangles whose midpoint on `axis` is at or above `c`, in their original order. */
  function RightOf(ts: seq<BvhTri>, axis: Axis, c: real): seq<BvhTri> {
    if |ts| == 0 then []
    else RightOf(ts[..|ts| - 1], axis, c) + (if Mid(ts[|ts| - 1], axis) < c then [] else [ts[|ts| - 1]])
  }

  /** The two sides together are a permutation of ts, and each side is on its side of the plane. */
  lemma {:induction false} PartitionSplits(ts: seq<BvhTri>, axis: Axis, c: real)
    ensures multiset(LeftOf(ts, axis, c)) + multiset(RightOf(ts, axis, c)) == multiset(ts)
    ensures forall t :: t in LeftOf(ts, axis, c) ==> Mid(t, axis) < c
    ensures forall t :: t in RightOf(ts, axis, c) ==> Mid(t, axis) >= c
  {
    if |ts| > 0 {
      var n := |ts| - 1;
      PartitionSplits(ts[..n], axis, c);
      assert ts == ts[..n] + [ts[n]];
    }
  }

  // ---- Cost of a candidate split ----

  /** One side's share of the SAH cost: count times surface area, or the penalty when empty. */
  function SideCost(ts: seq<BvhTri>): real {
    if |ts| == 0 then EmptyPenalty else Weighted(|ts|, SurfaceArea(BoundsOf(ts)))
  }

  /** A count times an area. */
  function Weighted(n: nat, area: real): (r: real)
    ensures area >= 0.0 ==> r >= 0.0
  {
    MulNonNeg(n as real, area);
    (n as real) * area
  }

  function SahCost(ts: seq<BvhTri>, axis: Axis, c: real): real {
    SideCost(LeftOf(ts, axis, c)) + SideCost(RightOf(ts, axis, c))
  }

  lemma AllSaneSub(sub: seq<BvhTri>, ts: seq<BvhTri>)
    requires AllSane(ts) && multiset(sub) <= multiset(ts)
    ensures AllSane(sub)
  {
    forall k | 0 <= k < |sub| ensures Sane(sub[k]) {
      assert sub[k] in multiset(sub);
      assert sub[k] in multiset(ts);
      var i :| 0 <= i < |ts| && ts[i] == sub[k];
    }
  }

  /** A side never costs less than zero. */
  lemma SideCostNonNeg(ts: seq<BvhTri>)
    requires AllSane(ts)
    ensures SideCost(ts) >= 0.0
  {
    if |ts| > 0 {
      assert SurfaceArea(BoundsOf(ts)) >= 0.0;
    }
  }

  /** A split whose cost is at most 1e9 leaves triangles on both sides. */
  lemma CheapSplitHasTwoSides(ts: seq<BvhTri>, axis: Axis, c: real)
    requires AllSane(ts)
    requires SahCost(ts, axis, c) <= FallbackThreshold
    ensures |LeftOf(ts, axis, c)| > 0 && |RightOf(ts, axis, c)| > 0
  {
    PartitionSplits(ts, axis, c);
    AllSaneSub(LeftOf(ts, axis, c), ts);
    AllSaneSub(RightOf(ts, axis, c), ts);
    SideCostNonNeg(LeftOf(ts, axis, c));
    SideCostNonNeg(RightOf(ts, axis, c));
  }

  // ---- The binned search ----

  /** The i-th interior bin boundary (i in 0..6) of `axis`: minBound + (i+1) * binSize. */
  function Boundary(b: Aabb, axis: Axis, i: int): real
    requires b.Finite()
  {
    var minBound := b.On(axis).lo.v;
    var maxBound := b.On(axis).hi.v;
    minBound + ((i + 1) as real) * ((maxBound - minBound) / (NumBins as real))
  }

  /** The search state: best cost so far (Infinity at first), its boundary index and its axis. */
  datatype Choice = Choice(minCost: XReal, split: int, axis: Axis)

  /** Strictly above, as `minCost > 1e9` (Infinity is above every number). */
  predicate Above(m: XReal, x: real) {
    m.PosInf? || (m.Fin? && m.v > x)
  }

  /** Strictly below, as `SAHcost < minCost`. */
  predicate Below(x: real, m: XReal) {
    m.PosInf? || (m.Fin? && x < m.v)
  }

  /**
   * The cost of candidate number k of the 21 the search visits: axis k / 7, boundary k % 7
   * (7 is the number of interior boundaries of 8 bins).
   */
  function CandidateCost(ts: seq<BvhTri>, b: Aabb, k: nat): real
    requires b.Finite() && k < 21
  {
    var axis: Axis := k / 7;
    SahCost(ts, axis, Boundary(b, axis, k % 7))
  }

  /** The 21 candidate costs in the order the search visits them. */
  function Costs(ts: seq<BvhTri>, b: Aabb): (r: seq<real>)
    requires b.Finite()
    ensures |r| == 21 && forall k :: 0 <= k < 21 ==> r[k] == CandidateCost(ts, b, k)
  {
    seq(21, k requires 0 <= k < 21 => CandidateCost(ts, b, k))
  }

  /** The search state after the first k candidates, in loop order (axis-major, boundary-minor). */
  function SearchUpTo(costs: seq<real>, k: nat): Choice
    requires k <= |costs| <= 21
  {
    if k == 0 then Choice(PosInf, -1, 0)
    else
      var prev := SearchUpTo(costs, k - 1);
      if Below(costs[k - 1], prev.minCost) then Choice(Fin(costs[k - 1]), (k - 1) % 7, (k - 1) / 7) else prev
  }

  function Search(ts: seq<BvhTri>, b: Aabb): Choice
    requires b.Finite()
  {
    var costs := Costs(ts, b);
    SearchUpTo(costs, |costs|)
  }

  /** The candidate number of a choice. */
  function Index(ch: Choice): int {
    ch.axis * 7 + ch.split
  }

  /**
   * After k >= 1 candidates the state holds the cost of candidate Index, that cost is a minimum
   * over the candidates seen, and every earlier candidate was strictly dearer.
   */
  lemma {:induction false} SearchUpToIsFirstMinimum(costs: seq<real>, k: nat)
    requires 1 <= k <= |costs| <= 21
    ensures var ch := SearchUpTo(costs, k);
      && ch.minCost.Fin? && 0 <= ch.split < 7
      && 0 <= Index(ch) < k
      && ch.minCost.v == costs[Index(ch)]
      && (forall q :: 0 <= q < k ==> ch.minCost.v <= costs[q])
      && (forall q :: 0 <= q < Index(ch) ==> ch.minCost.v < costs[q])
  {
    if k > 1 {
      SearchUpToIsFirstMinimum(costs, k - 1);
    }
  }

  /** The winning cost is at most the cost of every candidate plane. */
  lemma SearchIsMinimal(ts: seq<BvhTri>, b: Aabb, axis: Axis, i: int)
    requires b.Finite() && 0 <= i < 7
    ensures Search(ts, b).minCost.Fin?
    ensures Search(ts, b).minCost.v <= SahCost(ts, axis, Boundary(b, axis, i))
  {
    var costs := Costs(ts, b);
    SearchUpToIsFirstMinimum(costs, |costs|);
    assert (axis * 7 + i) / 7 == axis && (axis * 7 + i) % 7 == i;
    assert costs[axis * 7 + i] == CandidateCost(ts, b, axis * 7 + i);
  }

  /** The winning cost is the cost of the plane the search reports. */
  lemma SearchIsAttained(ts: seq<BvhTri>, b: Aabb)
    requires b.Finite()
    ensures var ch := Search(ts, b);
      && ch.minCost.Fin? && 0 <= ch.split < 7
      && ch.minCost.v == SahCost(ts, ch.axis, Boundary(b, ch.axis, ch.split))
  {
    var costs := Costs(ts, b);
    SearchUpToIsFirstMinimum(costs, |costs|);
    var ch := Search(ts, b);
    assert Index(ch) / 7 == ch.axis && Index(ch) % 7 == ch.split;
  }

  // ---- The degenerate fallback ----

  function Abs(x: real): real {
    if x < 0.0 then -x else x
  }

  /** The first axis on which the two midpoints differ by more than 1e-6, from `from` on. */
  function FirstApart(t0: BvhTri, t1: BvhTri, from: nat): Option<Axis>
    decreases 3 - from
  {
    if from >= 3 then None
    else if Abs(Mid(t0, from) - Mid(t1, from)) > Epsilon then Some(from)
    else FirstApart(t0, t1, from + 1)
  }

  /** FirstApart finds exactly the first axis where the midpoints are apart. */
  lemma {:induction false} FirstApartIsFirst(t0: BvhTri, t1: BvhTri, from: nat)
    requires from <= 3
    ensures FirstApart(t0, t1, from).Some? ==>
      var a := FirstApart(t0, t1, from).value;
      from <= a && Abs(Mid(t0, a) - Mid(t1, a)) > Epsilon
      && forall a': Axis :: from <= a' < a ==> Abs(Mid(t0, a') - Mid(t1, a')) <= Epsilon
    ensures FirstApart(t0, t1, from).None? ==>
      forall a': Axis :: from <= a' ==> Abs(Mid(t0, a') - Mid(t1, a')) <= Epsilon
    decreases 3 - from
  {
    if from < 3 {
      FirstApartIsFirst(t0, t1, from + 1);
    }
  }

  /** A partition plane: an axis and the coordinate compared against. */
  datatype Plane = Plane(axis: Axis, compare: real)

  /**
   * The fallback for overlaid triangles: on the first axis where the first two midpoints are
   * more than 1e-6 apart, split halfway between them; with no such axis keep `p`. The new plane
   * always separates the two triangles.
   */
  function Fallback(t0: BvhTri, t1: BvhTri, p: Plane): (r: Plane)
    ensures FirstApart(t0, t1, 0).None? ==> r == p
    ensures FirstApart(t0, t1, 0).Some? ==>
      r.axis == FirstApart(t0, t1, 0).value && (Mid(t0, r.axis) < r.compare) != (Mid(t1, r.axis) < r.compare)
  {
    FirstApartIsFirst(t0, t1, 0);
    match FirstApart(t0, t1, 0)
    case Some(a) => Plane(a, (Mid(t0, a) + Mid(t1, a)) * 0.5)
    case None => p
  }

  /** The plane buildNode finally partitions by: the SAH winner, or the fallback when it is too dear. */
  function ChosenPlane(ts: seq<BvhTri>, b: Aabb): Plane
    requires b.Finite() && |ts| >= 2
  {
    var ch := Search(ts, b);
    var p := Plane(ch.axis, Boundary(b, ch.axis, ch.split));
    if Above(ch.minCost, FallbackThreshold) then Fallback(ts[0], ts[1], p) else p
  }

  /** Each triangle lands on the side of the plane its midpoint is on. */
  lemma MemberSide(ts: seq<BvhTri>, k: int, axis: Axis, c: real)
    requires 0 <= k < |ts|
    ensures Mid(ts[k], axis) < c ==> ts[k] in LeftOf(ts, axis, c)
    ensures Mid(ts[k], axis) >= c ==> ts[k] in RightOf(ts, axis, c)
  {
    PartitionSplits(ts, axis, c);
    assert ts[k] in multiset(ts);
  }

  /** Two triangles on opposite sides of the plane leave both sides nonempty. */
  lemma OppositePairSplits(ts: seq<BvhTri>, axis: Axis, c: real)
    requires |ts| >= 2 && (Mid(ts[0], axis) < c) != (Mid(ts[1], axis) < c)
    ensures |LeftOf(ts, axis, c)| > 0 && |RightOf(ts, axis, c)| > 0
  {
    MemberSide(ts, 0, axis, c);
    MemberSide(ts, 1, axis, c);
  }

  /**
   * The chosen plane leaves triangles on both sides whenever the SAH search found a split
   * costing at most 1e9, or the first two midpoints differ by more than 1e-6 on some axis.
   */
  lemma ChosenPlaneHasTwoSides(ts: seq<BvhTri>)
    requires |ts| >= 2 && AllSane(ts)
    requires var ch := Search(ts, BoundsOf(ts));
      (ch.minCost.Fin? && ch.minCost.v <= FallbackThreshold) || FirstApart(ts[0], ts[1], 0).Some?
    ensures var p := ChosenPlane(ts, BoundsOf(ts));
      |LeftOf(ts, p.axis, p.compare)| > 0 && |RightOf(ts, p.axis, p.compare)| > 0
  {
    var b := BoundsOf(ts);
    var ch := Search(ts, b);
    SearchIsAttained(ts, b);
    var p := ChosenPlane(ts, b);
    if ch.minCost.v <= FallbackThreshold {
      CheapSplitHasTwoSides(ts, p.axis, p.compare);
    } else {
      OppositePairSplits(ts, p.axis, p.compare);
    }
  }

  /** All the triangles share one midpoint, as overlaid copies of a triangle do. */
  predicate SameMidpoints(ts: seq<BvhTri>) {
    forall k :: 0 <= k < |ts| ==> ts[k].midpoint == ts[0].midpoint
  }

  /**
   * Triangles with one common midpoint defeat both the search and the fallback: whatever plane
   * is chosen, one side is empty, so the node is internal with a single child.
   */
  lemma CoincidentHaveOneSide(ts: seq<BvhTri>, axis: Axis, c: real)
    requires SameMidpoints(ts)
    ensures |LeftOf(ts, axis, c)| == 0 || |RightOf(ts, axis, c)| == 0
  {
    PartitionSplits(ts, axis, c);
  }

  // ---- The loops of buildNode, as methods proved against the functions above ----

  /** The bounds loop: mmax over every triangle of the subset. */
  method UnionBounds(ts: seq<BvhTri>) returns (box: Aabb)
    ensures box == BoundsOf(ts)
  {
    var bounds := AllocAabb();
    for i := 0 to |ts|
      invariant BoxOf(bounds) == BoundsOf(ts[..i])
    {
      assert ts[..i + 1][..i] == ts[..i];
      Mmax(bounds, ts[i].mi, ts[i].ma);
    }
    assert ts[..|ts|] == ts;
    box := BoxOf(bounds);
  }

  /** One more triangle extends exactly one side of the partition. */
  lemma PartitionStep(ts: seq<BvhTri>, j: int, axis: Axis, c: real)
    requires 0 <= j < |ts|
    ensures LeftOf(ts[..j + 1], axis, c) == LeftOf(ts[..j], axis, c) + (if Mid(ts[j], axis) < c then [ts[j]] else [])
    ensures RightOf(ts[..j + 1], axis, c) == RightOf(ts[..j], axis, c) + (if Mid(ts[j], axis) < c then [] else [ts[j]])
  {
    assert ts[..j + 1][..j] == ts[..j];
  }

  lemma BoundsOfSnoc(xs: seq<BvhTri>, t: BvhTri)
    ensures BoundsOf(xs + [t]) == Merged(BoundsOf(xs), t.mi, t.ma)
  {
    assert (xs + [t])[..|xs|] == xs;
  }

  /** The counting loop of one candidate plane: both sides' sizes and boxes. */
  method SideBoxes(ts: seq<BvhTri>, axis: Axis, compare: real)
    returns (left: nat, right: nat, leftBox: Aabb, rightBox: Aabb)
    ensures left == |LeftOf(ts, axis, compare)| && right == |RightOf(ts, axis, compare)|
    ensures leftBox == BoundsOf(LeftOf(ts, axis, compare))
    ensures rightBox == BoundsOf(RightOf(ts, axis, compare))
  {
    left, right := 0, 0;
    var leftBounds := AllocAabb();
    var rightBounds := AllocAabb();
    ghost var l: seq<BvhTri>, r: seq<BvhTri> := [], [];
    for j := 0 to |ts|
      invariant leftBounds != rightBounds
      invariant l == LeftOf(ts[..j], axis, compare) && r == RightOf(ts[..j], axis, compare)
      invariant left == |l| && right == |r|
      invariant BoxOf(leftBounds) == BoundsOf(l) && BoxOf(rightBounds) == BoundsOf(r)
    {
      PartitionStep(ts, j, axis, compare);
      var center := Mid(ts[j], axis);
      if center < compare {
        BoundsOfSnoc(l, ts[j]);
        l := l + [ts[j]];
        left := left + 1;
        Mmax(leftBounds, ts[j].mi, ts[j].ma);
      } else {
        BoundsOfSnoc(r, ts[j]);
        r := r + [ts[j]];
        right := right + 1;
        Mmax(rightBounds, ts[j].mi, ts[j].ma);
      }
    }
    assert ts[..|ts|] == ts;
    leftBox, rightBox := BoxOf(leftBounds), BoxOf(rightBounds);
  }

  /** One side's term of SAHcost: 1e12 when the side is empty, else count times surface area. */
  method SideCostOf(count: nat, box: Aabb, ghost side: seq<BvhTri>) returns (cost: real)
    requires count == |side| && box == BoundsOf(side)
    ensures cost == SideCost(side)
  {
    if count == 0 {
      cost := EmptyPenalty;
    } else {
      cost := Weighted(count, SurfaceArea(box));
    }
  }

  /** The inner loop of the search and the cost it sums: the SAH cost of one candidate plane. */
  method CandidateCostLoop(ts: seq<BvhTri>, axis: Axis, compare: real) returns (cost: real)
    ensures cost == SahCost(ts, axis, compare)
  {
    var left, right, leftBox, rightBox := SideBoxes(ts, axis, compare);
    var leftCost := SideCostOf(left, leftBox, LeftOf(ts, axis, compare));
    var rightCost := SideCostOf(right, rightBox, RightOf(ts, axis, compare));
    cost := leftCost + rightCost;
  }

  /** The two outer loops of the search: every axis, every interior boundary. */
  method SearchLoop(ts: seq<BvhTri>, bounds: Aabb) returns (minCost: XReal, bestSplit: int, bestAxis: Axis)
    requires bounds.Finite()
    ensures Choice(minCost, bestSplit, bestAxis) == Search(ts, bounds)
  {
    ghost var costs := Costs(ts, bounds);
    minCost, bestSplit, bestAxis := PosInf, -1, 0;
    for axis := 0 to 3
      invariant Choice(minCost, bestSplit, bestAxis) == SearchUpTo(costs, axis * 7)
    {
      for i := 0 to NumBins - 1
        invariant Choice(minCost, bestSplit, bestAxis) == SearchUpTo(costs, axis * 7 + i)
      {
        var compare := Boundary(bounds, axis, i);
        var cost := CandidateCostLoop(ts, axis, compare);
        assert (axis * 7 + i) / 7 == axis && (axis * 7 + i) % 7 == i;
        assert costs[axis * 7 + i] == cost;
        if Below(cost, minCost) {
          minCost, bestSplit, bestAxis := Fin(cost), i, axis;
        }
      }
    }
  }

  /** The fallback loop: scans the axes and stops at the first where the midpoints are apart. */
  method FallbackLoop(t0: BvhTri, t1: BvhTri, axis0: Axis, compare0: real) returns (bestAxis: Axis, compare: real)
    ensures Plane(bestAxis, compare) == Fallback(t0, t1, Plane(axis0, compare0))
  {
    bestAxis, compare := axis0, compare0;
    for axis := 0 to 3
      invariant FirstApart(t0, t1, 0) == FirstApart(t0, t1, axis)
    {
      if Abs(Mid(t0, axis) - Mid(t1, axis)) > Epsilon {
        bestAxis := axis;
        compare := (Mid(t0, axis) + Mid(t1, axis)) * 0.5;
        return;
      }
    }
  }

  /** The partition loop. */
  method PartitionLoop(ts: seq<BvhTri>, axis: Axis, compare: real) returns (left: seq<BvhTri>, right: seq<BvhTri>)
    ensures left == LeftOf(ts, axis, compare) && right == RightOf(ts, axis, compare)
  {
    left, right := [], [];
    for i := 0 to |ts|
      invariant left == LeftOf(ts[..i], axis, compare) && right == RightOf(ts[..i], axis, compare)
    {
      assert ts[..i + 1][..i] == ts[..i];
      if Mid(ts[i], axis) < compare {
        left := left + [ts[i]];
      } else {
        right := right + [ts[i]];
      }
    }
    assert ts[..|ts|] == ts;
  }
}
