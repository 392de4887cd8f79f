/**
 * Axis-aligned bounding boxes of bvh.js. A box is three [min, max] pairs, one per axis;
 * the empty box of newAABB uses +Infinity for every min and -Infinity for every max,
 * which `XReal` represents exactly.
 */
module Bounds {
  import opened Geometry

  /** A real extended with the two infinities JavaScript uses as sentinels. */
  datatype XReal = NegInf | Fin(v: real) | PosInf

  predicate Le(a: XReal, b: XReal) {
    a.NegInf? || b.PosInf? || (a.Fin? && b.Fin? && a.v <= b.v)
  }

  /** Math.min on extended reals. */
  function Min(a: XReal, b: XReal): (r: XReal)
    ensures Le(r, a) && Le(r, b)
    ensures r == a || r == b
  {
    if Le(a, b) then a else b
  }

  /** Math.max on extended reals. */
  function Max(a: XReal, b: XReal): (r: XReal)
    ensures Le(a, r) && Le(b, r)
    ensures r == a || r == b
  {
    if Le(a, b) then b else a
  }

  /** The [min, max] pair of one axis. */
  datatype Span = Span(lo: XReal, hi: XReal)

  datatype Aabb = Aabb(s0: Span, s1: Span, s2: Span) {
    function On(a: Axis): Span {
      if a == 0 then s0 else if a == 1 then s1 else s2
    }

    /** Every corner coordinate is a finite number. */
    predicate Finite() {
      s0.lo.Fin? && s0.hi.Fin? && s1.lo.Fin? && s1.hi.Fin? && s2.lo.Fin? && s2.hi.Fin?
    }

    /** min <= max on every axis. */
    predicate Ordered() {
      Le(s0.lo, s0.hi) && Le(s1.lo, s1.hi) && Le(s2.lo, s2.hi)
    }
  }

  /** newAABB: the identity of box union. */
  function NewAabb(): Aabb {
    Aabb(Span(PosInf, NegInf), Span(PosInf, NegInf), Span(PosInf, NegInf))
  }

  /** The box with corners exactly mi and ma. */
  function Box(mi: V3, ma: V3): Aabb {
    Aabb(Span(Fin(mi.x), Fin(ma.x)), Span(Fin(mi.y), Fin(ma.y)), Span(Fin(mi.z), Fin(ma.z)))
  }

  predicate SpanHolds(s: Span, lo: real, hi: real) {
    Le(s.lo, Fin(lo)) && Le(Fin(hi), s.hi)
  }

  /** The box contains the pair of corners (mi, ma). */
  predicate Holds(b: Aabb, mi: V3, ma: V3) {
    SpanHolds(b.s0, mi.x, ma.x) && SpanHolds(b.s1, mi.y, ma.y) && SpanHolds(b.s2, mi.z, ma.z)
  }

  predicate SpanWithin(inner: Span, outer: Span) {
    Le(outer.lo, inner.lo) && Le(inner.hi, outer.hi)
  }

  /** Every axis of `inner` lies inside the same axis of `outer`. */
  predicate Within(inner: Aabb, outer: Aabb) {
    SpanWithin(inner.s0, outer.s0) && SpanWithin(inner.s1, outer.s1) && SpanWithin(inner.s2, outer.s2)
  }

  function MergeSpan(s: Span, lo: real, hi: real): Span {
    Span(Min(s.lo, Fin(lo)), Max(s.hi, Fin(hi)))
  }

  /** The box that mmax(b, mi, ma) leaves behind. */
  function Merged(b: Aabb, mi: V3, ma: V3): (r: Aabb)
    ensures Within(b, r) && Holds(r, mi, ma)
  {
    Aabb(MergeSpan(b.s0, mi.x, ma.x), MergeSpan(b.s1, mi.y, ma.y), MergeSpan(b.s2, mi.z, ma.z))
  }

  /** growBounds(b, p) is mmax(b, p, p). */
  function Grown(b: Aabb, p: V3): Aabb {
    Merged(b, p, p)
  }

  lemma LeTrans(a: XReal, b: XReal, c: XReal)
    requires Le(a, b) && Le(b, c)
    ensures Le(a, c)
  {
  }

  /** Containment of a pair of corners survives widening the box. */
  lemma HoldsWiden(b: Aabb, c: Aabb, mi: V3, ma: V3)
    requires Holds(b, mi, ma) && Within(b, c)
    ensures Holds(c, mi, ma)
  {
  }

  /** Merged is the least box that contains both its inputs. */
  lemma MergedIsLeast(b: Aabb, mi: V3, ma: V3, c: Aabb)
    requires Within(b, c) && Holds(c, mi, ma)
    ensures Within(Merged(b, mi, ma), c)
  {
  }

  /** Merging into the empty box yields exactly the merged corners. */
  lemma MergedIntoEmpty(mi: V3, ma: V3)
    ensures Merged(NewAabb(), mi, ma) == Box(mi, ma)
  {
  }

  /** Merging is monotone: a containment survives merging the same corners on both sides. */
  lemma MergedMonotone(b: Aabb, c: Aabb, mi: V3, ma: V3)
    requires Within(b, c)
    ensures Within(Merged(b, mi, ma), Merged(c, mi, ma))
  {
    MergedIsLeast(b, mi, ma, Merged(c, mi, ma));
  }

  function Extent(b: Aabb, a: Axis): real
    requires b.Finite()
  {
    b.On(a).hi.v - b.On(a).lo.v
  }

  /** surfaceArea: w*h + h*d + d*w, without the usual factor 2. */
  function SurfaceArea(b: Aabb): (r: real)
    requires b.Finite()
    ensures b.Ordered() ==> r >= 0.0
  {
    var w, h, d := Extent(b, 0), Extent(b, 1), Extent(b, 2);
    MulNonNeg(w, h);
    MulNonNeg(h, d);
    MulNonNeg(d, w);
    w * h + h * d + d * w
  }

  lemma MulNonNeg(x: real, y: real)
    ensures x >= 0.0 && y >= 0.0 ==> x * y >= 0.0
  {
  }

  function RMax(x: real, y: real): real {
    if x >= y then x else y
  }

  /** longestAxis: index of the first occurrence of the largest extent. */
  function LongestAxis(b: Aabb): (r: Axis)
    requires b.Finite()
    ensures forall a: Axis :: Extent(b, a) <= Extent(b, r)
    ensures forall a: Axis :: a < r ==> Extent(b, a) < Extent(b, r)
  {
    var e0, e1, e2 := Extent(b, 0), Extent(b, 1), Extent(b, 2);
    var m := RMax(RMax(e0, e1), e2);
    if e0 == m then 0 else if e1 == m then 1 else 2
  }

  // ---- The in-place form: a 3x2 array bounds[axis][0 = min, 1 = max] ----

  predicate IsBoxArray(bounds: array2<XReal>) {
    bounds.Length0 == 3 && bounds.Length1 == 2
  }

  function BoxOf(bounds: array2<XReal>): Aabb
    requires IsBoxArray(bounds)
    reads bounds
  {
    Aabb(Span(bounds[0, 0], bounds[0, 1]), Span(bounds[1, 0], bounds[1, 1]), Span(bounds[2, 0], bounds[2, 1]))
  }

  /** Allocates the array that newAABB returns. */
  method AllocAabb() returns (bounds: array2<XReal>)
    ensures fresh(bounds) && IsBoxArray(bounds)
    ensures BoxOf(bounds) == NewAabb()
  {
    bounds := new XReal[3, 2];
    bounds[0, 0], bounds[1, 0], bounds[2, 0] := PosInf, PosInf, PosInf;
    bounds[0, 1], bounds[1, 1], bounds[2, 1] := NegInf, NegInf, NegInf;
  }

  /** growBounds: widens the box in place to contain point p. */
  method GrowBounds(bounds: array2<XReal>, p: V3)
    requires IsBoxArray(bounds)
    modifies bounds
    ensures BoxOf(bounds) == Grown(old(BoxOf(bounds)), p)
  {
    bounds[0, 0] := Min(bounds[0, 0], Fin(p.x));
    bounds[1, 0] := Min(bounds[1, 0], Fin(p.y));
    bounds[2, 0] := Min(bounds[2, 0], Fin(p.z));
    bounds[0, 1] := Max(bounds[0, 1], Fin(p.x));
    bounds[1, 1] := Max(bounds[1, 1], Fin(p.y));
    bounds[2, 1] := Max(bounds[2, 1], Fin(p.z));
  }

  /** mmax: widens the box in place to contain the corners mi and ma. */
  method Mmax(bounds: array2<XReal>, mi: V3, ma: V3)
    requires IsBoxArray(bounds)
    modifies bounds
    ensures BoxOf(bounds) == Merged(old(BoxOf(bounds)), mi, ma)
  {
    bounds[0, 0] := Min(bounds[0, 0], Fin(mi.x));
    bounds[1, 0] := Min(bounds[1, 0], Fin(mi.y));
    bounds[2, 0] := Min(bounds[2, 0], Fin(mi.z));
    bounds[0, 1] := Max(bounds[0, 1], Fin(ma.x));
    bounds[1, 1] := Max(bounds[1, 1], Fin(ma.y));
    bounds[2, 1] := Max(bounds[2, 1], Fin(ma.z));
  }
}
