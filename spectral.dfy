/**
 * The wavelength lookup table of compile.js: sampleWavelength (an inverse-CDF search), the
 * trapezoid CDF built from the summed components of the CIE table, and the pass that writes
 * the inverse table into the alpha channel of that table.
 *
 * The CIE table holds rgba quadruples; sample i is the sum r + g + b of quadruple i.
 */
module Spectral {
  import opened Common

  // ---- sampleWavelength ----

  /** `cdf[i-1] <= xi <= cdf[i]`: xi falls in the interval ending at entry i. */
  predicate Brackets(cdf: seq<real>, xi: real, i: int) {
    1 <= i < |cdf| && cdf[i - 1] <= xi <= cdf[i]
  }

  /** The first bracketing interval at or after k, or |cdf| when there is none. */
  function Bracket(cdf: seq<real>, xi: real, k: nat): (r: nat)
    requires 1 <= k
    ensures r <= |cdf| || r == k
    ensures k <= r
    ensures r < |cdf| ==> Brackets(cdf, xi, r)
    ensures forall j :: k <= j < r && j < |cdf| ==> !Brackets(cdf, xi, j)
    decreases |cdf| - k
  {
    if k >= |cdf| then k
    else if Brackets(cdf, xi, k) then k
    else Bracket(cdf, xi, k + 1)
  }

  /**
   * Linear interpolation in interval i: `(lambdaa * (1 - t) + lambdab * t) / cdf.length` with
   * `t = (xi - cdfa) / (cdfb - cdfa)`; an empty interval (cdfa == cdfb == xi) gives 0 / 0.
   */
  function Interp(cdf: seq<real>, xi: real, i: nat): Num
    requires 1 <= i < |cdf|
  {
    if cdf[i] == cdf[i - 1] then NaN
    else
      var t := (xi - cdf[i - 1]) / (cdf[i] - cdf[i - 1]);
      Val(((i - 1) as real * (1.0 - t) + i as real * t) / |cdf| as real)
  }

  /** What sampleWavelength returns: the interpolation in the first bracket, 1 when none matches. */
  function Lookup(cdf: seq<real>, xi: real): Num {
    var i := Bracket(cdf, xi, 1);
    if i < |cdf| then Interp(cdf, xi, i) else Val(1.0)
  }

  /** sampleWavelength: a linear search with an early return. */
  method SampleWavelength(cdf: seq<real>, xi: real) returns (r: Num)
    ensures r == Lookup(cdf, xi)
  {
    var i := 1;
    while i < |cdf|
      invariant 1 <= i && Bracket(cdf, xi, i) == Bracket(cdf, xi, 1)
      decreases |cdf| - i
    {
      var cdfa := cdf[i - 1];
      var cdfb := cdf[i];
      if xi >= cdfa && xi <= cdfb {
        if cdfb == cdfa {
          // t = 0 / 0
          return NaN;
        }
        var t := (xi - cdfa) / (cdfb - cdfa);
        var lambdaa := i - 1;
        var lambdab := i;
        return Val((lambdaa as real * (1.0 - t) + lambdab as real * t) / |cdf| as real);
      }
      i := i + 1;
    }
    return Val(1.0);
  }

  predicate StrictlyIncreasing(cdf: seq<real>) {
    forall i, j :: 0 <= i < j < |cdf| ==> cdf[i] < cdf[j]
  }

  /** The interpolation is (i - 1 + t) / n with t in [0, 1]: it lies in [(i-1)/n, i/n]. */
  lemma InterpBounds(cdf: seq<real>, xi: real, i: nat)
    requires Brackets(cdf, xi, i) && cdf[i - 1] < cdf[i]
    ensures Interp(cdf, xi, i).Val?
    ensures var n := |cdf| as real;
      (i - 1) as real / n <= Interp(cdf, xi, i).v <= i as real / n
  {
    var d := cdf[i] - cdf[i - 1];
    var t := (xi - cdf[i - 1]) / d;
    assert 0.0 <= t <= 1.0 by {
      assert t * d == xi - cdf[i - 1];
    }
    var n := |cdf| as real;
    var v := ((i - 1) as real * (1.0 - t) + i as real * t);
    assert v == (i - 1) as real + t;
    DivideMono((i - 1) as real, v, n);
    DivideMono(v, i as real, n);
  }

  lemma DivideMono(a: real, b: real, n: real)
    requires a <= b && n > 0.0
    ensures a / n <= b / n
  {
    assert b / n - a / n == (b - a) / n;
  }

  /** Inside one interval the interpolation grows with xi. */
  lemma InterpMono(cdf: seq<real>, x1: real, x2: real, i: nat)
    requires Brackets(cdf, x1, i) && Brackets(cdf, x2, i) && x1 <= x2 && cdf[i - 1] < cdf[i]
    ensures Interp(cdf, x1, i).Val? && Interp(cdf, x2, i).Val? && Interp(cdf, x1, i).v <= Interp(cdf, x2, i).v
  {
    var d := cdf[i - 1];
    var e := cdf[i] - d;
    DivideMono(x1 - d, x2 - d, e);
    var t1, t2 := (x1 - d) / e, (x2 - d) / e;
    assert ((i - 1) as real * (1.0 - t1) + i as real * t1) == (i - 1) as real + t1;
    assert ((i - 1) as real * (1.0 - t2) + i as real * t2) == (i - 1) as real + t2;
    DivideMono((i - 1) as real + t1, (i - 1) as real + t2, |cdf| as real);
  }

  /** A value between cdf[0] and cdf[m] falls in some interval up to m. */
  lemma {:induction false} SomeBracket(cdf: seq<real>, x: real, m: nat) returns (j: nat)
    requires StrictlyIncreasing(cdf) && 1 <= m < |cdf| && cdf[0] <= x <= cdf[m]
    ensures 1 <= j <= m && Brackets(cdf, x, j)
  {
    if cdf[m - 1] <= x || m == 1 {
      j := m;
    } else {
      j := SomeBracket(cdf, x, m - 1);
    }
  }

  /** With a strictly increasing table every lookup is a number in [0, 1]. */
  lemma LookupInUnit(cdf: seq<real>, xi: real)
    requires StrictlyIncreasing(cdf)
    ensures Lookup(cdf, xi).Val? && 0.0 <= Lookup(cdf, xi).v <= 1.0
  {
    var i := Bracket(cdf, xi, 1);
    if i < |cdf| {
      InterpBounds(cdf, xi, i);
      DivideMono(0.0, (i - 1) as real, |cdf| as real);
      DivideMono(i as real, |cdf| as real, |cdf| as real);
    }
  }

  /** Below the first entry no interval matches, so the lookup saturates at the top, 1. */
  lemma BelowTableIsOne(cdf: seq<real>, xi: real)
    requires StrictlyIncreasing(cdf) && 0 < |cdf| && xi < cdf[0]
    ensures Lookup(cdf, xi) == Val(1.0)
  {
    assert forall j :: 1 <= j < |cdf| ==> !Brackets(cdf, xi, j);
  }

  /** For a strictly increasing table the lookup is non-decreasing in xi from cdf[0] on. */
  lemma LookupMonotone(cdf: seq<real>, x1: real, x2: real)
    requires StrictlyIncreasing(cdf) && 0 < |cdf| && cdf[0] <= x1 <= x2
    ensures Lookup(cdf, x1).Val? && Lookup(cdf, x2).Val? && Lookup(cdf, x1).v <= Lookup(cdf, x2).v
  {
    LookupInUnit(cdf, x1);
    LookupInUnit(cdf, x2);
    var n := |cdf|;
    var i1, i2 := Bracket(cdf, x1, 1), Bracket(cdf, x2, 1);
    if i2 < n {
      var j := SomeBracket(cdf, x1, i2);
      assert i1 <= j;
      InterpBounds(cdf, x1, i1);
      InterpBounds(cdf, x2, i2);
      if i1 < i2 {
        DivideMono(i1 as real, (i2 - 1) as real, n as real);
      } else {
        InterpMono(cdf, x1, x2, i1);
      }
    }
  }

  // ---- The CDF ----

  /** Sample i of the CIE table: r + g + b of quadruple i. */
  function Sample(cie: seq<real>, i: nat): real
    requires 4 * i + 2 < |cie|
  {
    cie[4 * i] + cie[4 * i + 1] + cie[4 * i + 2]
  }

  /** The sum of the first n samples. */
  function SumSamples(cie: seq<real>, n: nat): real
    requires 4 * n <= |cie|
  {
    if n == 0 then 0.0 else SumSamples(cie, n - 1) + Sample(cie, n - 1)
  }

  predicate PositiveSamples(cie: seq<real>) {
    forall i :: 0 <= i < |cie| / 4 ==> Sample(cie, i) > 0.0
  }

  /** One trapezoid of the CDF: `0.5 * delta * (a + b) / integral` with delta = 1. */
  function Trapezoid(a: real, b: real, integral: real): real
    requires integral != 0.0
  {
    0.5 * 1.0 * (a + b) / integral
  }

  /** Entry i of the CDF: the running sum of trapezoids, starting from 0. */
  function CdfAt(cie: seq<real>, integral: real, i: nat): real
    requires 4 * i + 2 < |cie| && integral != 0.0
  {
    if i == 0 then 0.0 else CdfAt(cie, integral, i - 1) + Trapezoid(Sample(cie, i), Sample(cie, i - 1), integral)
  }

  /** Closed form: 2 * integral * cdf[k] == 2 * (s_0 + ... + s_k) - s_0 - s_k. */
  lemma {:induction false} CdfClosedForm(cie: seq<real>, integral: real, k: nat)
    requires 4 * k + 4 <= |cie| && integral != 0.0
    ensures 2.0 * integral * CdfAt(cie, integral, k) == 2.0 * SumSamples(cie, k + 1) - Sample(cie, 0) - Sample(cie, k)
  {
    if k > 0 {
      CdfClosedForm(cie, integral, k - 1);
      var step := Trapezoid(Sample(cie, k), Sample(cie, k - 1), integral);
      assert 2.0 * integral * step == Sample(cie, k) + Sample(cie, k - 1);
      assert 2.0 * integral * CdfAt(cie, integral, k) == 2.0 * integral * CdfAt(cie, integral, k - 1) + 2.0 * integral * step;
    }
  }

  /**
   * With integral the sum of all n samples, the last entry is 1 - (s_0 + s_{n-1}) / (2 * integral),
   * which is at most 1 for non-negative end samples.
   */
  lemma CdfLast(cie: seq<real>, n: nat)
    requires 1 <= n && 4 * n <= |cie| && SumSamples(cie, n) > 0.0
    ensures var integral := SumSamples(cie, n);
      CdfAt(cie, integral, n - 1) == 1.0 - (Sample(cie, 0) + Sample(cie, n - 1)) / (2.0 * integral)
    ensures Sample(cie, 0) >= 0.0 && Sample(cie, n - 1) >= 0.0 ==> CdfAt(cie, SumSamples(cie, n), n - 1) <= 1.0
  {
    var integral := SumSamples(cie, n);
    CdfClosedForm(cie, integral, n - 1);
    var c := CdfAt(cie, integral, n - 1);
    var e := Sample(cie, 0) + Sample(cie, n - 1);
    ClosedToLast(c, 2.0 * integral, e);
  }

  /** Solving d * c == d - e for c. */
  lemma ClosedToLast(c: real, d: real, e: real)
    requires d > 0.0 && d * c == d - e
    ensures c == 1.0 - e / d
    ensures e >= 0.0 ==> c <= 1.0
  {
    var q := e / d;
    assert q * d == e;
    var y := 1.0 - q;
    assert y * d == d - q * d;
    assert c * d == y * d;
    Cancel(c, y, d);
  }

  lemma Cancel(x: real, y: real, d: real)
    requires x * d == y * d && d != 0.0
    ensures x == y
  {
    assert (x - y) * d == 0.0;
  }

  /** Positive samples and a positive integral make each step of the CDF a strict increase. */
  lemma CdfStep(cie: seq<real>, integral: real, i: nat)
    requires 1 <= i && 4 * i + 4 <= |cie| && integral > 0.0 && PositiveSamples(cie)
    ensures CdfAt(cie, integral, i - 1) < CdfAt(cie, integral, i)
  {
    assert i < |cie| / 4;
    assert Sample(cie, i) > 0.0 && Sample(cie, i - 1) > 0.0;
  }

  /** ... hence the CDF is strictly increasing, as the lookup needs. */
  lemma {:induction false} CdfIncreasing(cie: seq<real>, integral: real, i: nat, j: nat)
    requires i < j && 4 * j + 4 <= |cie| && integral > 0.0 && PositiveSamples(cie)
    ensures CdfAt(cie, integral, i) < CdfAt(cie, integral, j)
    decreases j - i
  {
    CdfStep(cie, integral, j);
    if i < j - 1 {
      CdfIncreasing(cie, integral, i, j - 1);
    }
  }

  /** The loop summing r + g + b over every quadruple of the table. */
  method Integral(cie: array<real>) returns (integral: real)
    requires cie.Length % 4 == 0
    ensures integral == SumSamples(cie[..], cie.Length / 4)
  {
    integral := 0.0;
    var i := 0;
    while i < cie.Length
      invariant 0 <= i <= cie.Length && i % 4 == 0
      invariant integral == SumSamples(cie[..], i / 4)
    {
      assert Sample(cie[..], i / 4) == cie[i] + cie[i + 1] + cie[i + 2];
      integral := integral + cie[i] + cie[i + 1] + cie[i + 2];
      i := i + 4;
    }
  }

  /** The whole CDF, one entry per quadruple of the table. */
  function Cdf(cie: seq<real>, integral: real): (r: seq<real>)
    requires integral != 0.0
    ensures |r| == |cie| / 4 && forall i :: 0 <= i < |r| ==> r[i] == CdfAt(cie, integral, i)
  {
    seq(|cie| / 4, i requires 0 <= i < |cie| / 4 => CdfAt(cie, integral, i))
  }

  /** The CDF loop: cdf[0] = 0, then one trapezoid per entry. */
  method BuildCdf(cie: array<real>, integral: real) returns (cdf: array<real>)
    requires cie.Length % 4 == 0 && integral != 0.0
    ensures fresh(cdf) && cdf[..] == Cdf(cie[..], integral)
  {
    var len := cie.Length / 4;
    cdf := new real[len](_ => 0.0);
    if len == 0 {
      return;
    }
    ghost var table := cie[..];
    cdf[0] := 0.0;
    for i := 1 to len
      invariant forall k {:trigger cdf[k]} :: 0 <= k < i ==> cdf[k] == CdfAt(table, integral, k)
    {
      var idx := i * 4;
      var prevIdx := (i - 1) * 4;
      var a := cie[idx] + cie[idx + 1] + cie[idx + 2];
      var b := cie[prevIdx] + cie[prevIdx + 1] + cie[prevIdx + 2];
      assert a == Sample(table, i) && b == Sample(table, i - 1);
      cdf[i] := cdf[i - 1] + 0.5 * 1.0 * (a + b) / integral;
    }
  }

  /** The grid point of entry i: `i / (len - 1)`. */
  function GridPoint(i: nat, len: nat): real {
    if len == 1 then 0.0 else i as real / (len - 1) as real
  }

  /**
   * The inverse pass: entry i's alpha becomes the lookup of i / (len - 1), nothing else
   * changes. With len == 1 the grid point is 0 / 0, but a one-entry table has no interval
   * and the lookup is 1 for any value, so the model reads 0 there.
   */
  method InvertTable(cie: array<real>, cdf: seq<real>)
    requires cie.Length % 4 == 0 && |cdf| == cie.Length / 4 && StrictlyIncreasing(cdf)
    modifies cie
    ensures forall i :: 0 <= i < |cdf| ==> cie[4 * i + 3] == Lookup(cdf, GridPoint(i, |cdf|)).v
    ensures forall k :: 0 <= k < cie.Length && k % 4 != 3 ==> cie[k] == old(cie[k])
  {
    var len := cie.Length / 4;
    for i := 0 to len
      invariant forall k :: 0 <= k < i ==> cie[4 * k + 3] == Lookup(cdf, GridPoint(k, len)).v
      invariant forall k :: 0 <= k < cie.Length && (k % 4 != 3 || k >= 4 * i) ==> cie[k] == old(cie[k])
    {
      var x := if len == 1 then 0.0 else i as real / (len - 1) as real;
      var g := SampleWavelength(cdf, x);
      LookupInUnit(cdf, x);
      cie[i * 4 + 3] := g.v;
    }
  }

  /**
   * The alpha channel written by the inverse pass is non-decreasing along the table and lies in
   * [0, 1] when the CDF starts at 0.
   */
  lemma AlphaMonotone(cdf: seq<real>, i: nat, j: nat)
    requires StrictlyIncreasing(cdf) && 0 < |cdf| && cdf[0] == 0.0 && i <= j < |cdf|
    ensures Lookup(cdf, GridPoint(i, |cdf|)).Val? && Lookup(cdf, GridPoint(j, |cdf|)).Val?
    ensures 0.0 <= Lookup(cdf, GridPoint(i, |cdf|)).v <= Lookup(cdf, GridPoint(j, |cdf|)).v <= 1.0
  {
    var len := |cdf|;
    if len > 1 {
      DivideMono(0.0, i as real, (len - 1) as real);
      DivideMono(i as real, j as real, (len - 1) as real);
    }
    LookupMonotone(cdf, GridPoint(i, len), GridPoint(j, len));
    LookupInUnit(cdf, GridPoint(i, len));
    LookupInUnit(cdf, GridPoint(j, len));
  }

  /**
   * The table pass of passTextures: the integral, the CDF, then the inverse table in the alpha
   * channel; the rgb entries are left as they were.
   */
  method CieLut(cie: array<real>) returns (integral: real)
    requires cie.Length % 4 == 0 && PositiveSamples(cie[..])
    modifies cie
    ensures integral == SumSamples(old(cie[..]), cie.Length / 4)
    ensures forall k :: 0 <= k < cie.Length && k % 4 != 3 ==> cie[k] == old(cie[k])
    ensures cie.Length > 0 ==> integral > 0.0
    ensures cie.Length > 0 ==> forall i :: 0 <= i < cie.Length / 4 ==>
      cie[4 * i + 3] == Lookup(Cdf(old(cie[..]), integral), GridPoint(i, cie.Length / 4)).v
  {
    integral := Integral(cie);
    var len := cie.Length / 4;
    if len == 0 {
      return;
    }
    SumPositive(cie[..], len);
    var cdf := BuildCdf(cie, integral);
    ghost var table := cie[..];
    forall i, j | 0 <= i < j < len
      ensures cdf[i] < cdf[j]
    {
      CdfIncreasing(table, integral, i, j);
    }
    InvertTable(cie, cdf[..]);
    assert cdf[..] == Cdf(table, integral);
  }

  /** A sum of positive samples is positive. */
  lemma {:induction false} SumPositive(cie: seq<real>, n: nat)
    requires 1 <= n && 4 * n <= |cie| && PositiveSamples(cie)
    ensures SumSamples(cie, n) > 0.0
  {
    if n > 1 {
      SumPositive(cie, n - 1);
    }
  }
}
