/**
 * Environment-map binning of gltfLoader.js: getRadiance, the recursive bisection of
 * processBins and the radiance total of handleHDRI, over the globals hdriData, hdriWidth,
 * hdriHeight and bins, which are the fields of an `EnvMap` here.
 *
 * Coordinates are JavaScript numbers: processBins halves a rectangle at ax + w * 0.5, so after
 * an odd width the coordinates are no longer integers, and reading hdriData at a fractional
 * index yields `undefined`, which turns every sum it enters into NaN. Radiance values are
 * therefore a `Num`, a real or NaN.
 */
module EnvBins {
  import opened Common

  function Add(a: Num, b: Num): Num {
    if a.Val? && b.Val? then Val(a.v + b.v) else NaN
  }

  function Sub(a: Num, b: Num): Num {
    if a.Val? && b.Val? then Val(a.v - b.v) else NaN
  }

  /** `a < c`, which is false when a is NaN. */
  function Less(a: Num, c: real): bool {
    a.Val? && a.v < c
  }

  /** The decoded image as getRadiance sees it: three floats per pixel and the row width. */
  datatype Hdri = Hdri(data: seq<real>, width: int)

  /** Whether r is an integer (a JavaScript array index must be one). */
  predicate IsInt(r: real) {
    r.Floor as real == r
  }

  /**
   * getRadiance(x, y): with k = 3 * (y * width + x), the sum data[k] + data[k + 1] + data[k + 1].
   * The green channel is counted twice and the blue one never. When either read misses the
   * array (k negative, fractional or past the end) the sum is NaN.
   */
  function Radiance(img: Hdri, x: real, y: real): Num {
    var k := Index(img, x, y);
    if IsInt(k) && 0 <= k.Floor && k.Floor + 1 < |img.data| then
      Val(img.data[k.Floor] + img.data[k.Floor + 1] + img.data[k.Floor + 1])
    else NaN
  }

  /** The index getRadiance reads first, 3 * (y * width + x), before any rounding. */
  function Index(img: Hdri, x: real, y: real): real {
    3.0 * (y * img.width as real + x)
  }

  /** At integer coordinates the index is the integer 3 * (y * width + x). */
  lemma IntIndex(img: Hdri, x: int, y: int)
    ensures Index(img, x as real, y as real) == (3 * (y * img.width + x)) as real
    ensures Index(img, x as real, y as real).Floor == 3 * (y * img.width + x)
  {
    assert (y as real) * img.width as real == (y * img.width) as real;
  }

  /** Pixel (x, y) of a width * height image is pixel number y * width + x of width * height. */
  lemma PixelInRange(width: int, height: int, x: int, y: int)
    requires 0 <= x < width && 0 <= y < height
    ensures 0 <= y * width + x < width * height
  {
    assert y * width <= (height - 1) * width;
    assert (height - 1) * width == width * height - width;
  }

  /** At an integer pixel of an image of width * height pixels, the radiance is defined. */
  lemma RadianceDefined(img: Hdri, height: int, x: int, y: int)
    requires 0 <= x < img.width && 0 <= y < height && |img.data| == 3 * (img.width * height)
    ensures var k := 3 * (y * img.width + x);
      0 <= k && k + 2 < |img.data| && Radiance(img, x as real, y as real) == Val(img.data[k] + 2.0 * img.data[k + 1])
  {
    var n := y * img.width + x;
    PixelInRange(img.width, height, x, y);
    IntIndex(img, x, y);
    var k := Index(img, x as real, y as real);
    assert IsInt(k) && k.Floor == 3 * n && 0 <= 3 * n && 3 * n + 1 < |img.data|;
    assert Radiance(img, x as real, y as real) == Val(img.data[3 * n] + img.data[3 * n + 1] + img.data[3 * n + 1]);
  }

  /** At integer coordinates the blue channel (every third float, from the third) is never read. */
  lemma RadianceIgnoresBlue(d1: seq<real>, d2: seq<real>, width: int, x: int, y: int)
    requires |d1| == |d2| && forall k :: 0 <= k < |d1| && k % 3 != 2 ==> d1[k] == d2[k]
    ensures Radiance(Hdri(d1, width), x as real, y as real) == Radiance(Hdri(d2, width), x as real, y as real)
  {
    var n := y * width + x;
    IntIndex(Hdri(d1, width), x, y);
    IntIndex(Hdri(d2, width), x, y);
    assert (3 * n) % 3 == 0 && (3 * n + 1) % 3 == 1;
  }

  /** Half a pixel to the right of an integer column, every read misses: the radiance is NaN. */
  lemma RadianceAtHalfIsNaN(img: Hdri, x: int, y: int)
    ensures Radiance(img, x as real + 0.5, y as real) == NaN
  {
    var n := y * img.width + x;
    IntIndex(img, x, y);
    var k := Index(img, x as real + 0.5, y as real);
    assert k == (3 * n) as real + 1.5;
    if IsInt(k) {
      assert false;
    }
  }

  // ---- The summation loops ----

  /** How often `for (v = a; v < b; v++)` runs its body. */
  function Steps(a: real, b: real): (n: nat)
  {
    if b <= a then 0 else -((a - b).Floor)
  }

  /** The loop runs its k-th iteration exactly when k < Steps(a, b). */
  lemma StepsCount(a: real, b: real, k: nat)
    ensures a + k as real < b <==> k < Steps(a, b)
  {
  }

  /** An integer bound starting from 0: the loop runs `b` times. */
  lemma StepsFromZero(b: nat)
    ensures Steps(0.0, b as real) == b
  {
  }

  /** The j-th value the inner loop adds: the radiance at (x, y0 + j). */
  function At(img: Hdri, x: real, y0: real, j: nat): Num {
    Radiance(img, x, y0 + j as real)
  }

  /** The sample at column i, row j of the grid starting at (x0, y0). */
  function Grid(img: Hdri, x0: real, i: nat, y0: real, j: nat): Num {
    Radiance(img, x0 + i as real, y0 + j as real)
  }

  /** The inner loop: `acc` plus the radiance at (x, y0), (x, y0 + 1), ..., n values, added in that order. */
  function Column(img: Hdri, acc: Num, x: real, y0: real, n: nat): Num {
    if n == 0 then acc else Add(Column(img, acc, x, y0, n - 1), At(img, x, y0, n - 1))
  }

  /** Both loops: columns x0, x0 + 1, ... (nx of them), each of ny values, summed from 0. */
  function RectSum(img: Hdri, x0: real, nx: nat, y0: real, ny: nat): Num {
    if nx == 0 then Val(0.0) else Column(img, RectSum(img, x0, nx - 1, y0, ny), x0 + (nx - 1) as real, y0, ny)
  }

  /** A column sum is a number exactly when its start is one and every value it adds is. */
  lemma {:induction false} ColumnDefined(img: Hdri, acc: Num, x: real, y0: real, n: nat)
    ensures Column(img, acc, x, y0, n).Val? <==> acc.Val? && forall j :: 0 <= j < n ==> At(img, x, y0, j).Val?
  {
    if n > 0 {
      ColumnDefined(img, acc, x, y0, n - 1);
    }
  }

  /** Every sample of the grid of nx columns and ny rows from (x0, y0) is defined. */
  predicate AllDefined(img: Hdri, x0: real, nx: nat, y0: real, ny: nat) {
    forall i, j :: 0 <= i < nx && 0 <= j < ny ==> Grid(img, x0, i, y0, j).Val?
  }

  /** A rectangle's sum is a number exactly when the radiance is defined at every sample. */
  lemma {:induction false} RectSumDefined(img: Hdri, x0: real, nx: nat, y0: real, ny: nat)
    ensures RectSum(img, x0, nx, y0, ny).Val? <==> AllDefined(img, x0, nx, y0, ny)
  {
    if nx > 0 {
      var x := x0 + (nx - 1) as real;
      var rest := RectSum(img, x0, nx - 1, y0, ny);
      RectSumDefined(img, x0, nx - 1, y0, ny);
      ColumnDefined(img, rest, x, y0, ny);
      assert forall j :: 0 <= j < ny ==> At(img, x, y0, j) == Grid(img, x0, nx - 1, y0, j);
      if RectSum(img, x0, nx, y0, ny).Val? {
        forall i, j | 0 <= i < nx && 0 <= j < ny
          ensures Grid(img, x0, i, y0, j).Val?
        {
          if i == nx - 1 {
            assert At(img, x, y0, j).Val?;
          }
        }
      } else if rest.Val? {
        var j :| 0 <= j < ny && !At(img, x, y0, j).Val?;
        assert !Grid(img, x0, nx - 1, y0, j).Val?;
      } else {
        var i, j :| 0 <= i < nx - 1 && 0 <= j < ny && !Grid(img, x0, i, y0, j).Val?;
        assert !AllDefined(img, x0, nx, y0, ny);
      }
    }
  }

  // ---- The bisection ----

  /** A bin: the half-open rectangle [ax, bx) x [ay, by) of processBins, here [x0, x1) x [y0, y1). */
  datatype Bin = Bin(x0: real, y0: real, x1: real, y1: real)

  predicate Contains(b: Bin, px: real, py: real) {
    b.x0 <= px < b.x1 && b.y0 <= py < b.y1
  }

  /** processBins stops at a rectangle of radiance below 80000, of area below 1, or past depth 32. */
  predicate IsLeaf(b: Bin, radiance: Num, depth: nat) {
    Less(radiance, 80000.0) || Width(b) * Height(b) < 1.0 || depth > 32
  }

  function Width(b: Bin): real {
    b.x1 - b.x0
  }

  function Height(b: Bin): real {
    b.y1 - b.y0
  }

  /** A wider-than-tall rectangle is split at ax + w/2, any other one at ay + h/2 (ties split in y). */
  predicate SplitsX(b: Bin) {
    Width(b) > Height(b)
  }

  function First(b: Bin): Bin {
    if SplitsX(b) then Bin(b.x0, b.y0, b.x0 + Width(b) * 0.5, b.y1)
    else Bin(b.x0, b.y0, b.x1, b.y0 + Height(b) * 0.5)
  }

  function Second(b: Bin): Bin {
    if SplitsX(b) then Bin(b.x0 + Width(b) * 0.5, b.y0, b.x1, b.y1)
    else Bin(b.x0, b.y0 + Height(b) * 0.5, b.x1, b.y1)
  }

  /** The radiance of a bin as processBins' loops sum it, from (ax, ay) in unit steps. */
  function BinSum(img: Hdri, b: Bin): Num {
    RectSum(img, b.x0, Steps(b.x0, b.x1), b.y0, Steps(b.y0, b.y1))
  }

  /**
   * The bins processBins appends, in order: the rectangle itself at a leaf, otherwise the bins
   * of the first half (with its own summed radiance) followed by those of the second half (with
   * the parent's radiance minus the first half's).
   */
  function Tiles(img: Hdri, b: Bin, radiance: Num, depth: nat): (r: seq<Bin>)
    ensures 1 <= |r| && (depth <= 33 ==> |r| <= IPow2(33 - depth))
    ensures r[0].x0 == b.x0 && r[0].y0 == b.y0 && r[|r| - 1].x1 == b.x1 && r[|r| - 1].y1 == b.y1
    decreases 33 - depth
  {
    if IsLeaf(b, radiance, depth) then [b]
    else
      var part := BinSum(img, First(b));
      Tiles(img, First(b), part, depth + 1) + Tiles(img, Second(b), Sub(radiance, part), depth + 1)
  }

  /** A rectangle is a bin of its own exactly when the leaf rule holds for it. */
  lemma LeafIff(img: Hdri, b: Bin, radiance: Num, depth: nat)
    ensures Tiles(img, b, radiance, depth) == [b] <==> IsLeaf(b, radiance, depth)
  {
    if !IsLeaf(b, radiance, depth) {
      var part := BinSum(img, First(b));
      assert |Tiles(img, First(b), part, depth + 1)| >= 1;
    }
  }

  /** Every point of a bin lies in the rectangle it came from. */
  lemma {:induction false} TilesInside(img: Hdri, b: Bin, radiance: Num, depth: nat, px: real, py: real)
    ensures forall i :: 0 <= i < |Tiles(img, b, radiance, depth)| && Contains(Tiles(img, b, radiance, depth)[i], px, py) ==>
      Contains(b, px, py)
    decreases 33 - depth
  {
    if !IsLeaf(b, radiance, depth) {
      var part := BinSum(img, First(b));
      TilesInside(img, First(b), part, depth + 1, px, py);
      TilesInside(img, Second(b), Sub(radiance, part), depth + 1, px, py);
    }
  }

  /** Every point of the rectangle lies in some bin. */
  lemma {:induction false} TilesCover(img: Hdri, b: Bin, radiance: Num, depth: nat, px: real, py: real)
    requires Contains(b, px, py)
    ensures exists i :: 0 <= i < |Tiles(img, b, radiance, depth)| && Contains(Tiles(img, b, radiance, depth)[i], px, py)
    decreases 33 - depth
  {
    var t := Tiles(img, b, radiance, depth);
    if IsLeaf(b, radiance, depth) {
      assert Contains(t[0], px, py);
    } else {
      var part := BinSum(img, First(b));
      var t1 := Tiles(img, First(b), part, depth + 1);
      var t2 := Tiles(img, Second(b), Sub(radiance, part), depth + 1);
      assert t == t1 + t2;
      if Contains(First(b), px, py) {
        TilesCover(img, First(b), part, depth + 1, px, py);
        var i :| 0 <= i < |t1| && Contains(t1[i], px, py);
        assert t[i] == t1[i];
      } else {
        TilesCover(img, Second(b), Sub(radiance, part), depth + 1, px, py);
        var i :| 0 <= i < |t2| && Contains(t2[i], px, py);
        assert t[|t1| + i] == t2[i];
      }
    }
  }

  /** The two halves of a split do not overlap. */
  lemma HalvesDisjoint(b: Bin, px: real, py: real)
    ensures !(Contains(First(b), px, py) && Contains(Second(b), px, py))
  {
  }

  /** At most one of the bins contains the point (px, py). */
  predicate Apart(t: seq<Bin>, px: real, py: real) {
    forall i, j :: 0 <= i < j < |t| && Contains(t[i], px, py) ==> !Contains(t[j], px, py)
  }

  /** Two runs of bins, each apart and each inside one of two disjoint rectangles, are apart together. */
  lemma ConcatApart(t1: seq<Bin>, t2: seq<Bin>, b1: Bin, b2: Bin, px: real, py: real)
    requires Apart(t1, px, py) && Apart(t2, px, py) && !(Contains(b1, px, py) && Contains(b2, px, py))
    requires forall i :: 0 <= i < |t1| && Contains(t1[i], px, py) ==> Contains(b1, px, py)
    requires forall i :: 0 <= i < |t2| && Contains(t2[i], px, py) ==> Contains(b2, px, py)
    ensures Apart(t1 + t2, px, py)
  {
    var t := t1 + t2;
    forall i, j | 0 <= i < j < |t| && Contains(t[i], px, py)
      ensures !Contains(t[j], px, py)
    {
      if j < |t1| {
        assert t[i] == t1[i] && t[j] == t1[j];
      } else if i < |t1| {
        assert t[i] == t1[i] && t[j] == t2[j - |t1|];
      } else {
        assert t[i] == t2[i - |t1|] && t[j] == t2[j - |t1|];
      }
    }
  }

  /** No point lies in two bins: the bins do not overlap. */
  lemma {:induction false} TilesDisjoint(img: Hdri, b: Bin, radiance: Num, depth: nat, px: real, py: real)
    ensures Apart(Tiles(img, b, radiance, depth), px, py)
    decreases 33 - depth
  {
    if !IsLeaf(b, radiance, depth) {
      var part := BinSum(img, First(b));
      var t1 := Tiles(img, First(b), part, depth + 1);
      var t2 := Tiles(img, Second(b), Sub(radiance, part), depth + 1);
      TilesDisjoint(img, First(b), part, depth + 1, px, py);
      TilesDisjoint(img, Second(b), Sub(radiance, part), depth + 1, px, py);
      TilesInside(img, First(b), part, depth + 1, px, py);
      TilesInside(img, Second(b), Sub(radiance, part), depth + 1, px, py);
      HalvesDisjoint(b, px, py);
      ConcatApart(t1, t2, First(b), Second(b), px, py);
    }
  }

  /** The whole image of width * height pixels, as handleHDRI sums it, has a defined total radiance. */
  lemma WholeImageDefined(pixels: seq<real>, w: nat, h: nat)
    requires |pixels| == 3 * (w * h)
    ensures BinSum(Hdri(pixels, w), Bin(0.0, 0.0, w as real, h as real)).Val?
  {
    var img := Hdri(pixels, w);
    StepsFromZero(w);
    StepsFromZero(h);
    assert AllDefined(img, 0.0, w, 0.0, h) by {
      forall i, j | 0 <= i < w && 0 <= j < h
        ensures Grid(img, 0.0, i, 0.0, j).Val?
      {
        RadianceDefined(img, h, i, j);
      }
    }
    RectSumDefined(img, 0.0, w, 0.0, h);
  }

  /** The four numbers per bin that processBins pushes. */
  function Flatten(bs: seq<Bin>): (r: seq<real>)
    ensures |r| == 4 * |bs|
  {
    if |bs| == 0 then [] else [bs[0].x0, bs[0].y0, bs[0].x1, bs[0].y1] + Flatten(bs[1..])
  }

  /** Bins i occupies positions 4i .. 4i + 3, in the order ax, ay, bx, by. */
  lemma {:induction false} FlattenAt(bs: seq<Bin>, i: nat)
    requires i < |bs|
    ensures var r := Flatten(bs);
      r[4 * i] == bs[i].x0 && r[4 * i + 1] == bs[i].y0 && r[4 * i + 2] == bs[i].x1 && r[4 * i + 3] == bs[i].y1
  {
    if i > 0 {
      FlattenAt(bs[1..], i - 1);
    }
  }

  lemma {:induction false} FlattenAppend(a: seq<Bin>, b: seq<Bin>)
    ensures Flatten(a + b) == Flatten(a) + Flatten(b)
  {
    if |a| > 0 {
      assert (a + b)[0] == a[0] && (a + b)[1..] == a[1..] + b;
      FlattenAppend(a[1..], b);
    } else {
      assert a + b == b;
    }
  }

  /** Appending the bins of t1 and then those of t2 appends the bins of t1 + t2. */
  lemma FlattenAfter(s: seq<real>, t1: seq<Bin>, t2: seq<Bin>)
    ensures s + Flatten(t1) + Flatten(t2) == s + Flatten(t1 + t2)
  {
    FlattenAppend(t1, t2);
  }

  /** The globals hdriData, hdriWidth, hdriHeight and bins of gltfLoader.js. */
  class EnvMap {
    var data: seq<real>
    var width: int
    var height: int
    var bins: seq<real>

    /** bins always holds whole rectangles. */
    predicate Valid()
      reads this
    {
      |bins| % 4 == 0
    }

    function Image(): Hdri
      reads this
    {
      Hdri(data, width)
    }

    constructor()
      ensures Valid() && bins == [] && data == [] && width == 0 && height == 0
    {
      data, width, height, bins := [], 0, 0, [];
    }

    /** The nested loops of processBins and handleHDRI: x outer, y inner, both stepping by one. */
    method RadianceSum(x0: real, y0: real, x1: real, y1: real) returns (s: Num)
      ensures s == BinSum(Image(), Bin(x0, y0, x1, y1))
    {
      ghost var img, nx, ny := Image(), Steps(x0, x1), Steps(y0, y1);
      s := Val(0.0);
      var x := x0;
      ghost var i: nat := 0;
      while x < x1
        invariant i <= nx && x == x0 + i as real && s == RectSum(img, x0, i, y0, ny)
        decreases nx - i
      {
        StepsCount(x0, x1, i);
        ghost var start := s;
        var y := y0;
        ghost var j: nat := 0;
        while y < y1
          invariant j <= ny && y == y0 + j as real && s == Column(img, start, x, y0, j)
          decreases ny - j
        {
          StepsCount(y0, y1, j);
          s := Add(s, Radiance(Image(), x, y));  // getRadiance(x, y)
          y := y + 1.0;
          j := j + 1;
        }
        StepsCount(y0, y1, j);
        x := x + 1.0;
        i := i + 1;
      }
      StepsCount(x0, x1, i);
    }

    /** processBins: appends the bins of rectangle (ax, ay, bx, by) and changes nothing else. */
    method ProcessBins(x0: real, y0: real, x1: real, y1: real, oldRadiance: Num, depth: nat)
      requires Valid()
      modifies this
      ensures Valid() && data == old(data) && width == old(width) && height == old(height)
      ensures bins == old(bins) + Flatten(Tiles(Image(), Bin(x0, y0, x1, y1), oldRadiance, depth))
      decreases 33 - depth
    {
      ghost var img := Image();
      var b := Bin(x0, y0, x1, y1);
      var w := Width(b);
      var h := Height(b);
      // oldRadiance < 80000 || w * h < 1 || depth > 32
      if IsLeaf(b, oldRadiance, depth) {
        assert Tiles(img, b, oldRadiance, depth) == [b];
        bins := bins + [x0, y0, x1, y1];
        assert Flatten([b]) == [x0, y0, x1, y1] by {
          assert [b][1..] == [];
        }
        return;
      }
      var temp := w > h;
      var xsplit := if temp then x0 + w * 0.5 else x1;
      var ysplit := if temp then y1 else y0 + h * 0.5;
      var newRadiance := RadianceSum(x0, y0, xsplit, ysplit);
      assert First(b) == Bin(x0, y0, xsplit, ysplit);
      ghost var t1 := Tiles(img, First(b), newRadiance, depth + 1);
      ghost var t2 := Tiles(img, Second(b), Sub(oldRadiance, newRadiance), depth + 1);
      assert Tiles(img, b, oldRadiance, depth) == t1 + t2;
      ghost var start := bins;
      ProcessBins(x0, y0, xsplit, ysplit, newRadiance, depth + 1);
      ghost var mid := bins;
      if temp {
        assert Second(b) == Bin(xsplit, y0, x1, y1);
        ProcessBins(xsplit, y0, x1, y1, Sub(oldRadiance, newRadiance), depth + 1);
      } else {
        assert Second(b) == Bin(x0, ysplit, x1, y1);
        ProcessBins(x0, ysplit, x1, y1, Sub(oldRadiance, newRadiance), depth + 1);
      }
      assert bins == mid + Flatten(t2) && mid == start + Flatten(t1);
      FlattenAfter(start, t1, t2);
      assert Image() == img;
    }

    /**
     * handleHDRI: unless only the bins are redone, stores the image, sums its radiance over
     * every pixel and bins the whole image from depth 0. `bins` is never cleared, so the new
     * bins follow those of any earlier image.
     */
    method HandleHdri(w: int, h: int, pixels: seq<real>, redoBins: bool)
      requires Valid()
      modifies this
      ensures Valid()
      ensures redoBins ==> data == old(data) && width == old(width) && height == old(height) && bins == old(bins)
      ensures !redoBins ==> (
        var img, whole := Hdri(pixels, w), Bin(0.0, 0.0, w as real, h as real);
        data == pixels && width == w && height == h && bins == old(bins) + Flatten(Tiles(img, whole, BinSum(img, whole), 0)))
    {
      if !redoBins {
        data, width, height := pixels, w, h;
        var radiance := RadianceSum(0.0, 0.0, w as real, h as real);
        ProcessBins(0.0, 0.0, w as real, h as real, radiance, 0);
      }
    }
  }
}
