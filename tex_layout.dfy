/**
 * The upload layout of passTextures in compile.js: triangles, nodes and node bounds are
 * written into flat typed arrays that become 2D textures. A texture w texels wide with e
 * components per texel keeps component c of texel (col, row) at index (row * w + col) * e + c.
 *
 * Every array is filled one texel at a time, each texel written once; the proofs rank the
 * texels in writing order and show that each layout sends distinct items to distinct texels.
 */
module TexLayout {
  import opened Geometry
  import opened Bounds
  import opened BvhTree

  /** maxSize: the largest texture height used. */
  const MaxSize: nat := 4096 * 2

  /** triMaxSize: the largest multiple of 3 not above maxSize, 8190. */
  const TriMaxSize: nat := MaxSize / 3 * 3

  function MinNat(a: nat, b: nat): nat {
    if a < b then a else b
  }

  /** `Math.ceil(a / b)` for a non-negative a. */
  function CeilDiv(a: nat, b: nat): nat
    requires b > 0
  {
    (a + b - 1) / b
  }

  // ---- Arithmetic ----

  /** A positive multiple of b is at least b. */
  lemma {:induction false} MulAtLeast(d: nat, b: nat)
    requires d >= 1
    ensures d * b >= b
  {
    if d > 1 {
      MulAtLeast(d - 1, b);
      assert d * b == (d - 1) * b + b;
    }
  }

  /** A product of non-negative numbers is non-negative. */
  lemma MulNat(a: nat, b: nat)
    ensures a * b >= 0
  {
    if a >= 1 {
      MulAtLeast(a, b);
    }
  }

  /** A non-zero multiple of b is at least b away from 0. */
  lemma MulAway(d: int, b: int)
    requires b > 0 && d != 0
    ensures d * b >= b || d * b <= -b
  {
    if d > 0 {
      MulAtLeast(d, b);
    } else {
      MulAtLeast(-d, b);
      assert d * b == -((-d) * b);
    }
  }

  /** Division with remainder is unique. */
  lemma DivMod(a: int, b: int, q: int, r: int)
    requires b > 0 && 0 <= r < b && a == q * b + r
    ensures a / b == q && a % b == r
  {
    var d := q - a / b;
    assert d * b == q * b - (a / b) * b;
    assert d * b == a % b - r;
    if d != 0 {
      MulAway(d, b);
    }
  }

  /** The quotient and remainder of a non-negative a by b rebuild a. */
  lemma Euclid(a: nat, b: nat)
    requires b > 0
    ensures a == (a / b) * b + a % b && 0 <= a / b && 0 <= a % b < b
  {
    DivMod(0, b, 0, 0);
    DivMono(0, a, b);
  }

  lemma DivMono(a: nat, b: nat, c: nat)
    requires a <= b && c > 0
    ensures a / c <= b / c
  {
    var d := a / c - b / c;
    assert d * c == (a / c) * c - (b / c) * c;
    assert d * c == a - a % c - b + b % c;
    if d > 0 {
      MulAway(d, c);
    }
  }

  /** Texel (col, row) of a texture w texels wide is texel number row * w + col, and back. */
  lemma TexelDecode(w: nat, col: nat, row: nat)
    requires col < w
    ensures (row * w + col) / w == row && (row * w + col) % w == col
  {
    DivMod(row * w + col, w, row, col);
  }

  /** A texel number below h * w has a row below h. */
  lemma TexelRow(w: nat, h: nat, t: nat)
    requires 0 < w && t < h * w
    ensures 0 <= t / w < h
  {
    DivMod(0, w, 0, 0);
    DivMono(0, t, w);
    DivMono(t, h * w - 1, w);
    DivMod(h * w - 1, w, h - 1, w - 1);
  }

  /** The texel number of a texel inside an h-row, w-wide texture lies below h * w. */
  lemma TexelInside(w: nat, h: nat, col: nat, row: nat)
    requires col < w && row < h
    ensures row * w + col < h * w
  {
    MulAtLeast(h - row, w);
    assert h * w == row * w + (h - row) * w;
  }

  /** Index k of an array with e components per texel belongs to texel k / e. */
  lemma ComponentOf(e: nat, t: nat, k: nat)
    requires e > 0
    ensures e * t <= k < e * t + e <==> k / e == t
    ensures k / e == t ==> k % e == k - e * t
  {
    DivMod(k, e, k / e, k % e);
    if e * t <= k < e * t + e {
      DivMod(k, e, t, k - e * t);
    }
  }

  // ---- Filling an array texel by texel ----

  /** `typedArray.set(vals, offset)`: vals replace the entries from offset on, nothing else changes. */
  method Set<T>(data: array<T>, vals: seq<T>, offset: nat)
    requires offset + |vals| <= data.Length
    modifies data
    ensures forall k :: 0 <= k < data.Length ==>
      data[k] == if offset <= k < offset + |vals| then vals[k - offset] else old(data[k])
  {
    for m := 0 to |vals|
      invariant forall k :: 0 <= k < data.Length ==>
        data[k] == if offset <= k < offset + m then vals[k - offset] else old(data[k])
    {
      data[offset + m] := vals[m];
    }
  }

  /**
   * The texels ranked below `written` hold their values, every other entry still holds the
   * initial zero.
   */
  ghost predicate Written<T>(data: array<T>, e: nat, rank: nat -> int, value: nat -> seq<T>, zero: T, written: int)
    requires e > 0
    reads data
  {
    forall k :: 0 <= k < data.Length ==>
      data[k] == if rank(k / e) < written && k % e < |value(k / e)| then value(k / e)[k % e] else zero
  }

  /** Writes the texel ranked `written`, the only texel of that rank. */
  method SetTexel<T>(data: array<T>, e: nat, count: nat, t0: nat, vals: seq<T>, offset: int, ghost rank: nat -> int,
                     ghost value: nat -> seq<T>, ghost zero: T, ghost written: int)
    requires e > 0 && data.Length == e * count && t0 < count && offset == e * t0
    requires vals == value(t0) && |vals| == e && rank(t0) == written
    requires forall t :: 0 <= t < count && t != t0 ==> rank(t) != written
    requires Written(data, e, rank, value, zero, written)
    modifies data
    ensures Written(data, e, rank, value, zero, written + 1)
  {
    assert e * t0 + e <= e * count by {
      MulAtLeast(count - t0, e);
      assert e * count == e * t0 + (count - t0) * e;
    }
    Set(data, vals, offset);
    forall k | 0 <= k < data.Length
      ensures data[k] == if rank(k / e) < written + 1 && k % e < |value(k / e)| then value(k / e)[k % e] else zero
    {
      ComponentOf(e, t0, k);
      TexelRow(e, count, k);
      DivMod(k, e, k / e, k % e);
    }
  }

  // ---- Triangles ----

  /** triTexHeight: three rows per triangle, at most triMaxSize. */
  function TriTexHeight(n: nat): nat {
    MinNat(n * 3, TriMaxSize)
  }

  /** triTexWidth in texels: four per vertex, times the number of row blocks. */
  function TriTexWidth(n: nat): nat {
    4 * CeilDiv(n * 3, TriMaxSize)
  }

  /** uTriMax: triangles per column block. */
  function TriMax(n: nat): nat {
    TriTexHeight(n) / 3
  }

  /** The four floats of slot s of vertex j: [pos, material], [uv, -1, material], [normal, material], [tangent]. */
  function SlotValues(t: Triangle, j: nat, s: nat): (r: seq<real>)
    requires j < 3
    ensures |r| == 4
  {
    var v := t.Vert(j);
    var m := t.material as real;
    if s == 0 then [v.pos.x, v.pos.y, v.pos.z, m]
    else if s == 1 then [v.u, v.v, -1.0, m]
    else if s == 2 then [v.normal.x, v.normal.y, v.normal.z, m]
    else [v.tangent.x, v.tangent.y, v.tangent.z, v.tangent.w]
  }

  /** A slot of the triangle texture: triangle i, vertex j, slot s. */
  datatype Slot = Slot(i: nat, j: nat, s: nat)

  /**
   * The slot texel t holds in a triangle texture w texels wide with m triangles per column
   * block: the inverse of the placement.
   */
  function TriSlotAt(w: nat, m: nat, t: nat): (r: Slot)
    ensures r.j < 3 && r.s < 4
  {
    if w == 0 || m == 0 then Slot(0, 0, 0)
    else
      Euclid(t, w);
      var row, col := t / w, t % w;
      MulNat(col / 4, m);
      Slot((col / 4) * m + row / 3, row % 3, col % 4)
  }

  /** The writing order of passTextures: triangle by triangle, vertex by vertex, slot by slot. */
  function TriRank(w: nat, m: nat, t: nat): int {
    var sl := TriSlotAt(w, m, t);
    12 * sl.i + 4 * sl.j + sl.s
  }

  /** What texel t of the triangle texture holds: its slot's values, zeros past the last triangle. */
  function TriTexel(tris: seq<Triangle>, w: nat, m: nat, t: nat): (r: seq<real>)
    ensures |r| == 4
  {
    var sl := TriSlotAt(w, m, t);
    if sl.i < |tris| then SlotValues(tris[sl.i], sl.j, sl.s) else [0.0, 0.0, 0.0, 0.0]
  }

  /**
   * The shape of the triangle texture: a multiple of 3 rows, at most 8190, four texels per
   * column block, and enough blocks for every triangle.
   */
  lemma TriDims(n: nat)
    requires n > 0
    ensures TriMaxSize == 8190
    ensures TriTexHeight(n) == 3 * TriMax(n) && 1 <= TriMax(n) <= 2730
    ensures TriTexWidth(n) >= 4 && TriTexWidth(n) % 4 == 0
    ensures forall i :: 0 <= i < n ==> i / TriMax(n) < TriTexWidth(n) / 4
  {
    assert TriMaxSize == 8190;
    var m := TriMax(n);
    var blocks := (n * 3 + 8189) / 8190;
    assert TriTexWidth(n) == 4 * blocks;
    assert m == if n <= 2730 then n else 2730;
    assert blocks >= 1;
    forall i | 0 <= i < n
      ensures i / m < blocks
    {
      if n <= 2730 {
        DivMod(i, m, 0, i);
      } else {
        assert i / 2730 <= (n - 1) / 2730;
        assert (n - 1) / 2730 < blocks;
      }
    }
  }

  /**
   * The texel passTextures writes slot s of vertex j of triangle i to, in a texture w texels
   * wide and h rows high: column floor(16 floor(3i / h) / 4) + s, row (3i mod h) + j.
   */
  function TriWriteTexel(w: nat, h: nat, i: nat, j: nat, s: nat): nat
    requires h > 0
  {
    ((3 * i) % h + j) * w + (16 * ((3 * i) / h)) / 4 + s
  }

  /** The float offset passTextures hands to `set` for slot s: x + 4s + (y + j) * triTempWidth. */
  function TriWriteOffset(w: nat, h: nat, i: nat, j: nat, s: nat): nat
    requires h > 0
  {
    4 * 4 * ((i * 3) / h) + 4 * s + ((i * 3) % h + j) * (w * 4)
  }

  /** With h = 3m, floor(3i / h) is floor(i / m) and 3i mod h is 3 (i mod m). */
  lemma TriWriteForm(m: nat, i: nat)
    requires m > 0
    ensures (3 * i) / (3 * m) == i / m && (3 * i) % (3 * m) == 3 * (i % m)
  {
    DivMod(i, m, i / m, i % m);
    DivMod(3 * i, 3 * m, i / m, 3 * (i % m));
  }

  /** The offset handed to `set` is the first float of the slot's texel. */
  lemma TriOffsetIsTexel(w: nat, h: nat, i: nat, j: nat, s: nat)
    requires h > 0
    ensures TriWriteOffset(w, h, i, j, s) == 4 * TriWriteTexel(w, h, i, j, s)
  {
    var y := (3 * i) % h + j;
    assert y * (w * 4) == 4 * (y * w);
    assert (16 * ((3 * i) / h)) / 4 == 4 * ((3 * i) / h);
  }

  /**
   * Every slot of a triangle whose column block exists lands inside the texture, and the
   * texel it lands on holds that slot.
   */
  lemma TriPlacement(w: nat, m: nat, i: nat, j: nat, s: nat)
    requires m > 0 && w % 4 == 0 && i / m < w / 4 && j < 3 && s < 4
    ensures TriWriteTexel(w, 3 * m, i, j, s) < 3 * m * w
    ensures TriSlotAt(w, m, TriWriteTexel(w, 3 * m, i, j, s)) == Slot(i, j, s)
  {
    TriWriteForm(m, i);
    Euclid(i, m);
    var row, col := 3 * (i % m) + j, 4 * (i / m) + s;
    assert TriWriteTexel(w, 3 * m, i, j, s) == row * w + col;
    TexelInside(w, 3 * m, col, row);
    TexelDecode(w, col, row);
    DivMod(row, 3, i % m, j);
    DivMod(col, 4, i / m, s);
  }

  /** Every texel of the texture is the placement of the slot it holds. */
  lemma TriSlotPlaced(w: nat, m: nat, t: nat)
    requires m > 0 && w > 0 && t < 3 * m * w
    ensures var sl := TriSlotAt(w, m, t); TriWriteTexel(w, 3 * m, sl.i, sl.j, sl.s) == t
  {
    var row, col := t / w, t % w;
    TexelRow(w, 3 * m, t);
    Euclid(t, w);
    var q, r := col / 4, row / 3;
    assert TriSlotAt(w, m, t) == Slot(q * m + r, row % 3, col % 4);
    TexelRow(3, m, row);
    var i := q * m + r;
    DivMod(i, m, q, r);
    TriWriteForm(m, i);
    assert (16 * q) / 4 == 4 * q;
  }

  /** Distinct texels hold distinct slots, so they have distinct ranks. */
  lemma TriRankInjective(w: nat, m: nat, t1: nat, t2: nat)
    requires m > 0 && w > 0 && t1 < 3 * m * w && t2 < 3 * m * w
    requires TriRank(w, m, t1) == TriRank(w, m, t2)
    ensures t1 == t2
  {
    var a, b := TriSlotAt(w, m, t1), TriSlotAt(w, m, t2);
    DivMod(TriRank(w, m, t1), 4, 3 * a.i + a.j, a.s);
    DivMod(TriRank(w, m, t2), 4, 3 * b.i + b.j, b.s);
    DivMod(3 * a.i + a.j, 3, a.i, a.j);
    DivMod(3 * b.i + b.j, 3, b.i, b.j);
    TriSlotPlaced(w, m, t1);
    TriSlotPlaced(w, m, t2);
  }

  /**
   * For n triangles, distinct (triangle, vertex, slot) triples are sent to disjoint four-float
   * ranges, all inside the texture.
   */
  lemma TriSlotsDisjoint(n: nat, i1: nat, j1: nat, s1: nat, i2: nat, j2: nat, s2: nat)
    requires i1 < n && j1 < 3 && s1 < 4 && i2 < n && j2 < 3 && s2 < 4
    requires (i1, j1, s1) != (i2, j2, s2)
    ensures var w, h := TriTexWidth(n), TriTexHeight(n);
      TriWriteOffset(w, h, i1, j1, s1) + 4 <= h * w * 4 &&
      (TriWriteOffset(w, h, i1, j1, s1) + 4 <= TriWriteOffset(w, h, i2, j2, s2) ||
       TriWriteOffset(w, h, i2, j2, s2) + 4 <= TriWriteOffset(w, h, i1, j1, s1))
  {
    TriDims(n);
    var w, h, m := TriTexWidth(n), TriTexHeight(n), TriMax(n);
    assert h * w == 3 * m * w;
    var t1, t2 := TriWriteTexel(w, h, i1, j1, s1), TriWriteTexel(w, h, i2, j2, s2);
    TriPlacement(w, m, i1, j1, s1);
    TriPlacement(w, m, i2, j2, s2);
    assert t1 != t2 by {
      assert TriSlotAt(w, m, t1) != TriSlotAt(w, m, t2);
    }
    TriOffsetIsTexel(w, h, i1, j1, s1);
    TriOffsetIsTexel(w, h, i2, j2, s2);
  }

  /**
   * One `set` call of the triangle loop, at x + 4s + (y + j) * triTempWidth, with the proof
   * that it keeps the fill invariant.
   */
  method SetSlot(data: array<real>, tris: seq<Triangle>, w: nat, h: nat, m: nat, i: nat, j: nat, s: nat,
                 vals: seq<real>, x: int, y: int, ghost rank: nat -> int, ghost value: nat -> seq<real>)
    requires i < |tris| && j < 3 && s < 4
    requires h == 3 * m && m > 0 && w % 4 == 0 && i / m < w / 4 && data.Length == 4 * (h * w)
    requires x == 4 * 4 * ((i * 3) / h) && y == (i * 3) % h
    requires vals == SlotValues(tris[i], j, s)
    requires forall t :: rank(t) == TriRank(w, m, t)
    requires forall t :: value(t) == TriTexel(tris, w, m, t)
    requires Written(data, 4, rank, value, 0.0, 12 * i + 4 * j + s)
    modifies data
    ensures Written(data, 4, rank, value, 0.0, 12 * i + 4 * j + s + 1)
  {
    var count := h * w;
    var t0 := TriWriteTexel(w, h, i, j, s);
    TriPlacement(w, m, i, j, s);
    TriOffsetIsTexel(w, h, i, j, s);
    forall t | 0 <= t < count && t != t0
      ensures rank(t) != 12 * i + 4 * j + s
    {
      if rank(t) == 12 * i + 4 * j + s {
        TriRankInjective(w, m, t, t0);
      }
    }
    SetTexel(data, 4, count, t0, vals, (x + 4 * s) + (y + j) * (w * 4), rank, value, 0.0, 12 * i + 4 * j + s);
  }

  /** The four `set` calls for vertex j of triangle i: position, uv, normal, tangent. */
  method SetVertex(data: array<real>, tris: seq<Triangle>, w: nat, h: nat, m: nat, i: nat, j: nat,
                   x: int, y: int, ghost rank: nat -> int, ghost value: nat -> seq<real>)
    requires i < |tris| && j < 3
    requires h == 3 * m && m > 0 && w % 4 == 0 && i / m < w / 4 && data.Length == 4 * (h * w)
    requires x == 4 * 4 * ((i * 3) / h) && y == (i * 3) % h
    requires forall t :: rank(t) == TriRank(w, m, t)
    requires forall t :: value(t) == TriTexel(tris, w, m, t)
    requires Written(data, 4, rank, value, 0.0, 12 * i + 4 * j)
    modifies data
    ensures Written(data, 4, rank, value, 0.0, 12 * i + 4 * j + 4)
  {
    var tri := tris[i];
    var v := tri.Vert(j);
    SetSlot(data, tris, w, h, m, i, j, 0, [v.pos.x, v.pos.y, v.pos.z, tri.material as real], x, y, rank, value);
    SetSlot(data, tris, w, h, m, i, j, 1, [v.u, v.v, -1.0, tri.material as real], x, y, rank, value);
    SetSlot(data, tris, w, h, m, i, j, 2, [v.normal.x, v.normal.y, v.normal.z, tri.material as real], x, y, rank, value);
    SetSlot(data, tris, w, h, m, i, j, 3, [v.tangent.x, v.tangent.y, v.tangent.z, v.tangent.w], x, y, rank, value);
  }

  /**
   * The triangle part of passTextures: the texture size, uTriMax, and the texture data, in
   * which every texel holds the slot placed there and every other float is 0.
   */
  method PassTriangles(tris: seq<Triangle>) returns (data: array<real>, texWidth: nat, texHeight: nat, triMax: nat)
    ensures texHeight == TriTexHeight(|tris|) && texWidth == TriTexWidth(|tris|) && triMax == TriMax(|tris|)
    ensures fresh(data) && data.Length == texHeight * texWidth * 4
    ensures forall k :: 0 <= k < data.Length ==> data[k] == TriTexel(tris, texWidth, triMax, k / 4)[k % 4]
  {
    var n := |tris|;
    var triTexHeight := MinNat(n * 3, TriMaxSize);
    var triTexWidth := 4 * CeilDiv(n * 3, TriMaxSize);
    var triTempWidth := triTexWidth * 4;
    triMax := triTexHeight / 3;
    texWidth, texHeight := triTexWidth, triTexHeight;
    data := new real[triTexHeight * triTempWidth](_ => 0.0);
    if n == 0 {
      return;
    }
    TriDims(n);
    assert triTexHeight * triTempWidth == 4 * (triTexHeight * triTexWidth);
    ghost var rank: nat -> int := (t: nat) => TriRank(triTexWidth, triMax, t);
    ghost var value: nat -> seq<real> := (t: nat) => TriTexel(tris, triTexWidth, triMax, t);
    for i := 0 to n
      invariant Written(data, 4, rank, value, 0.0, 12 * i)
    {
      var x := 4 * 4 * ((i * 3) / triTexHeight);
      var y := (i * 3) % triTexHeight;
      for j := 0 to 3
        invariant Written(data, 4, rank, value, 0.0, 12 * i + 4 * j)
      {
        SetVertex(data, tris, triTexWidth, triTexHeight, triMax, i, j, x, y, rank, value);
      }
    }
    forall k | 0 <= k < data.Length
      ensures data[k] == TriTexel(tris, texWidth, triMax, k / 4)[k % 4]
    {
      var sl := TriSlotAt(texWidth, triMax, k / 4);
      assert rank(k / 4) < 12 * n <==> sl.i < n;
    }
  }

  // ---- Nodes and their bounds ----

  /** nodeTexHeight: one row per node, at most maxSize. */
  function NodeTexHeight(n: nat): nat {
    MinNat(n, MaxSize)
  }

  /** nodeTexWidth: the number of node columns. */
  function NodeTexWidth(n: nat): nat {
    CeilDiv(n, MaxSize)
  }

  /** The shape of the node texture: at most 8192 rows and enough columns for every node. */
  lemma NodeDims(n: nat)
    requires n > 0
    ensures 1 <= NodeTexHeight(n) <= 8192 && NodeTexWidth(n) >= 1
    ensures forall i :: 0 <= i < n ==> i / NodeTexHeight(n) < NodeTexWidth(n)
  {
    assert MaxSize == 8192;
    var h := NodeTexHeight(n);
    var cols := (n + 8191) / 8192;
    assert NodeTexWidth(n) == cols && cols >= 1;
    forall i | 0 <= i < n
      ensures i / h < cols
    {
      if n <= 8192 {
        DivMod(i, h, 0, i);
      } else {
        assert i / 8192 <= (n - 1) / 8192;
      }
    }
  }

  /** `new Uint32Array(...).set`: a number is stored modulo 2^32. */
  function U32(x: int): (r: nat)
    ensures r < 0x1_0000_0000
    ensures 0 <= x < 0x1_0000_0000 ==> r == x
  {
    x % 0x1_0000_0000
  }

  /**
   * Node textures are column-major: node i sits in row i mod h of column block floor(i / h), and
   * a block is b texels wide (1 for the node texture, 2 for the bounds texture). Texel c of the
   * block of node i, in a texture wb texels wide, is this texel number.
   */
  function BlockTexel(wb: nat, h: nat, b: nat, i: nat, c: nat): nat
    requires h > 0
  {
    (i % h) * wb + b * (i / h) + c
  }

  /** A texel of a node texture: node i, texel c of its block. */
  datatype Entry = Entry(i: nat, c: nat)

  /** The node and block texel that texel t holds: the inverse of BlockTexel. */
  function BlockEntryAt(wb: nat, h: nat, b: nat, t: nat): (r: Entry)
  {
    if wb == 0 || b == 0 then Entry(0, 0)
    else
      Euclid(t, wb);
      var row, col := t / wb, t % wb;
      Euclid(col, b);
      MulNat(col / b, h);
      Entry((col / b) * h + row, col % b)
  }

  /** The writing order of passTextures: node by node, the block's texels left to right. */
  function BlockRank(wb: nat, h: nat, b: nat, t: nat): int {
    var en := BlockEntryAt(wb, h, b, t);
    b * en.i + en.c
  }

  /** Every texel of the block of a node whose column exists lands inside the texture and holds that node. */
  lemma BlockPlacement(wb: nat, h: nat, b: nat, i: nat, c: nat)
    requires h > 0 && b > 0 && wb % b == 0 && i / h < wb / b && c < b
    ensures BlockTexel(wb, h, b, i, c) < h * wb
    ensures BlockEntryAt(wb, h, b, BlockTexel(wb, h, b, i, c)) == Entry(i, c)
  {
    Euclid(i, h);
    var row, q := i % h, i / h;
    var col := b * q + c;
    ColumnInside(wb, b, q, c);
    TexelInside(wb, h, col, row);
    BlockDecode(wb, h, b, row, q, c);
  }

  /** Texel c of column block q lies left of the texture's right edge when the block exists. */
  lemma ColumnInside(wb: nat, b: nat, q: nat, c: nat)
    requires b > 0 && wb % b == 0 && q < wb / b && c < b
    ensures b * q + c < wb
  {
    Euclid(wb, b);
    MulAtLeast(wb / b - q, b);
    assert wb == b * q + (wb / b - q) * b;
  }

  /** The texel in row `row`, texel c of column block q, decodes to node q·h + row and texel c. */
  lemma BlockDecode(wb: nat, h: nat, b: nat, row: nat, q: nat, c: nat)
    requires h > 0 && b > 0 && c < b && b * q + c < wb
    ensures BlockEntryAt(wb, h, b, row * wb + (b * q + c)) == Entry(q * h + row, c)
  {
    TexelDecode(wb, b * q + c, row);
    DivMod(b * q + c, b, q, c);
  }

  /** Every texel of the texture is the placement of the entry it holds. */
  lemma BlockEntryPlaced(wb: nat, h: nat, b: nat, t: nat)
    requires h > 0 && b > 0 && wb > 0 && t < h * wb
    ensures var en := BlockEntryAt(wb, h, b, t); en.c < b && BlockTexel(wb, h, b, en.i, en.c) == t
  {
    var row, col := t / wb, t % wb;
    TexelRow(wb, h, t);
    Euclid(t, wb);
    Euclid(col, b);
    var q, c := col / b, col % b;
    var i := q * h + row;
    assert BlockEntryAt(wb, h, b, t) == Entry(i, c);
    DivMod(i, h, q, row);
  }

  /** Distinct texels hold distinct entries, so they have distinct ranks. */
  lemma BlockRankInjective(wb: nat, h: nat, b: nat, t1: nat, t2: nat)
    requires h > 0 && b > 0 && wb > 0 && t1 < h * wb && t2 < h * wb
    requires BlockRank(wb, h, b, t1) == BlockRank(wb, h, b, t2)
    ensures t1 == t2
  {
    var e1, e2 := BlockEntryAt(wb, h, b, t1), BlockEntryAt(wb, h, b, t2);
    BlockEntryPlaced(wb, h, b, t1);
    BlockEntryPlaced(wb, h, b, t2);
    DivMod(BlockRank(wb, h, b, t1), b, e1.i, e1.c);
    DivMod(BlockRank(wb, h, b, t2), b, e2.i, e2.c);
  }

  /** One `set` call of the node loop, with the proof that it keeps the fill invariant. */
  method SetBlock<T>(data: array<T>, e: nat, wb: nat, h: nat, b: nat, i: nat, c: nat, vals: seq<T>, offset: int,
                     ghost rank: nat -> int, ghost value: nat -> seq<T>, ghost zero: T)
    requires h > 0 && b > 0 && e > 0 && wb % b == 0 && i / h < wb / b && c < b
    requires data.Length == e * (h * wb) && offset == e * BlockTexel(wb, h, b, i, c)
    requires vals == value(BlockTexel(wb, h, b, i, c)) && |vals| == e
    requires forall t :: rank(t) == BlockRank(wb, h, b, t)
    requires Written(data, e, rank, value, zero, b * i + c)
    modifies data
    ensures Written(data, e, rank, value, zero, b * i + c + 1)
  {
    var t0 := BlockTexel(wb, h, b, i, c);
    BlockPlacement(wb, h, b, i, c);
    forall t | 0 <= t < h * wb && t != t0
      ensures rank(t) != b * i + c
    {
      if rank(t) == b * i + c {
        BlockRankInjective(wb, h, b, t, t0);
      }
    }
    SetTexel(data, e, h * wb, t0, vals, offset, rank, value, zero, b * i + c);
  }

  /** What texel t of the node texture holds: start, len, childa, childb as uint32, zeros past the last node. */
  function NodeTexel(nodes: seq<Node>, w: nat, h: nat, t: nat): (r: seq<int>)
    ensures |r| == 4
  {
    var en := BlockEntryAt(w, h, 1, t);
    if en.i < |nodes| then
      var nd := nodes[en.i];
      [U32(nd.start), U32(nd.len), U32(nd.childa), U32(nd.childb)]
    else [0, 0, 0, 0]
  }

  /** The corner c of a box: its three minima for c = 0, its three maxima otherwise. */
  function Corner(b: Aabb, c: nat): (r: seq<XReal>)
    ensures |r| == 3
  {
    if c == 0 then [b.s0.lo, b.s1.lo, b.s2.lo] else [b.s0.hi, b.s1.hi, b.s2.hi]
  }

  /** What texel t of the bounds texture holds: a corner of its node's box, zeros past the last node. */
  function BoundsTexel(nodes: seq<Node>, w: nat, h: nat, t: nat): (r: seq<XReal>)
    ensures |r| == 3
  {
    var en := BlockEntryAt(2 * w, h, 2, t);
    if en.i < |nodes| then Corner(nodes[en.i].bounds, en.c) else [Fin(0.0), Fin(0.0), Fin(0.0)]
  }

  /** The offsets passTextures hands to `set` are the first entries of the node's texels. */
  lemma NodeOffsets(w: nat, h: nat, i: nat)
    requires h > 0
    ensures 4 * (i / h) + (i % h) * (w * 4) == 4 * BlockTexel(w, h, 1, i, 0)
    ensures 3 * 2 * (i / h) + (i % h) * (2 * w * 3) == 3 * BlockTexel(2 * w, h, 2, i, 0)
    ensures 3 * 2 * (i / h) + 3 + (i % h) * (2 * w * 3) == 3 * BlockTexel(2 * w, h, 2, i, 1)
  {
    var y := i % h;
    assert y * (w * 4) == 4 * (y * w);
    assert y * (2 * w * 3) == 3 * (y * (2 * w));
  }

  /** The three `set` calls for node i: its links into the node texture, its box into the bounds texture. */
  method SetNode(nodeData: array<int>, boundsData: array<XReal>, nodes: seq<Node>, w: nat, h: nat, i: nat,
                 nodeTempWidth: int, boundsTempWidth: int, ghost nodeRank: nat -> int, ghost nodeValue: nat -> seq<int>,
                 ghost boundsRank: nat -> int, ghost boundsValue: nat -> seq<XReal>)
    requires i < |nodes| && h > 0 && i / h < w
    requires nodeTempWidth == w * 4 && boundsTempWidth == 2 * w * 3
    requires nodeData.Length == 4 * (h * w) && boundsData.Length == 3 * (h * (2 * w))
    requires forall t :: nodeRank(t) == BlockRank(w, h, 1, t)
    requires forall t :: nodeValue(t) == NodeTexel(nodes, w, h, t)
    requires forall t :: boundsRank(t) == BlockRank(2 * w, h, 2, t)
    requires forall t :: boundsValue(t) == BoundsTexel(nodes, w, h, t)
    requires Written(nodeData, 4, nodeRank, nodeValue, 0, i)
    requires Written(boundsData, 3, boundsRank, boundsValue, Fin(0.0), 2 * i)
    modifies nodeData, boundsData
    ensures Written(nodeData, 4, nodeRank, nodeValue, 0, i + 1)
    ensures Written(boundsData, 3, boundsRank, boundsValue, Fin(0.0), 2 * i + 2)
  {
    var node := nodes[i];
    var aabb := node.bounds;
    var x1 := 4 * (i / h);
    var x2 := 3 * 2 * (i / h);
    var y := i % h;
    NodeOffsets(w, h, i);
    DivMod(w, 1, w, 0);
    DivMod(2 * w, 2, w, 0);
    BlockPlacement(w, h, 1, i, 0);
    BlockPlacement(2 * w, h, 2, i, 0);
    BlockPlacement(2 * w, h, 2, i, 1);
    SetBlock(nodeData, 4, w, h, 1, i, 0, [U32(node.start), U32(node.len), U32(node.childa), U32(node.childb)],
             x1 + y * nodeTempWidth, nodeRank, nodeValue, 0);
    SetBlock(boundsData, 3, 2 * w, h, 2, i, 0, [aabb.s0.lo, aabb.s1.lo, aabb.s2.lo],
             x2 + y * boundsTempWidth, boundsRank, boundsValue, Fin(0.0));
    SetBlock(boundsData, 3, 2 * w, h, 2, i, 1, [aabb.s0.hi, aabb.s1.hi, aabb.s2.hi],
             (x2 + 3) + y * boundsTempWidth, boundsRank, boundsValue, Fin(0.0));
  }

  /** Once every node is written, each texel of the node texture holds its entry. */
  lemma NodesWritten(data: array<int>, nodes: seq<Node>, w: nat, h: nat, rank: nat -> int, value: nat -> seq<int>)
    requires forall t :: rank(t) == BlockRank(w, h, 1, t)
    requires forall t :: value(t) == NodeTexel(nodes, w, h, t)
    requires Written(data, 4, rank, value, 0, |nodes|)
    ensures forall k :: 0 <= k < data.Length ==> data[k] == NodeTexel(nodes, w, h, k / 4)[k % 4]
  {
    forall k | 0 <= k < data.Length
      ensures data[k] == NodeTexel(nodes, w, h, k / 4)[k % 4]
    {
      assert rank(k / 4) < |nodes| <==> BlockEntryAt(w, h, 1, k / 4).i < |nodes|;
    }
  }

  /** Once every node is written, each texel of the bounds texture holds its corner. */
  lemma BoundsWritten(data: array<XReal>, nodes: seq<Node>, w: nat, h: nat, rank: nat -> int, value: nat -> seq<XReal>)
    requires forall t :: rank(t) == BlockRank(2 * w, h, 2, t)
    requires forall t :: value(t) == BoundsTexel(nodes, w, h, t)
    requires Written(data, 3, rank, value, Fin(0.0), 2 * |nodes|)
    ensures forall k :: 0 <= k < data.Length ==> data[k] == BoundsTexel(nodes, w, h, k / 3)[k % 3]
  {
    forall k | 0 <= k < data.Length
      ensures data[k] == BoundsTexel(nodes, w, h, k / 3)[k % 3]
    {
      var en := BlockEntryAt(2 * w, h, 2, k / 3);
      assert en.c < 2;
      assert rank(k / 3) < 2 * |nodes| <==> en.i < |nodes|;
    }
  }

  /**
   * The node part of passTextures: the texture sizes, uNodeMax, and the two textures, in which
   * every texel holds the node entry placed there and every other entry is 0.
   */
  method PassNodes(nodes: seq<Node>) returns (nodeData: array<int>, boundsData: array<XReal>, texWidth: nat, texHeight: nat)
    ensures texHeight == NodeTexHeight(|nodes|) && texWidth == NodeTexWidth(|nodes|)
    ensures fresh(nodeData) && nodeData.Length == texHeight * texWidth * 4
    ensures fresh(boundsData) && boundsData.Length == texHeight * (2 * texWidth) * 3
    ensures forall k :: 0 <= k < nodeData.Length ==> nodeData[k] == NodeTexel(nodes, texWidth, texHeight, k / 4)[k % 4]
    ensures forall k :: 0 <= k < boundsData.Length ==> boundsData[k] == BoundsTexel(nodes, texWidth, texHeight, k / 3)[k % 3]
  {
    var n := |nodes|;
    var nodeTexHeight := MinNat(n, MaxSize);
    var nodeTexWidth := CeilDiv(n, MaxSize);
    var boundsTexWidth := 2 * nodeTexWidth;
    var nodeTempWidth := nodeTexWidth * 4;
    var boundsTempWidth := boundsTexWidth * 3;
    texWidth, texHeight := nodeTexWidth, nodeTexHeight;
    nodeData := new int[nodeTexHeight * nodeTempWidth](_ => 0);
    boundsData := new XReal[nodeTexHeight * boundsTempWidth](_ => Fin(0.0));
    if n == 0 {
      return;
    }
    NodeDims(n);
    var h, w := nodeTexHeight, nodeTexWidth;
    assert nodeData.Length == 4 * (h * w);
    assert boundsData.Length == 3 * (h * (2 * w));
    ghost var nodeRank: nat -> int := (t: nat) => BlockRank(w, h, 1, t);
    ghost var nodeValue: nat -> seq<int> := (t: nat) => NodeTexel(nodes, w, h, t);
    ghost var boundsRank: nat -> int := (t: nat) => BlockRank(2 * w, h, 2, t);
    ghost var boundsValue: nat -> seq<XReal> := (t: nat) => BoundsTexel(nodes, w, h, t);
    for i := 0 to n
      invariant Written(nodeData, 4, nodeRank, nodeValue, 0, i)
      invariant Written(boundsData, 3, boundsRank, boundsValue, Fin(0.0), 2 * i)
    {
      SetNode(nodeData, boundsData, nodes, w, h, i, nodeTempWidth, boundsTempWidth,
              nodeRank, nodeValue, boundsRank, boundsValue);
    }
    NodesWritten(nodeData, nodes, w, h, nodeRank, nodeValue);
    BoundsWritten(boundsData, nodes, w, h, boundsRank, boundsValue);
  }
}
