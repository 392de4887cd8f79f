/**
 * The integer side of the fragment shader: where getNode, getBounds, getTrianglePos and
 * getTriData fetch their texels, the replace-if-closer guard of intersectTriangle and the
 * stack loop of traverseBVH. Box and triangle hit tests are abstract: the box distance of a
 * node and the (u, v, t) a triangle yields are parameters.
 */
module Shader {
  import opened Geometry
  import opened Bounds
  import opened BvhTree
  import opened TexLayout

  // ---- Texel addressing ----

  /** `texelFetch(tex, ivec2(col, row), 0)` on a texture w texels wide reads this texel. */
  function Fetch(w: nat, col: nat, row: nat): nat {
    row * w + col
  }

  /** getNode(i): column i / uNodeMax, row i % uNodeMax. */
  function NodeFetch(w: nat, nodeMax: nat, i: nat): nat
    requires nodeMax > 0
  {
    Fetch(w, i / nodeMax, i % nodeMax)
  }

  /** getBounds(i): the min corner (c = 0) at column 2 (i / uNodeMax), the max corner (c = 1) one to its right. */
  function BoundsFetch(w: nat, nodeMax: nat, i: nat, c: nat): nat
    requires nodeMax > 0
  {
    Fetch(w, 2 * (i / nodeMax) + c, i % nodeMax)
  }

  /** getTrianglePos / getTriData: base (4 (index / uTriMax), 3 (index % uTriMax)), plus column s and row j. */
  function TriFetch(w: nat, triMax: nat, index: nat, j: nat, s: nat): nat
    requires triMax > 0
  {
    Fetch(w, 4 * (index / triMax) + s, 3 * (index % triMax) + j)
  }

  /**
   * With uNodeMax = nodeTexHeight, getNode(i) reads the texel passTextures wrote node i to:
   * start, len, childa and childb as stored by the Uint32Array.
   */
  lemma GetNodeReadsNode(nodes: seq<Node>, i: nat)
    requires i < |nodes|
    ensures var w, h := NodeTexWidth(|nodes|), NodeTexHeight(|nodes|);
      h > 0 && NodeFetch(w, h, i) < h * w &&
      NodeTexel(nodes, w, h, NodeFetch(w, h, i)) ==
        [U32(nodes[i].start), U32(nodes[i].len), U32(nodes[i].childa), U32(nodes[i].childb)]
  {
    NodeDims(|nodes|);
    var w, h := NodeTexWidth(|nodes|), NodeTexHeight(|nodes|);
    DivMod(w, 1, w, 0);
    BlockPlacement(w, h, 1, i, 0);
    assert NodeFetch(w, h, i) == BlockTexel(w, h, 1, i, 0);
  }

  /** With uNodeMax = nodeTexHeight, getBounds(i) reads node i's min corner and then its max corner. */
  lemma GetBoundsReadsBox(nodes: seq<Node>, i: nat, c: nat)
    requires i < |nodes| && c < 2
    ensures var w, h := NodeTexWidth(|nodes|), NodeTexHeight(|nodes|);
      h > 0 && BoundsFetch(2 * w, h, i, c) < h * (2 * w) &&
      BoundsTexel(nodes, w, h, BoundsFetch(2 * w, h, i, c)) == Corner(nodes[i].bounds, c)
  {
    NodeDims(|nodes|);
    var w, h := NodeTexWidth(|nodes|), NodeTexHeight(|nodes|);
    DivMod(2 * w, 2, w, 0);
    BlockPlacement(2 * w, h, 2, i, c);
    assert BoundsFetch(2 * w, h, i, c) == BlockTexel(2 * w, h, 2, i, c);
  }

  /**
   * With uTriMax = triTexHeight / 3, the texel at column s and row j past triangle i's base
   * holds slot s of vertex j of triangle i, inside the texture.
   */
  lemma GetTriangleReadsSlot(tris: seq<Triangle>, i: nat, j: nat, s: nat)
    requires i < |tris| && j < 3 && s < 4
    ensures var w, m := TriTexWidth(|tris|), TriMax(|tris|);
      m > 0 && TriFetch(w, m, i, j, s) < TriTexHeight(|tris|) * w &&
      TriTexel(tris, w, m, TriFetch(w, m, i, j, s)) == SlotValues(tris[i], j, s)
  {
    TriDims(|tris|);
    var w, m := TriTexWidth(|tris|), TriMax(|tris|);
    TriPlacement(w, m, i, j, s);
    TriWriteForm(m, i);
    assert (16 * (i / m)) / 4 == 4 * (i / m);
    assert TriFetch(w, m, i, j, s) == TriWriteTexel(w, 3 * m, i, j, s);
  }

  /** `ivec4(uvec4)`: a stored uint32 read back as a two's-complement int32. */
  function I32(u: nat): (r: int)
    requires u < 0x1_0000_0000
    ensures -0x8000_0000 <= r < 0x8000_0000
    ensures r % 0x1_0000_0000 == u
  {
    if u < 0x8000_0000 then u else u - 0x1_0000_0000
  }

  /** The node info traverseBVH sees: the four stored words of getNode, as ints. */
  function NodeInfo(nodes: seq<Node>, i: nat): (r: seq<int>)
    requires i < |nodes|
    ensures |r| == 4
  {
    NodeDims(|nodes|);
    var w, h := NodeTexWidth(|nodes|), NodeTexHeight(|nodes|);
    var texel := NodeTexel(nodes, w, h, NodeFetch(w, h, i));
    [I32(texel[0]), I32(texel[1]), I32(texel[2]), I32(texel[3])]
  }

  /** A node whose fields are int32-sized non-negative numbers survives the trip through the node texture. */
  predicate Storable(n: Node) {
    0 <= n.start < 0x8000_0000 && 0 <= n.len < 0x8000_0000 &&
    0 <= n.childa < 0x8000_0000 && 0 <= n.childb < 0x8000_0000
  }

  lemma NodeInfoRoundTrip(nodes: seq<Node>, i: nat)
    requires i < |nodes| && Storable(nodes[i])
    ensures NodeInfo(nodes, i) == [nodes[i].start, nodes[i].len, nodes[i].childa, nodes[i].childb]
  {
    GetNodeReadsNode(nodes, i);
  }

  /** A texture of vec4 texels, as texelFetch sees it. */
  type Texture = nat -> V4

  function AsV4(s: seq<real>): V4
    requires |s| == 4
  {
    V4(s[0], s[1], s[2], s[3])
  }

  /** The triangle texture passTextures builds, texel by texel. */
  function TriangleTexture(tris: seq<Triangle>): Texture {
    var w, m := TriTexWidth(|tris|), TriMax(|tris|);
    (t: nat) => AsV4(TriTexel(tris, w, m, t))
  }

  datatype TriPos = TriPos(apos: V3, bpos: V3, cpos: V3)

  function Xyz(p: V4): V3 {
    V3(p.x, p.y, p.z)
  }

  /** getTrianglePos: the xyz of column 0 on the triangle's three rows. */
  function GetTrianglePos(tex: Texture, w: nat, triMax: nat, index: nat): TriPos
    requires triMax > 0
  {
    TriPos(Xyz(tex(TriFetch(w, triMax, index, 0, 0))), Xyz(tex(TriFetch(w, triMax, index, 1, 0))),
           Xyz(tex(TriFetch(w, triMax, index, 2, 0))))
  }

  /** triData: per-vertex uv, normal and tangent, and the material index as a float. */
  datatype TriData = TriData(auv: (real, real), buv: (real, real), cuv: (real, real),
                             an: V3, bn: V3, cn: V3, at: V4, bt: V4, ct: V4, material: real)

  /** getTriData: uv in column 1, normal in column 2 (the material in the w of the third), tangent in column 3. */
  function GetTriData(tex: Texture, w: nat, triMax: nat, index: nat): TriData
    requires triMax > 0
  {
    var f := (j: nat, s: nat) => tex(TriFetch(w, triMax, index, j, s));
    var data := f(2, 2);
    TriData((f(0, 1).x, f(0, 1).y), (f(1, 1).x, f(1, 1).y), (f(2, 1).x, f(2, 1).y),
            Xyz(f(0, 2)), Xyz(f(1, 2)), Xyz(data), f(0, 3), f(1, 3), f(2, 3), data.w)
  }

  /** The texel the shader reads for slot s of vertex j is the one passTextures wrote. */
  lemma SlotRead(tris: seq<Triangle>, i: nat, j: nat, s: nat)
    requires i < |tris| && j < 3 && s < 4
    ensures TriMax(|tris|) > 0
    ensures TriangleTexture(tris)(TriFetch(TriTexWidth(|tris|), TriMax(|tris|), i, j, s)) == AsV4(SlotValues(tris[i], j, s))
  {
    GetTriangleReadsSlot(tris, i, j, s);
  }

  /** getTrianglePos(i) on the uploaded texture returns the three vertex positions of triangle i. */
  lemma TrianglePosRoundTrip(tris: seq<Triangle>, i: nat)
    requires i < |tris|
    ensures TriMax(|tris|) > 0
    ensures var t := tris[i];
      GetTrianglePos(TriangleTexture(tris), TriTexWidth(|tris|), TriMax(|tris|), i) == TriPos(t.v0.pos, t.v1.pos, t.v2.pos)
  {
    SlotRead(tris, i, 0, 0);
    SlotRead(tris, i, 1, 0);
    SlotRead(tris, i, 2, 0);
  }

  /**
   * getTriData(i) on the uploaded texture returns the uvs, normals and tangents of triangle i's
   * vertices, and its material index.
   */
  lemma TriDataRoundTrip(tris: seq<Triangle>, i: nat)
    requires i < |tris|
    ensures TriMax(|tris|) > 0
    ensures var t := tris[i];
      GetTriData(TriangleTexture(tris), TriTexWidth(|tris|), TriMax(|tris|), i) ==
        TriData((t.v0.u, t.v0.v), (t.v1.u, t.v1.v), (t.v2.u, t.v2.v),
                t.v0.normal, t.v1.normal, t.v2.normal, t.v0.tangent, t.v1.tangent, t.v2.tangent,
                t.material as real)
  {
    forall j, s | 0 <= j < 3 && 1 <= s < 4
      ensures TriangleTexture(tris)(TriFetch(TriTexWidth(|tris|), TriMax(|tris|), i, j, s)) == AsV4(SlotValues(tris[i], j, s))
    {
      SlotRead(tris, i, j, s);
    }
  }

  // ---- intersectTriangle ----

  /** hitInfo: barycentric (u, v), distance t and triangle index i. */
  datatype Hit = Hit(u: real, v: real, t: real, i: int)

  /** The u, v and t intersectTriangle computes for one triangle, before its guard. */
  datatype Candidate = Candidate(u: real, v: real, t: real)

  /** A candidate inside its triangle and in front of the ray. */
  predicate Valid(c: Candidate) {
    0.0 <= c.u && 0.0 <= c.v && c.u + c.v <= 1.0 && 0.0 <= c.t
  }

  /** intersectTriangle's update of the inout hit record for triangle i. */
  function Intersect(data: Hit, c: Candidate, i: int): (r: Hit)
    ensures r.t <= data.t
    ensures r == data || (r == Hit(c.u, c.v, c.t, i) && Valid(c))
    ensures Valid(c) && c.t <= data.t ==> r == Hit(c.u, c.v, c.t, i)
    ensures !(Valid(c) && c.t <= data.t) ==> r == data
  {
    if c.u < 0.0 || c.v < 0.0 || c.u + c.v > 1.0 || c.t > data.t || c.t < 0.0 then data
    else Hit(c.u, c.v, c.t, i)
  }

  /** The hit record describes triangle h.i's candidate. */
  predicate HitOf(h: Hit, cand: int -> Candidate) {
    Valid(cand(h.i)) && h == Hit(cand(h.i).u, cand(h.i).v, cand(h.i).t, h.i)
  }

  /**
   * The leaf branch of traverseBVH: intersectTriangle for every i from start to start + len - 1.
   * The record ends at least as close as every valid candidate in the range, and is either
   * unchanged or one of them.
   */
  method TestLeaf(start: int, len: int, cand: int -> Candidate, data: Hit) returns (data': Hit)
    ensures data'.t <= data.t
    ensures data' == data || (start <= data'.i < start + len && HitOf(data', cand))
    ensures forall i :: start <= i < start + len && Valid(cand(i)) ==> data'.t <= cand(i).t
  {
    data' := data;
    var i := start;
    while i < start + len
      invariant start <= i && (i <= start + len || i == start)
      invariant data'.t <= data.t
      invariant data' == data || (start <= data'.i < i && HitOf(data', cand))
      invariant forall k :: start <= k < i && Valid(cand(k)) ==> data'.t <= cand(k).t
    {
      data' := Intersect(data', cand(i), i);
      i := i + 1;
    }
  }

  // ---- traverseBVH ----

  /** The escape counter's start: at most this many nodes are popped. */
  const Escape: nat := 512

  /** The initial hit record: hitInfo(vec2(0.), 1e10, 0). */
  const NoHit: Hit := Hit(0.0, 0.0, 10_000_000_000.0, 0)

  /** Every child link names a node of the array, so every getNode call reads a written texel. */
  predicate Linked(nodes: seq<Node>) {
    forall k :: 0 <= k < |nodes| ==> 0 <= nodes[k].childa < |nodes| && 0 <= nodes[k].childb < |nodes|
  }

  /**
   * The internal-node branch: the nearer child by box distance is pushed last, so it is popped
   * next, and each child is pushed only when its distance is at most the best t so far.
   */
  method PushChildren(stack: seq<int>, best: real, childa: int, childb: int, dsta: real, dstb: real)
    returns (stack': seq<int>)
    ensures |stack'| == |stack| + (if dsta <= best then 1 else 0) + (if dstb <= best then 1 else 0)
    ensures stack'[..|stack|] == stack
    ensures forall k :: |stack| <= k < |stack'| ==>
              (stack'[k] == childa && dsta <= best) || (stack'[k] == childb && dstb <= best)
    ensures var near, dnear := if dsta <= dstb then childa else childb, if dsta <= dstb then dsta else dstb;
      dnear <= best ==> stack'[|stack'| - 1] == near
  {
    var nearest := dsta <= dstb;
    var dstnear := if nearest then dsta else dstb;
    var dstfar := if nearest then dstb else dsta;
    var neari := if nearest then childa else childb;
    var fari := if nearest then childb else childa;
    stack' := stack;
    if dstfar <= best {
      stack' := stack' + [fari];
    }
    if dstnear <= best {
      stack' := stack' + [neari];
    }
  }

  /** The triangle indices start .. start + len - 1 of a leaf. */
  ghost function Interval(start: int, len: int): (r: set<int>)
    ensures forall i :: i in r <==> start <= i < start + len
    decreases len
  {
    if len <= 0 then {} else Interval(start, len - 1) + {start + len - 1}
  }

  /** Triangle i lies in the range of a leaf of nodes. */
  predicate InLeaf(nodes: seq<Node>, i: int) {
    exists k :: 0 <= k < |nodes| && nodes[k].len > 0 && nodes[k].start <= i < nodes[k].start + nodes[k].len
  }

  /**
   * traverseBVH with the box distance of each node (intersectBox on its getBounds box) and the
   * candidate of each triangle given. It pops from node 0 for at most Escape iterations,
   * stopping early only on an empty stack; the result is the closest valid candidate among the
   * triangles tested, which all belong to leaves, or the initial record. The stack grows by at
   * most one per iteration; nothing bounds it by the 16 slots of the GLSL array.
   */
  method TraverseBvh(nodes: seq<Node>, dist: int -> real, cand: int -> Candidate)
    returns (data: Hit, ghost steps: nat, ghost rest: seq<int>, ghost tested: set<int>)
    requires |nodes| > 0 && Linked(nodes)
    ensures steps <= Escape && (steps < Escape ==> rest == []) && |rest| <= steps + 1
    ensures data.t <= NoHit.t
    ensures data == NoHit || (data.i in tested && HitOf(data, cand))
    ensures forall i :: i in tested && Valid(cand(i)) ==> data.t <= cand(i).t
    ensures forall i :: i in tested ==> InLeaf(nodes, i)
  {
    var stack: seq<int> := [0];
    data := NoHit;
    var escape := Escape;
    steps, tested := 0, {};
    while |stack| > 0 && escape > 0
      invariant steps + escape == Escape && |stack| <= steps + 1
      invariant forall k :: 0 <= k < |stack| ==> 0 <= stack[k] < |nodes|
      invariant data.t <= NoHit.t
      invariant data == NoHit || (data.i in tested && HitOf(data, cand))
      invariant forall i :: i in tested && Valid(cand(i)) ==> data.t <= cand(i).t
      invariant forall i :: i in tested ==> InLeaf(nodes, i)
      decreases escape
    {
      var top := stack[|stack| - 1];
      stack := stack[..|stack| - 1];
      var node := nodes[top];
      if node.len > 0 {
        data := TestLeaf(node.start, node.len, cand, data);
        tested := tested + Interval(node.start, node.len);
      } else {
        var prior := stack;
        stack := PushChildren(stack, data.t, node.childa, node.childb, dist(node.childa), dist(node.childb));
        assert forall k :: 0 <= k < |stack| ==> 0 <= stack[k] < |nodes| by {
          forall k | 0 <= k < |stack|
            ensures 0 <= stack[k] < |nodes|
          {
            if k < |prior| {
              assert stack[k] == stack[..|prior|][k];
            }
          }
        }
      }
      escape := escape - 1;
      steps := steps + 1;
    }
    rest := stack;
  }
}
