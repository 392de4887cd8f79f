/**
 * The builder of bvh.js: the global arrays trisBVH, nodesBVH and stackBVH as the fields of a
 * `Builder`, createBVH's annotation and work-stack loops, buildNode, pushToStack, and the
 * flattening of compressBVH.
 */
module BvhBuild {
  import opened Common
  import opened Geometry
  import opened Bounds
  import opened BvhSplit
  import opened BvhTree

  /** The annotation loop of createBVH: midpoint, then the box grown by the three vertices. */
  method AnnotateAll(tris: seq<Triangle>) returns (r: seq<BvhTri>)
    ensures |r| == |tris| && forall i :: 0 <= i < |tris| ==> r[i] == Annotate(tris[i])
  {
    r := [];
    for i := 0 to |tris|
      invariant |r| == i && forall k :: 0 <= k < i ==> r[k] == Annotate(tris[k])
    {
      var tri := tris[i];
      var p, q, w := tri.v0.pos, tri.v1.pos, tri.v2.pos;
      var midpoint := V3((p.x + q.x + w.x) / 3.0, (p.y + q.y + w.y) / 3.0, (p.z + q.z + w.z) / 3.0);
      var bounds := AllocAabb();
      GrowBounds(bounds, p);
      GrowBounds(bounds, q);
      GrowBounds(bounds, w);
      GrownThree(p, q, w);
      var mi := V3(bounds[0, 0].v, bounds[1, 0].v, bounds[2, 0].v);
      var ma := V3(bounds[0, 1].v, bounds[1, 1].v, bounds[2, 1].v);
      r := r + [BvhTri(tri, midpoint, mi, ma)];
    }
  }

  // ---- compressBVH's layout ----

  /** The 12 numbers compressBVH emits per vertex: position, -1, uv, -1, -1, normal, -1. */
  function VertexWords(v: Vertex): seq<real> {
    [v.pos.x, v.pos.y, v.pos.z, -1.0, v.u, v.v, -1.0, -1.0, v.normal.x, v.normal.y, v.normal.z, -1.0]
  }

  /** The words of the first j vertices of a triangle. */
  function VertsWords(tri: Triangle, j: int): (r: seq<real>)
    requires 0 <= j <= 3
    ensures |r| == 12 * j
  {
    if j == 0 then [] else VertsWords(tri, j - 1) + VertexWords(tri.Vert(j - 1))
  }

  /** The 40 numbers of one triangle: its three vertices, then the material and three -1s. */
  function TriWords(t: BvhTri): (r: seq<real>)
    ensures |r| == 40
  {
    VertsWords(t.tri, 3) + [t.tri.material as real, -1.0, -1.0, -1.0]
  }

  function FlatTris(ts: seq<BvhTri>): seq<real> {
    if |ts| == 0 then [] else FlatTris(ts[..|ts| - 1]) + TriWords(ts[|ts| - 1])
  }

  /** The 12 numbers of one node: start, len, childa, childb, min corner, -1, max corner, -1. */
  function NodeWords(n: Node): (r: seq<XReal>)
    ensures |r| == 12
  {
    var b := n.bounds;
    [Fin(n.start as real), Fin(n.len as real), Fin(n.childa as real), Fin(n.childb as real),
     b.s0.lo, b.s1.lo, b.s2.lo, Fin(-1.0), b.s0.hi, b.s1.hi, b.s2.hi, Fin(-1.0)]
  }

  function FlatNodes(ns: seq<Node>): seq<XReal> {
    if |ns| == 0 then [] else FlatNodes(ns[..|ns| - 1]) + NodeWords(ns[|ns| - 1])
  }

  /** A slice that lies inside the first part of a concatenation. */
  lemma SliceInPrefix<T>(a: seq<T>, b: seq<T>, lo: int, hi: int)
    requires 0 <= lo <= hi <= |a|
    ensures (a + b)[lo..hi] == a[lo..hi]
  {
    assert forall k :: 0 <= k < hi - lo ==> (a + b)[lo..hi][k] == a[lo..hi][k];
  }

  /** A slice of a slice is a slice of the whole. */
  lemma SliceOfSlice<T>(w: seq<T>, b: int, n: int, o: int, m: int)
    requires 0 <= b && b + n <= |w| && 0 <= o && 0 <= m && o + m <= n
    ensures w[b + o .. b + o + m] == w[b .. b + n][o .. o + m]
  {
    var inner, outer := w[b + o .. b + o + m], w[b .. b + n][o .. o + m];
    assert forall k :: 0 <= k < m ==> inner[k] == w[b + o + k] == outer[k];
  }

  /** Triangle i occupies words 40i .. 40i+39 of the flattened triangles. */
  lemma {:induction false} FlatTrisLayout(ts: seq<BvhTri>)
    ensures |FlatTris(ts)| == 40 * |ts|
    ensures forall i :: 0 <= i < |ts| ==> FlatTris(ts)[40 * i .. 40 * i + 40] == TriWords(ts[i])
  {
    if |ts| > 0 {
      var n := |ts| - 1;
      FlatTrisLayout(ts[..n]);
      forall i | 0 <= i < |ts|
        ensures FlatTris(ts)[40 * i .. 40 * i + 40] == TriWords(ts[i])
      {
        if i < n {
          assert ts[..n][i] == ts[i];
          SliceInPrefix(FlatTris(ts[..n]), TriWords(ts[n]), 40 * i, 40 * i + 40);
        }
      }
    }
  }

  /** Node k occupies words 12k .. 12k+11 of the flattened nodes. */
  lemma {:induction false} FlatNodesLayout(ns: seq<Node>)
    ensures |FlatNodes(ns)| == 12 * |ns|
    ensures forall k :: 0 <= k < |ns| ==> FlatNodes(ns)[12 * k .. 12 * k + 12] == NodeWords(ns[k])
  {
    if |ns| > 0 {
      var n := |ns| - 1;
      FlatNodesLayout(ns[..n]);
      forall k | 0 <= k < |ns|
        ensures FlatNodes(ns)[12 * k .. 12 * k + 12] == NodeWords(ns[k])
      {
        if k < n {
          assert ns[..n][k] == ns[k];
          SliceInPrefix(FlatNodes(ns[..n]), NodeWords(ns[n]), 12 * k, 12 * k + 12);
        }
      }
    }
  }

  /**
   * 40 numbers per triangle: vertex j of triangle i has its position at 40i+12j .. 40i+12j+2,
   * its uv at +4, +5 and its normal at +8 .. +10.
   */
  lemma TriangleWords(ts: seq<BvhTri>, i: int, j: int)
    requires 0 <= i < |ts| && 0 <= j < 3
    ensures |FlatTris(ts)| == 40 * |ts|
    ensures var w, v := FlatTris(ts), ts[i].tri.Vert(j);
      && w[40 * i + 12 * j] == v.pos.x && w[40 * i + 12 * j + 1] == v.pos.y && w[40 * i + 12 * j + 2] == v.pos.z
      && w[40 * i + 12 * j + 4] == v.u && w[40 * i + 12 * j + 5] == v.v
      && w[40 * i + 12 * j + 8] == v.normal.x && w[40 * i + 12 * j + 9] == v.normal.y
      && w[40 * i + 12 * j + 10] == v.normal.z
  {
    VertexSlice(ts, i, j);
    var b := 40 * i + 12 * j;
    var vw := FlatTris(ts)[b .. b + 12];
    var w := FlatTris(ts);
    assert w[b] == vw[0] && w[b + 1] == vw[1] && w[b + 2] == vw[2];
    assert w[b + 4] == vw[4] && w[b + 5] == vw[5];
    assert w[b + 8] == vw[8] && w[b + 9] == vw[9] && w[b + 10] == vw[10];
  }

  lemma VertexSlice(ts: seq<BvhTri>, i: int, j: int)
    requires 0 <= i < |ts| && 0 <= j < 3
    ensures |FlatTris(ts)| == 40 * |ts|
    ensures FlatTris(ts)[40 * i + 12 * j .. 40 * i + 12 * j + 12] == VertexWords(ts[i].tri.Vert(j))
  {
    FlatTrisLayout(ts);
    TriWordsVertex(ts[i], j);
    SliceOfSlice(FlatTris(ts), 40 * i, 40, 12 * j, 12);
  }

  /** The material of triangle i sits at 40i+36, followed by three -1s. */
  lemma MaterialWord(ts: seq<BvhTri>, i: int)
    requires 0 <= i < |ts|
    ensures |FlatTris(ts)| == 40 * |ts| && FlatTris(ts)[40 * i + 36] == ts[i].tri.material as real
  {
    FlatTrisLayout(ts);
    TriWordsVertex(ts[i], 0);
    var w := FlatTris(ts);
    assert w[40 * i + 36] == w[40 * i .. 40 * i + 40][36];
  }

  /** Within one triangle's 40 numbers, vertex j occupies 12j .. 12j+11 and the material 36. */
  lemma TriWordsVertex(t: BvhTri, j: int)
    requires 0 <= j < 3
    ensures TriWords(t)[12 * j .. 12 * j + 12] == VertexWords(t.tri.Vert(j))
    ensures TriWords(t)[36] == t.tri.material as real
  {
    var u := t.tri;
    assert VertsWords(u, 1) == VertexWords(u.v0);
    assert VertsWords(u, 2) == VertexWords(u.v0) + VertexWords(u.v1);
    assert VertsWords(u, 3) == VertexWords(u.v0) + VertexWords(u.v1) + VertexWords(u.v2);
  }

  /** 12 numbers per node: start, len, childa, childb at 12k..12k+3, min corner at +4..+6, max corner at +8..+10. */
  lemma NodeWordsAt(ns: seq<Node>, k: int)
    requires 0 <= k < |ns|
    ensures |FlatNodes(ns)| == 12 * |ns|
    ensures var w, n := FlatNodes(ns), ns[k];
      && w[12 * k] == Fin(n.start as real) && w[12 * k + 1] == Fin(n.len as real)
      && w[12 * k + 2] == Fin(n.childa as real) && w[12 * k + 3] == Fin(n.childb as real)
      && w[12 * k + 4] == n.bounds.s0.lo && w[12 * k + 5] == n.bounds.s1.lo && w[12 * k + 6] == n.bounds.s2.lo
      && w[12 * k + 8] == n.bounds.s0.hi && w[12 * k + 9] == n.bounds.s1.hi && w[12 * k + 10] == n.bounds.s2.hi
  {
    FlatNodesLayout(ns);
    NodeWordsIn(FlatNodes(ns), 12 * k, ns[k]);
  }

  /** Reading the fields of a node back from any array holding its 12 words at offset b. */
  lemma NodeWordsIn(w: seq<XReal>, b: int, n: Node)
    requires 0 <= b && b + 12 <= |w| && w[b .. b + 12] == NodeWords(n)
    ensures && w[b] == Fin(n.start as real) && w[b + 1] == Fin(n.len as real)
      && w[b + 2] == Fin(n.childa as real) && w[b + 3] == Fin(n.childb as real)
      && w[b + 4] == n.bounds.s0.lo && w[b + 5] == n.bounds.s1.lo && w[b + 6] == n.bounds.s2.lo
      && w[b + 8] == n.bounds.s0.hi && w[b + 9] == n.bounds.s1.hi && w[b + 10] == n.bounds.s2.hi
  {
    var nw := w[b .. b + 12];
    assert w[b] == nw[0] && w[b + 1] == nw[1] && w[b + 2] == nw[2] && w[b + 3] == nw[3];
    assert w[b + 4] == nw[4] && w[b + 5] == nw[5] && w[b + 6] == nw[6];
    assert w[b + 8] == nw[8] && w[b + 9] == nw[9] && w[b + 10] == nw[10];
  }

  /** The internal-node part of buildNode: SAH search, fallback for overlaid triangles, partition. */
  method SplitNode(tris: seq<BvhTri>, bounds: Aabb) returns (left: seq<BvhTri>, right: seq<BvhTri>)
    requires |tris| >= 2 && bounds == BoundsOf(tris)
    ensures (left, right) == Halves(tris)
  {
    var minCost, bestSplit, bestAxis := SearchLoop(tris, bounds);
    var compare := Boundary(bounds, bestAxis, bestSplit);
    if Above(minCost, FallbackThreshold) {
      bestAxis, compare := FallbackLoop(tris[0], tris[1], bestAxis, compare);
    }
    assert Plane(bestAxis, compare) == ChosenPlane(tris, bounds);
    left, right := PartitionLoop(tris, bestAxis, compare);
  }

  /** Pushing the nonempty halves one after the other is appending Pushes. */
  lemma PushesInOrder(stack: seq<WorkItem>, mid: seq<WorkItem>, stack': seq<WorkItem>,
                      left: seq<BvhTri>, right: seq<BvhTri>, c: int, d: nat)
    requires mid == if |left| > 0 then stack + [WorkItem(left, c, d)] else stack
    requires stack' == if |right| > 0 then mid + [WorkItem(right, c, d)] else mid
    ensures stack' == stack + Pushes(left, right, c, d)
  {
    var l := if |left| > 0 then [WorkItem(left, c, d)] else [];
    var r := if |right| > 0 then [WorkItem(right, c, d)] else [];
    assert mid == stack + l;
    assert stack' == mid + r;
    assert stack + l + r == stack + (l + r);
  }

  /** The build step for an internal node, written out. */
  lemma InternalStep(s: BuildState, it: WorkItem, left: seq<BvhTri>, right: seq<BvhTri>)
    requires it.parent < |s.nodes| && !IsLeafRule(|it.tris|, it.depth)
    ensures BuildNodeWith(s, it, left, right)
      == BuildState(s.tris, (if it.parent >= 0 then Patch(s.nodes, it.parent, |s.nodes|) else s.nodes) + [NewNode().(bounds := BoundsOf(it.tris))],
                    s.stack + Pushes(left, right, |s.nodes|, it.depth + 1))
  {
  }

  /** The global state of bvh.js. */
  class Builder {
    var trisBvh: seq<BvhTri>
    var nodesBvh: seq<Node>
    var stackBvh: seq<WorkItem>
    /** The annotated input of the current build. */
    ghost var input: seq<BvhTri>
    /** The depth and subset each node so far was built from. */
    ghost var info: seq<NodeInfo>

    function State(): BuildState
      reads this
    {
      BuildState(trisBvh, nodesBvh, stackBvh)
    }

    ghost predicate Valid()
      reads this
    {
      Inv(input, State(), info)
    }

    constructor ()
      ensures trisBvh == [] && nodesBvh == [] && stackBvh == []
    {
      trisBvh, nodesBvh, stackBvh := [], [], [];
      input, info := [], [];
    }

    /** pushToStack: appends an entry to stackBVH. */
    method PushToStack(t: seq<BvhTri>, p: int, d: nat)
      modifies this
      ensures stackBvh == old(stackBvh) + [WorkItem(t, p, d)]
      ensures trisBvh == old(trisBvh) && nodesBvh == old(nodesBvh)
      ensures input == old(input) && info == old(info)
    {
      stackBvh := stackBvh + [WorkItem(t, p, d)];
    }

    /** buildNode: patches the parent, then appends a leaf or an internal node with its halves pushed. */
    method BuildNode(tris: seq<BvhTri>, parent: int, depth: nat)
      requires parent < |nodesBvh|
      modifies this
      ensures State() == BuildNodeSpec(old(State()), WorkItem(tris, parent, depth))
      ensures input == old(input) && info == old(info)
    {
      ghost var s := State();
      if parent >= 0 {
        if nodesBvh[parent].childa == 0 {
          nodesBvh := nodesBvh[parent := nodesBvh[parent].(childa := |nodesBvh|)];
        } else {
          nodesBvh := nodesBvh[parent := nodesBvh[parent].(childb := |nodesBvh|)];
        }
      }
      ghost var it := WorkItem(tris, parent, depth);
      ghost var patched := if parent >= 0 then Patch(s.nodes, parent, |s.nodes|) else s.nodes;
      assert nodesBvh == patched;
      var node := NewNode();
      var bounds := UnionBounds(tris);
      if (|tris| as real) < 2.0 + 0.25 * (depth as real) || depth > MaxDepth {
        node := node.(start := |trisBvh|, len := |tris|, bounds := bounds);
        trisBvh := trisBvh + tris;
        nodesBvh := nodesBvh + [node];
        assert State() == BuildNodeWith(s, it, [], []);
        return;
      }
      InternalIsLarge(|tris|, depth);
      var left, right := SplitNode(tris, bounds);
      AppendInternal(s, it, node.(bounds := bounds), left, right, depth);
      SpecWith(s, it, left, right);
    }

    /**
     * The tail of buildNode for an internal node: append it, then push its non-empty halves.
     * `s` is the state before the parent was patched, `it` the entry being built.
     */
    method AppendInternal(ghost s: BuildState, ghost it: WorkItem, node: Node, left: seq<BvhTri>, right: seq<BvhTri>, depth: nat)
      requires depth == it.depth && it.parent < |s.nodes| && !IsLeafRule(|it.tris|, it.depth)
      requires trisBvh == s.tris && stackBvh == s.stack
      requires nodesBvh == if it.parent >= 0 then Patch(s.nodes, it.parent, |s.nodes|) else s.nodes
      requires node == NewNode().(bounds := BoundsOf(it.tris))
      modifies this
      ensures State() == BuildNodeWith(s, it, left, right)
      ensures input == old(input) && info == old(info)
    {
      nodesBvh := nodesBvh + [node];
      if |left| > 0 {
        PushToStack(left, |nodesBvh| - 1, depth + 1);
      }
      ghost var mid := stackBvh;
      if |right| > 0 {
        PushToStack(right, |nodesBvh| - 1, depth + 1);
      }
      PushesInOrder(s.stack, mid, stackBvh, left, right, |s.nodes|, depth + 1);
      InternalStep(s, it, left, right);
    }

    /**
     * createBVH: annotates the triangles, drains the work stack through buildNode, and returns
     * the flattened arrays of compressBVH. On return the stack is empty and the invariant holds,
     * so the lemmas on a finished build apply to the fields.
     */
    method CreateBvh(tris: seq<Triangle>) returns (t: seq<real>, n: seq<XReal>)
      modifies this
      ensures |input| == |tris| && forall i :: 0 <= i < |tris| ==> input[i] == Annotate(tris[i])
      ensures Valid() && stackBvh == []
      ensures t == FlatTris(trisBvh) && n == FlatNodes(nodesBvh)
    {
      trisBvh, nodesBvh, stackBvh := [], [], [];
      var annotated := AnnotateAll(tris);
      input, info := annotated, [];
      PushToStack(annotated, -1, 0);
      InitialInv(annotated);
      while |stackBvh| > 0
        invariant Valid() && input == annotated
        decreases StackWeight(stackBvh)
      {
        var item := stackBvh[|stackBvh| - 1];
        ghost var before := stackBvh;
        stackBvh := stackBvh[..|stackBvh| - 1];
        assert stackBvh + [item] == before;
        StepInv(input, State(), info, item);
        BuildNode(item.tris, item.parent, item.depth);
        info := info + [NodeInfo(item.depth, item.tris)];
      }
      t, n := CompressBvh();
    }

    /** compressBVH: 40 numbers per triangle and 12 per node, in array order. */
    method CompressBvh() returns (t: seq<real>, n: seq<XReal>)
      ensures t == FlatTris(trisBvh) && n == FlatNodes(nodesBvh)
    {
      t := [];
      for i := 0 to |trisBvh|
        invariant t == FlatTris(trisBvh[..i])
      {
        var tri := trisBvh[i].tri;
        for j := 0 to 3
          invariant t == FlatTris(trisBvh[..i]) + VertsWords(tri, j)
        {
          var v := tri.Vert(j);
          t := t + [v.pos.x, v.pos.y, v.pos.z, -1.0, v.u, v.v, -1.0, -1.0, v.normal.x, v.normal.y, v.normal.z, -1.0];
        }
        t := t + [tri.material as real, -1.0, -1.0, -1.0];
        assert trisBvh[..i + 1][..i] == trisBvh[..i];
      }
      assert trisBvh[..|trisBvh|] == trisBvh;
      n := [];
      for k := 0 to |nodesBvh|
        invariant n == FlatNodes(nodesBvh[..k])
      {
        var node := nodesBvh[k];
        var b := node.bounds;
        n := n + [Fin(node.start as real), Fin(node.len as real), Fin(node.childa as real), Fin(node.childb as real),
                  b.s0.lo, b.s1.lo, b.s2.lo, Fin(-1.0), b.s0.hi, b.s1.hi, b.s2.hi, Fin(-1.0)];
        assert nodesBvh[..k + 1][..k] == nodesBvh[..k];
      }
      assert nodesBvh[..|nodesBvh|] == nodesBvh;
    }
  }
}
