/**
 * The effect of one buildNode call on the three builder arrays of bvh.js (trisBVH, nodesBVH,
 * stackBVH), stated on values, and the invariant that the build loop of createBVH keeps.
 */
module BvhTree {
  import opened Common
  import opened Geometry
  import opened Bounds
  import opened BvhSplit

  const MaxDepth: int := 32

  /** A node of nodesBVH: its leaf range, its box and its two child links (0 = none). */
  datatype Node = Node(start: int, len: int, bounds: Aabb, childa: int, childb: int)

  /** newNode: an empty range, no children and a placeholder box [0,1] x [0,100] x [0,1]. */
  function NewNode(): (r: Node)
    ensures r.start == 0 && r.len == 0 && r.childa == 0 && r.childb == 0
    ensures r.bounds.Finite() && r.bounds.Ordered() && Extent(r.bounds, 1) == 100.0
  {
    Node(0, 0, Aabb(Span(Fin(0.0), Fin(1.0)), Span(Fin(0.0), Fin(100.0)), Span(Fin(0.0), Fin(1.0))), 0, 0)
  }

  /** An entry of stackBVH: a subset of triangles, the index of its parent node (-1 for the root) and its depth. */
  datatype WorkItem = WorkItem(tris: seq<BvhTri>, parent: int, depth: nat)

  /** The three arrays the builder owns. */
  datatype BuildState = BuildState(tris: seq<BvhTri>, nodes: seq<Node>, stack: seq<WorkItem>)

  /** The leaf rule: `tris.length < 2 + 0.25*depth || depth > MAX_DEPTH`. */
  predicate IsLeafRule(n: int, depth: int) {
    (n as real) < 2.0 + 0.25 * (depth as real) || depth > MaxDepth
  }

  /** A node that is not a leaf has at least two triangles and depth at most 32. */
  lemma InternalIsLarge(n: int, depth: nat)
    requires !IsLeafRule(n, depth)
    ensures n >= 2 && depth <= MaxDepth
  {
  }

  /** Writes child index c into the first free child slot of node p. */
  function Patch(nodes: seq<Node>, p: int, c: int): (r: seq<Node>)
    requires 0 <= p < |nodes|
    ensures |r| == |nodes| && forall k :: 0 <= k < |nodes| && k != p ==> r[k] == nodes[k]
    ensures nodes[p].childa == 0 ==> r[p] == nodes[p].(childa := c)
    ensures nodes[p].childa != 0 ==> r[p] == nodes[p].(childb := c)
  {
    nodes[p := Adopt(nodes[p], c)]
  }

  /** The new child index c goes into the first free child slot of n. */
  function Adopt(n: Node, c: int): Node {
    if n.childa == 0 then n.(childa := c) else n.(childb := c)
  }

  /** The two halves buildNode pushes, the left one first and each only when nonempty. */
  function Pushes(left: seq<BvhTri>, right: seq<BvhTri>, parent: int, depth: nat): seq<WorkItem> {
    (if |left| > 0 then [WorkItem(left, parent, depth)] else [])
    + (if |right| > 0 then [WorkItem(right, parent, depth)] else [])
  }

  /** The two halves buildNode splits an internal node's triangles into. */
  function Halves(tris: seq<BvhTri>): (r: (seq<BvhTri>, seq<BvhTri>))
    requires |tris| >= 2
    ensures multiset(r.0) + multiset(r.1) == multiset(tris)
  {
    var p := ChosenPlane(tris, BoundsOf(tris));
    PartitionSplits(tris, p.axis, p.compare);
    (LeftOf(tris, p.axis, p.compare), RightOf(tris, p.axis, p.compare))
  }

  /** buildNode(it.tris, it.parent, it.depth) on the arrays `s` (from which `it` was popped), given its halves. */
  function BuildNodeWith(s: BuildState, it: WorkItem, left: seq<BvhTri>, right: seq<BvhTri>): BuildState
    requires it.parent < |s.nodes|
  {
    var nodes := if it.parent >= 0 then Patch(s.nodes, it.parent, |s.nodes|) else s.nodes;
    var bounds := BoundsOf(it.tris);
    if IsLeafRule(|it.tris|, it.depth) then
      BuildState(s.tris + it.tris, nodes + [NewNode().(start := |s.tris|, len := |it.tris|, bounds := bounds)], s.stack)
    else
      BuildState(s.tris, nodes + [NewNode().(bounds := bounds)], s.stack + Pushes(left, right, |s.nodes|, it.depth + 1))
  }

  /** buildNode(it.tris, it.parent, it.depth) applied to the arrays `s`, from which `it` was popped. */
  function BuildNodeSpec(s: BuildState, it: WorkItem): BuildState
    requires it.parent < |s.nodes|
  {
    if IsLeafRule(|it.tris|, it.depth) then BuildNodeWith(s, it, [], [])
    else
      InternalIsLarge(|it.tris|, it.depth);
      var h := Halves(it.tris);
      BuildNodeWith(s, it, h.0, h.1)
  }

  /** Once the halves of an internal node are known, the build step is BuildNodeWith on them. */
  lemma SpecWith(s: BuildState, it: WorkItem, left: seq<BvhTri>, right: seq<BvhTri>)
    requires it.parent < |s.nodes| && !IsLeafRule(|it.tris|, it.depth)
    requires |it.tris| >= 2 && (left, right) == Halves(it.tris)
    ensures BuildNodeSpec(s, it) == BuildNodeWith(s, it, left, right)
  {
  }

  // ---- Ghost bookkeeping for the invariant ----

  /** What the build knows about node k: the depth and the triangle subset it was built from. */
  datatype NodeInfo = NodeInfo(depth: nat, tris: seq<BvhTri>)

  predicate IsLeaf(x: NodeInfo) {
    IsLeafRule(|x.tris|, x.depth)
  }

  /** The subsets of the leaves, in node order: what trisBVH holds. */
  function LeafConcat(info: seq<NodeInfo>): seq<BvhTri> {
    if |info| == 0 then []
    else
      var x := info[|info| - 1];
      LeafConcat(info[..|info| - 1]) + (if IsLeaf(x) then x.tris else [])
  }

  /** Every triangle still waiting on the stack. */
  function StackTris(stack: seq<WorkItem>): multiset<BvhTri> {
    if |stack| == 0 then multiset{}
    else StackTris(stack[..|stack| - 1]) + multiset(stack[|stack| - 1].tris)
  }

  /** The triangles waiting on the stack to become children of node p. */
  function PendingTris(stack: seq<WorkItem>, p: int): multiset<BvhTri> {
    if |stack| == 0 then multiset{}
    else
      var it := stack[|stack| - 1];
      PendingTris(stack[..|stack| - 1], p) + (if it.parent == p then multiset(it.tris) else multiset{})
  }

  /** How many stack entries will become children of node p. */
  function PendingCount(stack: seq<WorkItem>, p: int): nat {
    if |stack| == 0 then 0
    else PendingCount(stack[..|stack| - 1], p) + (if stack[|stack| - 1].parent == p then 1 else 0)
  }

  /** 2^(34-depth) - 1: an entry at depth d spawns at most two entries at depth d+1. */
  function ItemWeight(it: WorkItem): nat {
    if it.depth <= MaxDepth + 2 then IPow2(MaxDepth + 2 - it.depth) - 1 else 0
  }

  function StackWeight(stack: seq<WorkItem>): nat {
    if |stack| == 0 then 0 else StackWeight(stack[..|stack| - 1]) + ItemWeight(stack[|stack| - 1])
  }

  function Filled(n: Node): nat {
    (if n.childa != 0 then 1 else 0) + (if n.childb != 0 then 1 else 0)
  }

  function ChildTris(n: Node, info: seq<NodeInfo>): multiset<BvhTri> {
    (if 0 < n.childa < |info| then multiset(info[n.childa].tris) else multiset{})
    + (if 0 < n.childb < |info| then multiset(info[n.childb].tris) else multiset{})
  }

  /** What holds of node k while the build runs. */
  predicate NodeOk(nodes: seq<Node>, info: seq<NodeInfo>, stack: seq<WorkItem>, k: int)
    requires |nodes| == |info| && 0 <= k < |nodes|
  {
    var n, x := nodes[k], info[k];
    && n.bounds == BoundsOf(x.tris)
    && x.depth <= MaxDepth + 1
    && (IsLeaf(x) ==>
          && n.start == |LeafConcat(info[..k])| && n.len == |x.tris|
          && n.childa == 0 && n.childb == 0 && PendingCount(stack, k) == 0)
    && (!IsLeaf(x) ==>
          && n.start == 0 && n.len == 0
          && (n.childa != 0 ==> k < n.childa < |nodes| && info[n.childa].depth == x.depth + 1)
          && (n.childb != 0 ==> k < n.childb < |nodes| && info[n.childb].depth == x.depth + 1 && n.childa != 0)
          && Filled(n) + PendingCount(stack, k) <= 2
          && ChildTris(n, info) + PendingTris(stack, k) == multiset(x.tris))
  }

  /** What holds of a stack entry: the root entry, or a nonempty half of an internal node. */
  predicate ItemOk(nodes: seq<Node>, info: seq<NodeInfo>, it: WorkItem)
    requires |nodes| == |info|
  {
    && it.depth <= MaxDepth + 1
    && (if it.parent < 0 then it.parent == -1 && it.depth == 0 && |nodes| == 0
        else it.parent < |nodes| && !IsLeaf(info[it.parent]) && it.depth == info[it.parent].depth + 1 && |it.tris| > 0)
  }

  /** The invariant of the build loop of createBVH over the input `input`. */
  predicate Inv(input: seq<BvhTri>, s: BuildState, info: seq<NodeInfo>) {
    && |s.nodes| == |info|
    && s.tris == LeafConcat(info)
    && multiset(s.tris) + StackTris(s.stack) == multiset(input)
    && (|info| == 0 ==> s.stack == [WorkItem(input, -1, 0)])
    && (|info| > 0 ==> info[0] == NodeInfo(0, input))
    && (forall i :: 0 <= i < |s.stack| ==> ItemOk(s.nodes, info, s.stack[i]))
    && (forall k :: 0 <= k < |s.nodes| ==> NodeOk(s.nodes, info, s.stack, k))
  }

  /** The state right after createBVH pushed the root entry satisfies the invariant. */
  lemma InitialInv(input: seq<BvhTri>)
    ensures Inv(input, BuildState([], [], [WorkItem(input, -1, 0)]), [])
  {
    assert StackTris([WorkItem(input, -1, 0)]) == multiset(input);
  }

  // ---- One step of the build ----

  lemma PendingSplit(stack: seq<WorkItem>, it: WorkItem, p: int)
    ensures PendingTris(stack + [it], p) == PendingTris(stack, p) + (if it.parent == p then multiset(it.tris) else multiset{})
    ensures PendingCount(stack + [it], p) == PendingCount(stack, p) + (if it.parent == p then 1 else 0)
    ensures StackTris(stack + [it]) == StackTris(stack) + multiset(it.tris)
    ensures StackWeight(stack + [it]) == StackWeight(stack) + ItemWeight(it)
  {
    assert (stack + [it])[..|stack|] == stack;
  }

  /** Entries whose parent is not p add nothing pending for p. */
  lemma {:induction false} PendingOthers(stack: seq<WorkItem>, p: int)
    requires forall i :: 0 <= i < |stack| ==> stack[i].parent != p
    ensures PendingTris(stack, p) == multiset{} && PendingCount(stack, p) == 0
  {
    if |stack| > 0 {
      PendingOthers(stack[..|stack| - 1], p);
    }
  }

  /** Pushing the halves of node n adds nothing pending for any other node p. */
  lemma PushesOther(stack: seq<WorkItem>, left: seq<BvhTri>, right: seq<BvhTri>, n: int, d: nat, p: int)
    requires p != n
    ensures PendingTris(stack + Pushes(left, right, n, d), p) == PendingTris(stack, p)
    ensures PendingCount(stack + Pushes(left, right, n, d), p) == PendingCount(stack, p)
  {
    var l := if |left| > 0 then [WorkItem(left, n, d)] else [];
    var r := if |right| > 0 then [WorkItem(right, n, d)] else [];
    assert stack + Pushes(left, right, n, d) == (stack + l) + r;
    if |left| > 0 {
      PendingSplit(stack, WorkItem(left, n, d), p);
    } else {
      assert stack + l == stack;
    }
    if |right| > 0 {
      PendingSplit(stack + l, WorkItem(right, n, d), p);
    } else {
      assert (stack + l) + r == stack + l;
    }
  }

  /** Pushing the halves of node n makes them pending for n: at most two more entries. */
  lemma PushesOwn(stack: seq<WorkItem>, left: seq<BvhTri>, right: seq<BvhTri>, n: int, d: nat)
    ensures PendingTris(stack + Pushes(left, right, n, d), n) == PendingTris(stack, n) + multiset(left) + multiset(right)
    ensures PendingCount(stack + Pushes(left, right, n, d), n) <= PendingCount(stack, n) + 2
  {
    var l := if |left| > 0 then [WorkItem(left, n, d)] else [];
    var r := if |right| > 0 then [WorkItem(right, n, d)] else [];
    assert stack + Pushes(left, right, n, d) == (stack + l) + r;
    if |left| > 0 {
      PendingSplit(stack, WorkItem(left, n, d), n);
    } else {
      assert stack + l == stack;
    }
    if |right| > 0 {
      PendingSplit(stack + l, WorkItem(right, n, d), n);
    } else {
      assert (stack + l) + r == stack + l;
    }
  }

  /** Pushing the halves adds their triangles to the stack, and at most twice the weight of one half. */
  lemma PushesTotals(stack: seq<WorkItem>, left: seq<BvhTri>, right: seq<BvhTri>, n: int, d: nat)
    ensures StackTris(stack + Pushes(left, right, n, d)) == StackTris(stack) + multiset(left) + multiset(right)
    ensures StackWeight(stack + Pushes(left, right, n, d)) <= StackWeight(stack) + 2 * ItemWeight(WorkItem(left, n, d))
  {
    var l := if |left| > 0 then [WorkItem(left, n, d)] else [];
    var r := if |right| > 0 then [WorkItem(right, n, d)] else [];
    assert stack + Pushes(left, right, n, d) == (stack + l) + r;
    if |left| > 0 {
      PendingSplit(stack, WorkItem(left, n, d), -1);
    } else {
      assert stack + l == stack;
    }
    if |right| > 0 {
      PendingSplit(stack + l, WorkItem(right, n, d), -1);
      assert ItemWeight(WorkItem(right, n, d)) == ItemWeight(WorkItem(left, n, d));
    } else {
      assert (stack + l) + r == stack + l;
    }
  }

  lemma LeafConcatSnoc(info: seq<NodeInfo>, x: NodeInfo)
    ensures LeafConcat(info + [x]) == LeafConcat(info) + (if IsLeaf(x) then x.tris else [])
  {
    assert (info + [x])[..|info|] == info;
  }

  /** An entry weighs more than the two entries one level deeper that it can spawn. */
  lemma WeightHalves(it: WorkItem, half: WorkItem)
    requires it.depth <= MaxDepth && half.depth == it.depth + 1
    ensures 2 * ItemWeight(half) < ItemWeight(it)
  {
    assert IPow2(MaxDepth + 2 - it.depth) == 2 * IPow2(MaxDepth + 2 - half.depth);
  }

  /** The halves of node `it` when it is internal. */
  predicate SplitOk(it: WorkItem, left: seq<BvhTri>, right: seq<BvhTri>) {
    !IsLeafRule(|it.tris|, it.depth) ==> multiset(left) + multiset(right) == multiset(it.tris)
  }

  /** What a step appends to trisBVH: the subset of a leaf, nothing for an internal node. */
  function Emitted(it: WorkItem): seq<BvhTri> {
    if IsLeafRule(|it.tris|, it.depth) then it.tris else []
  }

  /** What a step pushes on stackBVH: nothing for a leaf, the halves of an internal node c. */
  function Spawned(it: WorkItem, left: seq<BvhTri>, right: seq<BvhTri>, c: int): seq<WorkItem> {
    if IsLeafRule(|it.tris|, it.depth) then [] else Pushes(left, right, c, it.depth + 1)
  }

  /** The node a step appends for `it`, when trisBVH holds `at` triangles. */
  function Fresh(it: WorkItem, at: int): Node {
    if IsLeafRule(|it.tris|, it.depth) then NewNode().(start := at, len := |it.tris|, bounds := BoundsOf(it.tris))
    else NewNode().(bounds := BoundsOf(it.tris))
  }

  /** What one step does to each of the three arrays. */
  lemma StepShape(s: BuildState, it: WorkItem, left: seq<BvhTri>, right: seq<BvhTri>)
    requires it.parent < |s.nodes|
    ensures var s' := BuildNodeWith(s, it, left, right);
      var c := |s.nodes|;
      && |s'.nodes| == c + 1 && s'.nodes[c] == Fresh(it, |s.tris|)
      && (forall k :: 0 <= k < c && k != it.parent ==> s'.nodes[k] == s.nodes[k])
      && (0 <= it.parent ==> s'.nodes[it.parent] == Adopt(s.nodes[it.parent], c))
      && s'.tris == s.tris + Emitted(it)
      && s'.stack == s.stack + Spawned(it, left, right, c)
  {
    if IsLeafRule(|it.tris|, it.depth) {
      assert s.stack + [] == s.stack;
    } else {
      assert s.tris + [] == s.tris;
    }
  }

  /** trisBVH stays the concatenation of the leaves. */
  lemma StepTris(tris: seq<BvhTri>, info: seq<NodeInfo>, it: WorkItem)
    requires tris == LeafConcat(info)
    ensures tris + Emitted(it) == LeafConcat(info + [NodeInfo(it.depth, it.tris)])
  {
    LeafConcatSnoc(info, NodeInfo(it.depth, it.tris));
  }

  /** A leaf moves its subset from the stack to trisBVH. */
  lemma LeafContents(input: seq<BvhTri>, tris: seq<BvhTri>, stack: seq<WorkItem>, it: WorkItem)
    requires multiset(tris) + StackTris(stack + [it]) == multiset(input)
    ensures multiset(tris + it.tris) + StackTris(stack) == multiset(input)
  {
    PendingSplit(stack, it, -1);
  }

  /** An internal node replaces its subset on the stack by its two halves. */
  lemma InternalContents(input: seq<BvhTri>, tris: seq<BvhTri>, stack: seq<WorkItem>, it: WorkItem, left: seq<BvhTri>, right: seq<BvhTri>, c: int)
    requires multiset(tris) + StackTris(stack + [it]) == multiset(input)
    requires multiset(left) + multiset(right) == multiset(it.tris)
    ensures multiset(tris) + StackTris(stack + Pushes(left, right, c, it.depth + 1)) == multiset(input)
  {
    PendingSplit(stack, it, -1);
    PushesTotals(stack, left, right, c, it.depth + 1);
  }

  /** The triangles of trisBVH and of the stack together stay the input. */
  lemma StepContents(input: seq<BvhTri>, tris: seq<BvhTri>, stack: seq<WorkItem>, it: WorkItem, left: seq<BvhTri>, right: seq<BvhTri>, c: int)
    requires multiset(tris) + StackTris(stack + [it]) == multiset(input) && SplitOk(it, left, right)
    ensures multiset(tris + Emitted(it)) + StackTris(stack + Spawned(it, left, right, c)) == multiset(input)
  {
    var sp := Spawned(it, left, right, c);
    if IsLeafRule(|it.tris|, it.depth) {
      assert sp == [];
      assert stack + sp == stack;
      LeafContents(input, tris, stack, it);
    } else {
      assert sp == Pushes(left, right, c, it.depth + 1);
      assert tris + Emitted(it) == tris;
      InternalContents(input, tris, stack, it, left, right, c);
    }
  }

  /** The stack weight strictly drops. */
  lemma StepWeight(stack: seq<WorkItem>, it: WorkItem, left: seq<BvhTri>, right: seq<BvhTri>, c: int)
    requires it.depth <= MaxDepth + 1
    ensures StackWeight(stack + Spawned(it, left, right, c)) < StackWeight(stack + [it])
  {
    PendingSplit(stack, it, -1);
    var sp := Spawned(it, left, right, c);
    if IsLeafRule(|it.tris|, it.depth) {
      assert stack + sp == stack;
    } else {
      InternalIsLarge(|it.tris|, it.depth);
      assert sp == Pushes(left, right, c, it.depth + 1);
      PushesTotals(stack, left, right, c, it.depth + 1);
      WeightHalves(it, WorkItem(left, c, it.depth + 1));
    }
  }

  /** An entry whose parent is an old node stays well formed once a node is appended. */
  lemma ItemStays(nodes: seq<Node>, info: seq<NodeInfo>, nodes': seq<Node>, x: NodeInfo, w: WorkItem)
    requires |nodes| == |info| && |nodes'| == |nodes| + 1
    requires ItemOk(nodes, info, w) && w.parent >= 0
    ensures ItemOk(nodes', info + [x], w)
  {
    assert (info + [x])[w.parent] == info[w.parent];
  }

  /** The stack entries stay well formed across a step. */
  lemma StepItems(nodes: seq<Node>, info: seq<NodeInfo>, stack: seq<WorkItem>, it: WorkItem, left: seq<BvhTri>, right: seq<BvhTri>, nodes': seq<Node>)
    requires |nodes| == |info| && |nodes'| == |nodes| + 1 && (|nodes| == 0 ==> |stack| == 0)
    requires forall i :: 0 <= i < |stack + [it]| ==> ItemOk(nodes, info, (stack + [it])[i])
    ensures var stack' := stack + Spawned(it, left, right, |nodes|);
      forall i :: 0 <= i < |stack'| ==> ItemOk(nodes', info + [NodeInfo(it.depth, it.tris)], stack'[i])
  {
    var x := NodeInfo(it.depth, it.tris);
    var info' := info + [x];
    var pushed := Spawned(it, left, right, |nodes|);
    var stack' := stack + pushed;
    assert ItemOk(nodes, info, (stack + [it])[|stack|]);
    if !IsLeaf(x) {
      InternalIsLarge(|it.tris|, it.depth);
      assert info'[|nodes|] == x;
    }
    forall i | 0 <= i < |stack'| ensures ItemOk(nodes', info', stack'[i]) {
      if i < |stack| {
        assert ItemOk(nodes, info, (stack + [it])[i]);
        ItemStays(nodes, info, nodes', x, stack[i]);
      } else {
        assert stack'[i] == pushed[i - |stack|];
      }
    }
  }

  /** The pending sets and counts of any node q other than the new node c lose exactly `it`. */
  lemma StepPending(stack: seq<WorkItem>, it: WorkItem, left: seq<BvhTri>, right: seq<BvhTri>, c: int, q: int)
    requires q != c
    ensures PendingTris(stack + Spawned(it, left, right, c), q) == PendingTris(stack, q)
    ensures PendingCount(stack + Spawned(it, left, right, c), q) == PendingCount(stack, q)
  {
    if IsLeafRule(|it.tris|, it.depth) {
      assert stack + Spawned(it, left, right, c) == stack;
    } else {
      assert Spawned(it, left, right, c) == Pushes(left, right, c, it.depth + 1);
      PushesOther(stack, left, right, c, it.depth + 1, q);
    }
  }

  /** NodeOk of k carries over to grown arrays in which node k, its prefix and its pending entries are unchanged. */
  lemma NodeOkTransfer(nodes: seq<Node>, info: seq<NodeInfo>, stack: seq<WorkItem>,
                       nodes': seq<Node>, info': seq<NodeInfo>, stack': seq<WorkItem>, k: int)
    requires |nodes| == |info| && |nodes'| == |info'| && |info| <= |info'| && 0 <= k < |nodes|
    requires info'[..|info|] == info && nodes'[k] == nodes[k]
    requires PendingCount(stack', k) == PendingCount(stack, k) && PendingTris(stack', k) == PendingTris(stack, k)
    requires NodeOk(nodes, info, stack, k)
    ensures NodeOk(nodes', info', stack', k)
  {
    assert info'[..k] == info[..k];
    assert info'[k] == info[k];
    var n := nodes[k];
    if !IsLeaf(info[k]) {
      if n.childa != 0 {
        assert info'[n.childa] == info[n.childa];
      }
      if n.childb != 0 {
        assert info'[n.childb] == info[n.childb];
      }
      assert ChildTris(n, info') == ChildTris(n, info);
    }
  }

  /** Old nodes other than the parent keep what the invariant says of them. */
  lemma StepOldNode(nodes: seq<Node>, info: seq<NodeInfo>, stack: seq<WorkItem>, it: WorkItem, nodes': seq<Node>, stack': seq<WorkItem>, k: int)
    requires |nodes| == |info| && |nodes'| == |nodes| + 1 && 0 <= k < |nodes| && k != it.parent && nodes'[k] == nodes[k]
    requires PendingTris(stack', k) == PendingTris(stack, k) && PendingCount(stack', k) == PendingCount(stack, k)
    requires NodeOk(nodes, info, stack + [it], k)
    ensures NodeOk(nodes', info + [NodeInfo(it.depth, it.tris)], stack', k)
  {
    PendingSplit(stack, it, k);
    var info' := info + [NodeInfo(it.depth, it.tris)];
    assert info'[..|info|] == info;
    NodeOkTransfer(nodes, info, stack + [it], nodes', info', stack', k);
  }

  /** The children's subsets of the parent grow by the new child's subset. */
  lemma AdoptChildren(n: Node, info: seq<NodeInfo>, x: NodeInfo)
    requires Filled(n) < 2 && (n.childb != 0 ==> n.childa != 0)
    requires 0 <= n.childa < |info| && 0 <= n.childb < |info|
    ensures ChildTris(Adopt(n, |info|), info + [x]) == ChildTris(n, info) + multiset(x.tris)
    ensures Filled(Adopt(n, |info|)) == Filled(n) + 1 || |info| == 0
  {
    var info' := info + [x];
    assert info'[|info|] == x;
    if n.childa != 0 {
      assert info'[n.childa] == info[n.childa];
    }
  }

  /** The parent gains the new node as a child in its first free slot, and loses one pending entry. */
  lemma StepParent(nodes: seq<Node>, info: seq<NodeInfo>, stack: seq<WorkItem>, it: WorkItem, nodes': seq<Node>, stack': seq<WorkItem>)
    requires |nodes| == |info| && 0 <= it.parent < |nodes| && ItemOk(nodes, info, it)
    requires NodeOk(nodes, info, stack + [it], it.parent)
    requires |nodes'| == |nodes| + 1 && nodes'[it.parent] == Adopt(nodes[it.parent], |nodes|)
    requires PendingTris(stack', it.parent) == PendingTris(stack, it.parent) && PendingCount(stack', it.parent) == PendingCount(stack, it.parent)
    ensures NodeOk(nodes', info + [NodeInfo(it.depth, it.tris)], stack', it.parent)
  {
    var p := it.parent;
    var x := NodeInfo(it.depth, it.tris);
    var info' := info + [x];
    PendingSplit(stack, it, p);
    assert info'[p] == info[p];
    assert info'[|nodes|] == x;
    var n := nodes[p];
    AdoptChildren(n, info, x);
  }

  /** A new leaf satisfies the invariant: its range starts where the earlier leaves end. */
  lemma StepNewLeaf(nodes: seq<Node>, info: seq<NodeInfo>, stack: seq<WorkItem>, tris: seq<BvhTri>, it: WorkItem,
                    left: seq<BvhTri>, right: seq<BvhTri>, nodes': seq<Node>)
    requires |nodes| == |info| && tris == LeafConcat(info) && IsLeafRule(|it.tris|, it.depth) && it.depth <= MaxDepth + 1
    requires forall i :: 0 <= i < |stack| ==> stack[i].parent < |nodes|
    requires |nodes'| == |nodes| + 1 && nodes'[|nodes|] == Fresh(it, |tris|)
    ensures NodeOk(nodes', info + [NodeInfo(it.depth, it.tris)], stack + Spawned(it, left, right, |nodes|), |nodes|)
  {
    var info' := info + [NodeInfo(it.depth, it.tris)];
    assert info'[..|nodes|] == info;
    assert info'[|nodes|] == NodeInfo(it.depth, it.tris);
    var sp := Spawned(it, left, right, |nodes|);
    assert sp == [];
    assert stack + sp == stack;
    PendingOthers(stack, |nodes|);
  }

  /** A new internal node satisfies the invariant: its two halves are pending and it has no children yet. */
  lemma StepNewInternal(nodes: seq<Node>, info: seq<NodeInfo>, stack: seq<WorkItem>, tris: seq<BvhTri>, it: WorkItem,
                        left: seq<BvhTri>, right: seq<BvhTri>, nodes': seq<Node>)
    requires |nodes| == |info| && !IsLeafRule(|it.tris|, it.depth) && SplitOk(it, left, right)
    requires forall i :: 0 <= i < |stack| ==> stack[i].parent < |nodes|
    requires |nodes'| == |nodes| + 1 && nodes'[|nodes|] == Fresh(it, |tris|)
    ensures NodeOk(nodes', info + [NodeInfo(it.depth, it.tris)], stack + Spawned(it, left, right, |nodes|), |nodes|)
  {
    var info' := info + [NodeInfo(it.depth, it.tris)];
    assert info'[|nodes|] == NodeInfo(it.depth, it.tris);
    InternalIsLarge(|it.tris|, it.depth);
    var sp := Spawned(it, left, right, |nodes|);
    assert sp == Pushes(left, right, |nodes|, it.depth + 1);
    NewPending(stack, left, right, |nodes|, it.depth + 1);
    assert ChildTris(nodes'[|nodes|], info') == multiset{};
  }

  /** Right after node c is made, exactly its own halves are pending for it. */
  lemma NewPending(stack: seq<WorkItem>, left: seq<BvhTri>, right: seq<BvhTri>, c: int, d: nat)
    requires forall i :: 0 <= i < |stack| ==> stack[i].parent < c
    ensures PendingTris(stack + Pushes(left, right, c, d), c) == multiset(left) + multiset(right)
    ensures PendingCount(stack + Pushes(left, right, c, d), c) <= 2
  {
    PendingOthers(stack, c);
    PushesOwn(stack, left, right, c, d);
  }

  /** Every node, old and new, satisfies the invariant after a step. */
  lemma StepNodes(nodes: seq<Node>, info: seq<NodeInfo>, stack: seq<WorkItem>, tris: seq<BvhTri>, it: WorkItem,
                  left: seq<BvhTri>, right: seq<BvhTri>, nodes': seq<Node>)
    requires |nodes| == |info| && tris == LeafConcat(info) && SplitOk(it, left, right) && it.parent < |nodes|
    requires forall i :: 0 <= i < |stack + [it]| ==> ItemOk(nodes, info, (stack + [it])[i])
    requires forall k :: 0 <= k < |nodes| ==> NodeOk(nodes, info, stack + [it], k)
    requires |nodes'| == |nodes| + 1 && nodes'[|nodes|] == Fresh(it, |tris|)
    requires forall k :: 0 <= k < |nodes| && k != it.parent ==> nodes'[k] == nodes[k]
    requires 0 <= it.parent ==> nodes'[it.parent] == Adopt(nodes[it.parent], |nodes|)
    ensures var stack' := stack + Spawned(it, left, right, |nodes|);
      forall k :: 0 <= k < |nodes'| ==> NodeOk(nodes', info + [NodeInfo(it.depth, it.tris)], stack', k)
  {
    var c := |nodes|;
    var info' := info + [NodeInfo(it.depth, it.tris)];
    var stack' := stack + Spawned(it, left, right, c);
    assert ItemOk(nodes, info, (stack + [it])[|stack|]);
    forall i | 0 <= i < |stack| ensures stack[i].parent < c {
      assert ItemOk(nodes, info, (stack + [it])[i]);
    }
    forall k | 0 <= k < |nodes'| ensures NodeOk(nodes', info', stack', k) {
      if k == c && IsLeafRule(|it.tris|, it.depth) {
        StepNewLeaf(nodes, info, stack, tris, it, left, right, nodes');
      } else if k == c {
        StepNewInternal(nodes, info, stack, tris, it, left, right, nodes');
      } else {
        StepPending(stack, it, left, right, c, k);
        if k == it.parent {
          StepParent(nodes, info, stack, it, nodes', stack');
        } else {
          StepOldNode(nodes, info, stack, it, nodes', stack', k);
        }
      }
    }
  }

  /** One buildNode call keeps the invariant and lowers the stack weight. */
  lemma StepInv(input: seq<BvhTri>, s: BuildState, info: seq<NodeInfo>, it: WorkItem)
    requires Inv(input, s.(stack := s.stack + [it]), info)
    ensures it.parent < |s.nodes|
    ensures Inv(input, BuildNodeSpec(s, it), info + [NodeInfo(it.depth, it.tris)])
    ensures StackWeight(BuildNodeSpec(s, it).stack) < StackWeight(s.stack + [it])
  {
    assert ItemOk(s.nodes, info, (s.stack + [it])[|s.stack|]);
    var left, right := [], [];
    if !IsLeafRule(|it.tris|, it.depth) {
      InternalIsLarge(|it.tris|, it.depth);
      left, right := Halves(it.tris).0, Halves(it.tris).1;
    }
    assert BuildNodeSpec(s, it) == BuildNodeWith(s, it, left, right);
    var s' := BuildNodeWith(s, it, left, right);
    var c := |s.nodes|;
    StepShape(s, it, left, right);
    StepTris(s.tris, info, it);
    StepContents(input, s.tris, s.stack, it, left, right, c);
    StepWeight(s.stack, it, left, right, c);
    if |info| == 0 {
      assert s.stack + [it] == [WorkItem(input, -1, 0)];
    }
    StepItems(s.nodes, info, s.stack, it, left, right, s'.nodes);
    StepNodes(s.nodes, info, s.stack, s.tris, it, left, right, s'.nodes);
  }

  // ---- The finished tree ----

  /** The leaf concatenation of a prefix of the nodes is a prefix of the whole. */
  lemma {:induction false} LeafConcatPrefix(info: seq<NodeInfo>, j: int)
    requires 0 <= j <= |info|
    ensures |LeafConcat(info[..j])| <= |LeafConcat(info)|
    ensures LeafConcat(info)[..|LeafConcat(info[..j])|] == LeafConcat(info[..j])
    decreases |info| - j
  {
    if j < |info| {
      LeafConcatPrefix(info, j + 1);
      assert info[..j + 1][..j] == info[..j];
      assert LeafConcat(info[..j + 1]) == LeafConcat(info[..j]) + (if IsLeaf(info[j]) then info[j].tris else []);
    } else {
      assert info[..j] == info;
    }
  }

  /** Leaf k occupies exactly its own subset inside the leaf concatenation. */
  lemma LeafRange(info: seq<NodeInfo>, k: int)
    requires 0 <= k < |info| && IsLeaf(info[k])
    ensures var start := |LeafConcat(info[..k])|;
      && start + |info[k].tris| <= |LeafConcat(info)|
      && LeafConcat(info)[start..start + |info[k].tris|] == info[k].tris
  {
    LeafConcatPrefix(info, k + 1);
    assert info[..k + 1][..k] == info[..k];
    var pre := LeafConcat(info[..k]);
    assert LeafConcat(info[..k + 1]) == pre + info[k].tris;
    assert LeafConcat(info)[|pre|..|pre| + |info[k].tris|] == (pre + info[k].tris)[|pre|..];
  }

  /** Later nodes' leaf ranges start after earlier leaves' ranges end. */
  lemma LeafRangesOrdered(info: seq<NodeInfo>, k1: int, k2: int)
    requires 0 <= k1 < k2 <= |info| && IsLeaf(info[k1])
    ensures |LeafConcat(info[..k1])| + |info[k1].tris| <= |LeafConcat(info[..k2])|
  {
    LeafConcatPrefix(info[..k2], k1 + 1);
    assert info[..k2][..k1 + 1] == info[..k1 + 1];
    assert info[..k1 + 1][..k1] == info[..k1];
  }

  /** Once the stack is empty, trisBVH is a permutation of the input and node 0 is the root over all of it. */
  lemma BuiltPermutation(input: seq<BvhTri>, s: BuildState, info: seq<NodeInfo>)
    requires Inv(input, s, info) && s.stack == []
    ensures multiset(s.tris) == multiset(input)
    ensures |s.nodes| > 0 && info[0] == NodeInfo(0, input)
  {
    assert StackTris([]) == multiset{};
  }

  /** Every node's box holds every triangle of its subset, and no node is deeper than 33. */
  lemma BuiltBoxes(input: seq<BvhTri>, s: BuildState, info: seq<NodeInfo>, k: int)
    requires Inv(input, s, info) && 0 <= k < |s.nodes|
    ensures info[k].depth <= MaxDepth + 1
    ensures forall j :: 0 <= j < |info[k].tris| ==> Holds(s.nodes[k].bounds, info[k].tris[j].mi, info[k].tris[j].ma)
  {
    assert NodeOk(s.nodes, info, s.stack, k);
  }

  /** Every leaf's range of trisBVH holds exactly its subset, and it has no children. */
  lemma BuiltLeaf(input: seq<BvhTri>, s: BuildState, info: seq<NodeInfo>, k: int)
    requires Inv(input, s, info) && 0 <= k < |s.nodes| && IsLeaf(info[k])
    ensures var n := s.nodes[k];
      && 0 <= n.start && 0 <= n.len && n.start + n.len <= |s.tris| && s.tris[n.start..n.start + n.len] == info[k].tris
      && n.childa == 0 && n.childb == 0
  {
    assert NodeOk(s.nodes, info, s.stack, k);
    LeafRange(info, k);
  }

  /** Leaf ranges are disjoint and laid out in node order. */
  lemma BuiltLeavesOrdered(input: seq<BvhTri>, s: BuildState, info: seq<NodeInfo>, k1: int, k2: int)
    requires Inv(input, s, info) && 0 <= k1 < k2 < |s.nodes| && IsLeaf(info[k1]) && IsLeaf(info[k2])
    ensures s.nodes[k1].start + s.nodes[k1].len <= s.nodes[k2].start
  {
    assert NodeOk(s.nodes, info, s.stack, k1);
    assert NodeOk(s.nodes, info, s.stack, k2);
    LeafRangesOrdered(info, k1, k2);
  }

  /**
   * Once the stack is empty, an internal node has len 0 and at least one child; its child links
   * point forward, its children sit one level deeper, and their subsets together are its subset.
   */
  lemma BuiltInternal(input: seq<BvhTri>, s: BuildState, info: seq<NodeInfo>, k: int)
    requires Inv(input, s, info) && s.stack == [] && 0 <= k < |s.nodes| && !IsLeaf(info[k])
    ensures var n := s.nodes[k];
      && n.len == 0 && k < n.childa < |s.nodes|
      && (n.childb != 0 ==> k < n.childb < |s.nodes|)
      && info[n.childa].depth == info[k].depth + 1
      && ChildTris(n, info) == multiset(info[k].tris)
  {
    assert NodeOk(s.nodes, info, s.stack, k);
    InternalIsLarge(|info[k].tris|, info[k].depth);
    assert info[k].tris[0] in multiset(info[k].tris);
  }

  /** A child's box lies inside its parent's box, since its subset is part of the parent's. */
  lemma ChildBoxWithin(input: seq<BvhTri>, s: BuildState, info: seq<NodeInfo>, k: int, c: int)
    requires Inv(input, s, info) && 0 <= k < |s.nodes| && !IsLeaf(info[k])
    requires c != 0 && (c == s.nodes[k].childa || c == s.nodes[k].childb)
    ensures 0 <= c < |s.nodes| && Within(s.nodes[c].bounds, s.nodes[k].bounds)
  {
    assert NodeOk(s.nodes, info, s.stack, k);
    assert NodeOk(s.nodes, info, s.stack, c);
    var n := s.nodes[k];
    assert multiset(info[c].tris) <= ChildTris(n, info);
    BoundsOfSubset(info[c].tris, info[k].tris);
  }
}
