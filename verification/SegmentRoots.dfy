/** The two-level exact-root cache: one root per segment and a heap-ordered tree above them. */
module SegmentRoots {
  import opened Powers
  import opened Types
  import opened Merkle
  import opened ExactState

  const LOG_SEGMENT_SIZE: nat := 16

  function EffectiveLog(logSlots: nat): nat {
    if logSlots < LOG_SEGMENT_SIZE then logSlots else LOG_SEGMENT_SIZE
  }

  /** Heap node `k` is the hash of its children `2k` and `2k + 1`. */
  predicate HeapNodeOk(tree: seq<Digest>, k: nat)
    requires 2 * k + 1 < |tree|
  {
    tree[k] == Node(ExactStateNode, tree[2 * k], tree[2 * k + 1])
  }

  ghost predicate HeapOk(tree: seq<Digest>, leaves: seq<Digest>) {
    && |tree| == 2 * |leaves|
    && (forall i :: 0 <= i < |leaves| ==> tree[|leaves| + i] == leaves[i])
    && (forall k :: 1 <= k < |leaves| ==> HeapNodeOk(tree, k))
  }

  /** Heap cell `2^(u - level) + index` holds tree node `(level, index)`. */
  lemma {:induction false} HeapIsTree(tree: seq<Digest>, t: Tree, u: nat, level: nat, index: nat)
    requires HeapOk(tree, t.leaves) && |t.leaves| == Pow2(u) && t.tag == ExactStateNode
    requires level <= u && index < Pow2(u - level)
    ensures Pow2(u - level) + index < |tree|
    ensures tree[Pow2(u - level) + index] == t.At(level, index)
  {
    Pow2Monotone(u - level, u);
    if level == 0 {
    } else {
      assert Pow2(u - level + 1) == 2 * Pow2(u - level);
      HeapIsTree(tree, t, u, level - 1, 2 * index);
      HeapIsTree(tree, t, u, level - 1, 2 * index + 1);
      Pow2Monotone(u - level + 1, u);
      assert HeapNodeOk(tree, Pow2(u - level) + index);
    }
  }

  method BuildTree(segmentRoots: seq<Digest>) returns (tree: seq<Digest>)
    requires |segmentRoots| > 0
    ensures HeapOk(tree, segmentRoots)
  {
    var count := |segmentRoots|;
    tree := seq(count, i => ZeroDigest) + segmentRoots;
    var index := count;
    while index > 1
      invariant 1 <= index <= count && |tree| == 2 * count
      invariant forall i :: 0 <= i < count ==> tree[count + i] == segmentRoots[i]
      invariant forall k :: index <= k < count ==> HeapNodeOk(tree, k)
    {
      ghost var before := tree;
      index := index - 1;
      tree := tree[index := Node(ExactStateNode, tree[2 * index], tree[2 * index + 1])];
      forall k | index <= k < count
        ensures HeapNodeOk(tree, k)
      {
        if k > index {
          assert HeapNodeOk(before, k);
        }
      }
    }
  }

  class ExactSegmentRootCache {
    var logSlots: nat
    var effectiveLogSeg: nat
    var segmentRoots: seq<Digest>
    var tree: seq<Digest>

    ghost predicate Valid()
      reads this
    {
      && effectiveLogSeg == EffectiveLog(logSlots)
      && |segmentRoots| == Pow2(logSlots - effectiveLogSeg)
      && (|segmentRoots| > 1 ==> HeapOk(tree, segmentRoots))
    }

    /** The cache describes `slots`: every segment root is the root of that segment. */
    ghost predicate Describes(slots: seq<SlotValue>)
      reads this
    {
      && Valid()
      && |slots| == Pow2(logSlots)
      && forall s :: 0 <= s < |segmentRoots| ==> segmentRoots[s] == SlotTree(slots).At(effectiveLogSeg, s)
    }

    ghost function Upper(): Tree
      reads this
    {
      Tree(ExactStateNode, ZeroRoot(effectiveLogSeg), segmentRoots)
    }

    constructor Empty(logSlots: nat)
      ensures Describes(Empties(Pow2(logSlots))) && this.logSlots == logSlots
    {
      var eff := EffectiveLog(logSlots);
      var zeros := ZeroSlotRoots(eff);
      var roots := seq(Pow2(logSlots - eff), i => zeros[eff]);
      var heap := BuildTree(roots);
      this.logSlots := logSlots;
      effectiveLogSeg := eff;
      segmentRoots := roots;
      tree := heap;
      forall s | 0 <= s < |roots|
        ensures roots[s] == SlotTree(Empties(Pow2(logSlots))).At(eff, s)
      {
        UnstoredRegion(SlotTree(Empties(Pow2(logSlots))), eff, s);
      }
    }

    constructor Clone(other: ExactSegmentRootCache)
      ensures logSlots == other.logSlots && effectiveLogSeg == other.effectiveLogSeg
      ensures segmentRoots == other.segmentRoots && tree == other.tree
    {
      logSlots := other.logSlots;
      effectiveLogSeg := other.effectiveLogSeg;
      segmentRoots := other.segmentRoots;
      tree := other.tree;
    }

    /** The cached upper nodes are the nodes of the slot tree above the segments. */
    lemma {:induction false} UpperIsSlotTree(slots: seq<SlotValue>, level: nat, index: nat)
      requires Describes(slots)
      ensures SlotTree(slots).At(effectiveLogSeg + level, index) == Upper().At(level, index)
    {
      forall i: nat
        ensures Upper().Leaf(i) == SlotTree(slots).At(effectiveLogSeg, i)
      {
        if i >= |segmentRoots| {
          BeyondDomain(slots, logSlots, effectiveLogSeg, i);
        }
      }
      UpperTree(SlotTree(slots), Upper(), effectiveLogSeg, level, index);
    }

    method Root(ghost slots: seq<SlotValue>) returns (root: Digest)
      requires Valid()
      ensures root == Upper().At(logSlots - effectiveLogSeg, 0)
      ensures Describes(slots) ==> root == StateRoot(slots, logSlots)
    {
      if |segmentRoots| == 1 {
        root := segmentRoots[0];
        SingleLeaf(logSlots - effectiveLogSeg);
      } else {
        root := tree[1];
        HeapIsTree(tree, Upper(), logSlots - effectiveLogSeg, logSlots - effectiveLogSeg, 0);
      }
      if Describes(slots) {
        UpperIsSlotTree(slots, logSlots - effectiveLogSeg, 0);
      }
    }

    /** Replace one segment root and rehash only its ancestors. */
    method SetSegmentRoot(segment: nat, root: Digest)
      requires Valid() && segment < |segmentRoots|
      modifies this`segmentRoots, this`tree
      ensures Valid() && segmentRoots == old(segmentRoots)[segment := root]
    {
      segmentRoots := segmentRoots[segment := root];
      if |segmentRoots| == 1 {
        return;
      }
      ghost var initial := tree;
      var count := |segmentRoots|;
      var node := count + segment;
      tree := tree[node := root];
      forall k | 1 <= k < count && !IsAncestor(k, node)
        ensures HeapNodeOk(tree, k)
      {
        AncestorParent(k, node);
        assert HeapNodeOk(initial, k);
      }
      while node > 1
        invariant segmentRoots == old(segmentRoots)[segment := root]
        invariant 1 <= node < |tree| == 2 * count
        invariant forall i :: 0 <= i < count ==> tree[count + i] == segmentRoots[i]
        invariant forall k :: 1 <= k < count && !IsAncestor(k, node) ==> HeapNodeOk(tree, k)
      {
        ghost var before := tree;
        ghost var child := node;
        node := node / 2;
        tree := tree[node := Node(ExactStateNode, tree[2 * node], tree[2 * node + 1])];
        forall k | 1 <= k < count && !IsAncestor(k, node)
          ensures HeapNodeOk(tree, k)
        {
          AncestorStep(k, child);
          AncestorParent(k, node);
          if k != node {
            assert HeapNodeOk(before, k);
          }
        }
      }
      forall k | 1 <= k < count
        ensures HeapNodeOk(tree, k)
      {
        RootHasNoAncestor(k);
      }
    }

    /** The cached hash of node `(level, index)` above the segments. */
    method SegmentNodeHash(level: nat, nodeIndex: nat) returns (hash: Option<Digest>)
      requires Valid()
      ensures hash == if level <= logSlots - effectiveLogSeg && nodeIndex < Pow2(logSlots - effectiveLogSeg - level)
                      then Some(Upper().At(level, nodeIndex)) else None
    {
      var upperDepth := logSlots - effectiveLogSeg;
      if level > upperDepth || nodeIndex >= Pow2(upperDepth - level) {
        return None;
      }
      Pow2Monotone(upperDepth - level, upperDepth);
      if level == 0 {
        return Some(segmentRoots[nodeIndex]);
      }
      HeapIsTree(tree, Upper(), upperDepth, level, nodeIndex);
      hash := Some(tree[Pow2(upperDepth - level) + nodeIndex]);
    }

    /** Grow the domain by one level without reading a slot. */
    method ExpandOne(ghost slots: seq<SlotValue>)
      requires Describes(slots)
      modifies this
      ensures Describes(Expand(slots)) && logSlots == old(logSlots) + 1
    {
      var oldLog := logSlots;
      var oldRoot := Root(slots);
      logSlots := logSlots + 1;
      ExpandRoot(slots, oldLog);
      if logSlots <= LOG_SEGMENT_SIZE {
        effectiveLogSeg := logSlots;
        var zeros := ZeroSlotRoots(oldLog);
        segmentRoots := segmentRoots[0 := Node(ExactStateNode, oldRoot, zeros[oldLog])];
        tree := BuildTree(segmentRoots);
        return;
      }
      var zeros := ZeroSlotRoots(effectiveLogSeg);
      var zeroSegment := zeros[effectiveLogSeg];
      ghost var oldRoots := segmentRoots;
      segmentRoots := segmentRoots + seq(|segmentRoots|, i => zeroSegment);
      tree := BuildTree(segmentRoots);
      DoubledRoots(slots, oldLog, effectiveLogSeg, oldRoots, segmentRoots);
    }
  }

  /** Doubling the segments with empty ones gives the segment roots of the expanded vector. */
  lemma {:induction false} DoubledRoots(slots: seq<SlotValue>, logSlots: nat, eff: nat, roots: seq<Digest>,
                                        doubled: seq<Digest>)
    requires |slots| == Pow2(logSlots) && eff <= logSlots && |roots| == Pow2(logSlots - eff)
    requires forall s :: 0 <= s < |roots| ==> roots[s] == SlotTree(slots).At(eff, s)
    requires doubled == roots + seq(|roots|, i => ZeroRoot(eff))
    ensures forall s :: 0 <= s < |doubled| ==> doubled[s] == SlotTree(Expand(slots)).At(eff, s)
  {
    forall s | 0 <= s < |doubled|
      ensures doubled[s] == SlotTree(Expand(slots)).At(eff, s)
    {
      NodeBindsLeaves(SlotTree(Expand(slots)), SlotTree(slots), eff, s);
      assert SlotTree(Expand(slots)).At(eff, s) == SlotTree(slots).At(eff, s);
      if s >= |roots| {
        BeyondDomain(slots, logSlots, eff, s);
      }
    }
  }

  lemma {:induction false} SingleLeaf(u: nat)
    ensures Pow2(u) == 1 <==> u == 0
  {}

  /** Nodes past the end of the domain are uniformly empty. */
  lemma {:induction false} BeyondDomain(slots: seq<SlotValue>, logSlots: nat, level: nat, index: nat)
    requires |slots| == Pow2(logSlots) && level <= logSlots && index >= Pow2(logSlots - level)
    ensures SlotTree(slots).At(level, index) == ZeroRoot(level)
  {
    forall i: nat | Shr(i, level) == index
      ensures i >= |slots|
    {
      InDomain(index, logSlots - level);
      ShrSum(i, level, logSlots - level);
      InDomain(i, logSlots);
    }
    UnstoredRegion(SlotTree(slots), level, index);
  }

  /** Heap ancestry: `k` is reached from `node` by halving at least once. */
  predicate IsAncestor(k: nat, node: nat)
    decreases node
  {
    node > 1 && (node / 2 == k || IsAncestor(k, node / 2))
  }

  lemma {:induction false} AncestorStep(k: nat, node: nat)
    requires node > 1
    ensures IsAncestor(k, node) <==> k == node / 2 || IsAncestor(k, node / 2)
  {}

  lemma {:induction false} AncestorParent(k: nat, node: nat)
    requires k >= 1
    ensures 2 * k == node || 2 * k + 1 == node ==> IsAncestor(k, node)
  {}

  lemma {:induction false} RootHasNoAncestor(k: nat)
    ensures !IsAncestor(k, 1)
  {}
}
