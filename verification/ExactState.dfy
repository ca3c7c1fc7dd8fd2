/** The exact sparse-Merkle commitment over the UTXO slot vector. */
module ExactState {
  import opened Powers
  import opened Types
  import opened Merkle

  function SlotTree(slots: seq<SlotValue>): Tree {
    Tree(ExactStateNode, SlotLeaf(EMPTY),
         seq(|slots|, i requires 0 <= i < |slots| => SlotLeaf(slots[i])))
  }

  function SlotAt(slots: seq<SlotValue>, i: nat): SlotValue {
    if i < |slots| then slots[i] else EMPTY
  }

  /** The header commitment of a slot vector of depth `depth`. */
  function StateRoot(slots: seq<SlotValue>, depth: nat): Digest {
    SlotTree(slots).At(depth, 0)
  }

  function ZeroRoot(level: nat): Digest {
    UniformRoot(ExactStateNode, SlotLeaf(EMPTY), level)
  }

  function Empties(n: nat): seq<SlotValue> {
    seq(n, i => EMPTY)
  }

  /** One level of slot-domain growth: the old vector, then as many empty slots. */
  function Expand(slots: seq<SlotValue>): seq<SlotValue> {
    slots + Empties(|slots|)
  }

  function ExpandTimes(slots: seq<SlotValue>, times: nat): seq<SlotValue> {
    if times == 0 then slots else Expand(ExpandTimes(slots, times - 1))
  }

  method ZeroSlotRoots(maxDepth: nat) returns (roots: seq<Digest>)
    ensures |roots| == maxDepth + 1
    ensures forall d :: 0 <= d <= maxDepth ==> roots[d] == ZeroRoot(d)
  {
    roots := [SlotLeaf(EMPTY)];
    for depth := 0 to maxDepth
      invariant |roots| == depth + 1
      invariant forall d :: 0 <= d <= depth ==> roots[d] == ZeroRoot(d)
    {
      var z := roots[depth];
      roots := roots + [Node(ExactStateNode, z, z)];
    }
  }

  /** `Z_d` is the commitment of a dense depth-`d` vector of empty slots. */
  lemma {:induction false} ZeroRootIsEmptyState(depth: nat)
    ensures StateRoot(Empties(Pow2(depth)), depth) == ZeroRoot(depth)
  {
    UnstoredRegion(SlotTree(Empties(Pow2(depth))), depth, 0);
  }

  lemma {:induction false} ExpandTimesLength(slots: seq<SlotValue>, depth: nat, times: nat)
    requires |slots| == Pow2(depth)
    ensures |ExpandTimes(slots, times)| == Pow2(depth + times)
  {
    if times == 0 {
    } else {
      ExpandTimesLength(slots, depth, times - 1);
    }
  }

  /** Any number of expansions keeps every old slot and reads empty above it. */
  lemma {:induction false} ExpandTimesKeepsSlots(slots: seq<SlotValue>, times: nat)
    ensures |slots| <= |ExpandTimes(slots, times)|
    ensures forall i: nat :: SlotAt(ExpandTimes(slots, times), i) == SlotAt(slots, i)
  {
    if times == 0 {
    } else {
      ExpandTimesKeepsSlots(slots, times - 1);
    }
  }

  lemma {:induction false} SlotTreeLeaf(slots: seq<SlotValue>, i: nat)
    ensures SlotTree(slots).Leaf(i) == SlotLeaf(SlotAt(slots, i))
  {}

  /** The O(1) expansion rule: the old root becomes the left child of an empty right half. */
  lemma {:induction false} ExpandRoot(slots: seq<SlotValue>, depth: nat)
    requires |slots| == Pow2(depth)
    ensures StateRoot(Expand(slots), depth + 1) == Node(ExactStateNode, StateRoot(slots, depth), ZeroRoot(depth))
  {
    var t, t' := SlotTree(slots), SlotTree(Expand(slots));
    NodeBindsLeaves(t', t, depth, 0);
    forall i: nat | Shr(i, depth) == 1
      ensures t'.Leaf(i) == t'.pad
    {
      InDomain(i, depth);
    }
    UnstoredRegion(t', depth, 1);
  }

  function WrapExpansions(root: Digest, depth: nat, times: nat): Digest {
    if times == 0 then root
    else Node(ExactStateNode, WrapExpansions(root, depth, times - 1), ZeroRoot(depth + times - 1))
  }

  /** Repeated expansion composes: each level adds one more empty right sibling. */
  lemma {:induction false} ExpandTimesRoot(slots: seq<SlotValue>, depth: nat, times: nat)
    requires |slots| == Pow2(depth)
    ensures StateRoot(ExpandTimes(slots, times), depth + times)
         == WrapExpansions(StateRoot(slots, depth), depth, times)
  {
    if times == 0 {
    } else {
      ExpandTimesRoot(slots, depth, times - 1);
      ExpandTimesLength(slots, depth, times - 1);
      ExpandRoot(ExpandTimes(slots, times - 1), depth + times - 1);
    }
  }

  /** The commitment determines every slot of the domain. */
  lemma {:induction false} StateRootBindsSlots(a: seq<SlotValue>, b: seq<SlotValue>, depth: nat)
    requires |a| == |b| == Pow2(depth)
    requires StateRoot(a, depth) == StateRoot(b, depth)
    ensures a == b
  {
    NodeBindsLeaves(SlotTree(a), SlotTree(b), depth, 0);
    forall i | 0 <= i < |a|
      ensures a[i] == b[i]
    {
      InDomain(i, depth);
      SlotTreeLeaf(a, i);
      SlotTreeLeaf(b, i);
    }
  }
}
