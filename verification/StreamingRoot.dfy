/** The O(depth)-memory sparse root builder: non-empty leaves arrive in index order and the gaps
    between them are filled with maximal aligned empty subtrees. */
module StreamingRoot {
  import opened Powers
  import opened Types
  import opened Merkle
  import opened ExactState

  datatype Pending = Pending(level: nat, hash: Digest)

  /** The pending subtrees of the first `count` nodes at `level`: one per set bit of `count`,
      highest first. */
  ghost function PendingOf(t: Tree, level: nat, count: nat): seq<Pending>
    decreases count
  {
    if count == 0 then []
    else PendingOf(t, level + 1, count / 2)
         + (if count % 2 == 1 then [Pending(level, t.At(level, count - 1))] else [])
  }

  lemma {:induction false} PendingLevels(t: Tree, level: nat, count: nat)
    ensures forall k :: 0 <= k < |PendingOf(t, level, count)| ==> PendingOf(t, level, count)[k].level >= level
    decreases count
  {
    if count == 0 {
    } else {
      PendingLevels(t, level + 1, count / 2);
    }
  }

  lemma {:induction false} PendingScales(t: Tree, level: nat, count: nat)
    ensures PendingOf(t, 0, Shl(count, level)) == PendingOf(t, level, count)
  {
    if level == 0 {
    } else {
      PendingScales(t, level - 1, 2 * count);
      ShlDouble(count, level - 1);
    }
  }

  /** Pending subtrees depend only on the leaves already consumed. */
  lemma {:induction false} PendingAgree(s: Tree, t: Tree, level: nat, count: nat)
    requires s.tag == t.tag
    requires forall i: nat :: Shr(i, level) < count ==> s.Leaf(i) == t.Leaf(i)
    ensures PendingOf(s, level, count) == PendingOf(t, level, count)
    decreases count
  {
    if count == 0 {
    } else {
      forall i: nat | Shr(i, level + 1) < count / 2
        ensures s.Leaf(i) == t.Leaf(i)
      {
        assert Shr(i, level) < count;
      }
      PendingAgree(s, t, level + 1, count / 2);
      if count % 2 == 1 {
        NodeBindsLeaves(s, t, level, count - 1);
      }
    }
  }

  /** The last pending subtree sits at `level` exactly when the count of nodes there is odd. */
  lemma {:induction false} OpenMeansOdd(t: Tree, level: nat, count: nat)
    requires var stack := PendingOf(t, level, count); |stack| > 0 && stack[|stack| - 1].level == level
    ensures count % 2 == 1
  {
    if count % 2 == 0 {
      PendingLevels(t, level + 1, count / 2);
      assert false;
    }
  }

  lemma {:induction false} ClosedMeansEven(t: Tree, level: nat, count: nat)
    requires var stack := PendingOf(t, level, count); |stack| == 0 || stack[|stack| - 1].level != level
    ensures count % 2 == 0
    ensures PendingOf(t, level, count + 1) == PendingOf(t, level, count) + [Pending(level, t.At(level, count))]
  {
    if count == 0 {
      assert PendingOf(t, level + 1, 0) == [];
    }
  }

  /** A new node beside a pending one closes the pair one level up. */
  lemma {:induction false} MergeUp(t: Tree, level: nat, count: nat)
    requires count % 2 == 1
    ensures PendingOf(t, level, count) == PendingOf(t, level + 1, count / 2) + [Pending(level, t.At(level, count - 1))]
    ensures PendingOf(t, level, count + 1) == PendingOf(t, level + 1, count / 2 + 1)
    ensures t.At(level + 1, count / 2) == Node(t.tag, t.At(level, count - 1), t.At(level, count))
  {
    assert (count + 1) / 2 == count / 2 + 1 && (count + 1) % 2 == 0;
  }

  /** Trailing zero bits of a positive position. */
  function TrailingZeros(n: nat): (z: nat)
    requires n > 0
    ensures Shl(Shr(n, z), z) == n
  {
    if n % 2 == 1 then 0
    else
      var z := TrailingZeros(n / 2);
      ShrSum(n, 1, z);
      assert Shr(n, 1) == n / 2 by { assert Shr(n, 0) == n; }
      z + 1
  }

  /** The index of the highest set bit. */
  function FloorLog2(n: nat): (k: nat)
    requires n > 0
    ensures Pow2(k) <= n < Pow2(k + 1)
  {
    if n == 1 then 0 else FloorLog2(n / 2) + 1
  }

  lemma {:induction false} AlignedBelow(n: nat, z: nat, level: nat)
    requires Shl(Shr(n, z), z) == n && level <= z
    ensures Shl(Shr(n, level), level) == n
    decreases z
  {
    if level >= z {
    } else {
      var half := Shr(n, z);
      ShlDouble(half, z - 1);
      ShrShl(2 * half, z - 1);
      AlignedBelow(n, z - 1, level);
    }
  }

  class StreamingSparseRoot {
    const depth: nat
    var position: nat
    var zeroRoots: seq<Digest>
    var stack: seq<Pending>
    ghost var leaves: seq<Digest>

    ghost function Consumed(): Tree
      reads this
    {
      Tree(ExactStateNode, SlotLeaf(EMPTY), leaves)
    }

    /** The accumulator of `leaves`. One leaf past the domain is representable: `PushLeaf` lets a
        leaf in at `2^depth`, and `Finish` is where it is noticed. */
    ghost predicate Valid()
      reads this
    {
      && |leaves| == position <= Pow2(depth) + 1
      && |zeroRoots| == depth + 1
      && (forall d :: 0 <= d <= depth ==> zeroRoots[d] == ZeroRoot(d))
      && stack == PendingOf(Consumed(), 0, position)
    }

    constructor (depth: nat)
      ensures Valid() && leaves == [] && this.depth == depth
    {
      this.depth := depth;
      position := 0;
      stack := [];
      leaves := [];
      var roots := ZeroSlotRoots(depth);
      zeroRoots := roots;
    }

    /** Merge equal-level neighbours until the new block can be pushed. */
    method AppendBlock(startLevel: nat, startHash: Digest, ghost t: Tree, ghost start: nat)
      requires stack == PendingOf(t, startLevel, start)
      requires startHash == t.At(startLevel, start) && t.tag == ExactStateNode
      modifies this`stack
      ensures stack == PendingOf(t, startLevel, start + 1)
    {
      var level, hash := startLevel, startHash;
      ghost var count := start;
      while |stack| > 0 && stack[|stack| - 1].level == level
        invariant level >= startLevel
        invariant stack == PendingOf(t, level, count)
        invariant hash == t.At(level, count)
        invariant PendingOf(t, level, count + 1) == PendingOf(t, startLevel, start + 1)
        decreases count
      {
        OpenMeansOdd(t, level, count);
        MergeUp(t, level, count);
        ghost var below := PendingOf(t, level + 1, count / 2);
        assert stack == below + [Pending(level, t.At(level, count - 1))];
        var left := stack[|stack| - 1].hash;
        stack := stack[..|stack| - 1];
        assert stack == below;
        hash := Node(ExactStateNode, left, hash);
        level := level + 1;
        count := count / 2;
      }
      ClosedMeansEven(t, level, count);
      stack := stack + [Pending(level, hash)];
    }

    /** Consume empty slots up to `end`, one maximal aligned subtree at a time. */
    method FillZeroGap(end: nat) returns (ok: bool)
      requires Valid()
      modifies this
      ensures Valid() && zeroRoots == old(zeroRoots)
      ensures ok <==> old(position) <= end <= Pow2(depth)
      ensures ok ==> position == end && leaves == old(leaves) + seq(end - old(position), i => SlotLeaf(EMPTY))
      ensures !ok ==> position == old(position) && leaves == old(leaves) && stack == old(stack)
    {
      if end < position || end > Pow2(depth) {
        return false;
      }
      while position < end
        invariant Valid() && zeroRoots == old(zeroRoots)
        invariant old(position) <= position <= end
        invariant leaves == old(leaves) + seq(position - old(position), i => SlotLeaf(EMPTY))
      {
        var remaining := end - position;
        var byRemaining := FloorLog2(remaining);
        var byAlignment := if position == 0 then depth
                           else if TrailingZeros(position) < depth then TrailingZeros(position) else depth;
        var level := if byRemaining < byAlignment then byRemaining else byAlignment;
        BlockFits(remaining, byRemaining, level);
        assert Shl(Shr(position, level), level) == position by {
          if position == 0 {
            ShrShl(0, level);
            ZeroShl(level);
          } else {
            AlignedBelow(position, TrailingZeros(position), level);
          }
        }
        AppendEmptyBlock(level);
      }
      ok := true;
    }

    method AppendEmptyBlock(level: nat)
      requires Valid() && level <= depth
      requires Shl(Shr(position, level), level) == position
      requires position + Pow2(level) <= Pow2(depth)
      modifies this
      ensures Valid() && zeroRoots == old(zeroRoots)
      ensures position == old(position) + Pow2(level)
      ensures leaves == old(leaves) + seq(Pow2(level), i => SlotLeaf(EMPTY))
    {
      ghost var t, block := Consumed(), Shr(position, level);
      EmptyBlockStep(t, level, block);
      AppendBlock(level, zeroRoots[level], t, block);
      leaves := leaves + seq(Pow2(level), i => SlotLeaf(EMPTY));
      position := position + Pow2(level);
    }

    /** Consume the next non-empty leaf; leaves must arrive in strictly increasing order. The range
        test is the one of the gap before the leaf, so `2^depth` itself passes it. */
    method PushLeaf(index: nat, hash: Digest) returns (ok: bool)
      requires Valid()
      modifies this
      ensures Valid() && zeroRoots == old(zeroRoots)
      ensures ok <==> old(position) <= index <= Pow2(depth)
      ensures ok ==> position == index + 1
      ensures ok ==> leaves == old(leaves) + seq(index - old(position), i => SlotLeaf(EMPTY)) + [hash]
      ensures !ok ==> position == old(position) && leaves == old(leaves) && stack == old(stack)
    {
      ok := FillZeroGap(index);
      if ok {
        ghost var t := Consumed();
        ghost var t' := t.(leaves := leaves + [hash]);
        PendingAgree(t, t', 0, position);
        AppendBlock(0, hash, t', position);
        leaves := leaves + [hash];
        position := index + 1;
      }
    }

    /** Close the tree: one pending subtree is left and it is the root of the whole domain. It fails
        exactly on an overfull accumulator. */
    method Finish() returns (root: Option<Digest>)
      requires Valid()
      modifies this
      ensures root.None? <==> old(position) == Pow2(depth) + 1
      ensures root.Some? ==> root == Some(Tree(ExactStateNode, SlotLeaf(EMPTY), old(leaves)).At(depth, 0))
    {
      ghost var t := Consumed();
      var ok := FillZeroGap(Pow2(depth));
      if !ok {
        return None;
      }
      ghost var t' := Consumed();
      FullPending(t', depth);
      NodeBindsLeaves(t, t', depth, 0);
      root := if |stack| == 1 && stack[0].level == depth then Some(stack[0].hash) else None;
    }
  }

  lemma {:induction false} FullPending(t: Tree, depth: nat)
    ensures PendingOf(t, 0, Pow2(depth)) == [Pending(depth, t.At(depth, 0))]
  {
    ShlIsProduct(1, depth);
    PendingScales(t, depth, 1);
    assert PendingOf(t, depth + 1, 0) == [];
  }

  // A whole stream of leaves.

  datatype Entry = Entry(index: nat, hash: Digest)

  predicate Increasing(entries: seq<Entry>) {
    forall i, j :: 0 <= i < j < |entries| ==> entries[i].index < entries[j].index
  }

  /** Which leaf a stream puts at a position: the entry there, or an empty slot. */
  ghost predicate Holds(entries: seq<Entry>, leaves: seq<Digest>) {
    && (forall k :: 0 <= k < |entries| ==>
          entries[k].index < |leaves| && leaves[entries[k].index] == entries[k].hash)
    && (forall i :: 0 <= i < |leaves| && (forall k :: 0 <= k < |entries| ==> entries[k].index != i) ==>
          leaves[i] == SlotLeaf(EMPTY))
  }

  datatype StreamResult = Root(root: Digest) | PushRefused(entry: nat) | FinishRefused

  /** Push every entry and finish, stopping at the first refusal, as the storage layer does. The
      stream as a whole succeeds exactly on increasing entries inside the domain. An entry behind
      its predecessor or beyond `2^depth` is refused when it is pushed; one at `2^depth` only at the
      end, or by the entry after it. */
  method StreamRoot(depth: nat, entries: seq<Entry>) returns (r: StreamResult, ghost leaves: seq<Digest>)
    ensures r.Root? <==> Increasing(entries) && forall k :: 0 <= k < |entries| ==> entries[k].index < Pow2(depth)
    ensures r.Root? ==> Holds(entries, leaves) && r.root == Tree(ExactStateNode, SlotLeaf(EMPTY), leaves).At(depth, 0)
    ensures r.FinishRefused? <==>
            Increasing(entries) && |entries| > 0 && entries[|entries| - 1].index == Pow2(depth)
    ensures r.PushRefused? ==>
              && r.entry < |entries| && Increasing(entries[..r.entry])
              && (forall k :: 0 <= k < r.entry ==> entries[k].index <= Pow2(depth))
              && (entries[r.entry].index > Pow2(depth)
                  || (r.entry > 0 && entries[r.entry].index <= entries[r.entry - 1].index))
  {
    var stream := new StreamingSparseRoot(depth);
    for k := 0 to |entries|
      invariant fresh(stream) && stream.Valid() && stream.depth == depth
      invariant Increasing(entries[..k]) && Holds(entries[..k], stream.leaves)
      invariant forall j :: 0 <= j < k ==> entries[j].index <= Pow2(depth)
      invariant stream.position == if k == 0 then 0 else entries[k - 1].index + 1
    {
      ghost var before := stream.leaves;
      var ok := stream.PushLeaf(entries[k].index, entries[k].hash);
      if !ok {
        RefusedStream(entries, k, Pow2(depth));
        return PushRefused(k), before;
      }
      OneMoreEntry(entries, k, before, stream.leaves);
    }
    assert entries[..|entries|] == entries;
    FinishedStream(entries, Pow2(depth));
    leaves := stream.leaves;
    var root := stream.Finish();
    r := if root.None? then FinishRefused else Root(root.value);
  }

  lemma {:induction false} RefusedStream(entries: seq<Entry>, k: nat, limit: nat)
    requires k < |entries|
    requires entries[k].index > limit || (k > 0 && entries[k].index <= entries[k - 1].index)
    ensures Increasing(entries) ==> entries[|entries| - 1].index > limit
  {
    if Increasing(entries) && k < |entries| - 1 {
      assert entries[k].index < entries[|entries| - 1].index;
    }
  }

  lemma {:induction false} FinishedStream(entries: seq<Entry>, limit: nat)
    requires Increasing(entries) && forall k :: 0 <= k < |entries| ==> entries[k].index <= limit
    ensures (forall k :: 0 <= k < |entries| ==> entries[k].index < limit) <==>
            |entries| == 0 || entries[|entries| - 1].index != limit
  {
    if |entries| > 0 {
      var last := |entries| - 1;
      assert forall k :: 0 <= k < last ==> entries[k].index < entries[last].index;
    }
  }

  lemma {:induction false} OneMoreEntry(entries: seq<Entry>, k: nat, before: seq<Digest>, after: seq<Digest>)
    requires k < |entries| && Increasing(entries[..k]) && Holds(entries[..k], before)
    requires |before| == if k == 0 then 0 else entries[k - 1].index + 1
    requires |before| <= entries[k].index
    requires after == before + seq(entries[k].index - |before|, i => SlotLeaf(EMPTY)) + [entries[k].hash]
    ensures Increasing(entries[..k + 1]) && Holds(entries[..k + 1], after)
  {
    var shorter, longer := entries[..k], entries[..k + 1];
    assert longer == shorter + [entries[k]];
    assert k > 0 ==> shorter[k - 1] == entries[k - 1];
    forall i | 0 <= i < |after| && (forall j :: 0 <= j < |longer| ==> longer[j].index != i)
      ensures after[i] == SlotLeaf(EMPTY)
    {
      assert longer[k].index != i;
      assert forall j :: 0 <= j < k ==> longer[j] == shorter[j];
    }
  }

  lemma {:induction false} BlockFits(remaining: nat, byRemaining: nat, level: nat)
    requires level <= byRemaining && Pow2(byRemaining) <= remaining
    ensures Pow2(level) <= remaining
  {
    Pow2Monotone(level, byRemaining);
  }

  /** Appending one aligned block of empty leaves to the consumed prefix of `t`. */
  lemma {:induction false} EmptyBlockStep(t: Tree, level: nat, block: nat)
    requires t.tag == ExactStateNode && t.pad == SlotLeaf(EMPTY)
    requires Shl(block, level) == |t.leaves|
    ensures t.At(level, block) == ZeroRoot(level)
    ensures PendingOf(t, level, block) == PendingOf(t, 0, |t.leaves|)
    ensures var grown := t.(leaves := t.leaves + seq(Pow2(level), i => SlotLeaf(EMPTY)));
            PendingOf(t, level, block + 1) == PendingOf(grown, 0, |grown.leaves|)
  {
    forall i: nat | Shr(i, level) == block
      ensures t.Leaf(i) == t.pad
    {
      var offset := Offset(i, level);
    }
    UnstoredRegion(t, level, block);
    PendingScales(t, level, block);
    PendingScales(t, level, block + 1);
    ShlSucc(block, level);
    var grown := t.(leaves := t.leaves + seq(Pow2(level), i => SlotLeaf(EMPTY)));
    PendingAgree(t, grown, 0, |grown.leaves|);
  }

  /** The slot a segment stream reads: a pending update, else the stored column, else empty. */
  function MergedSlot(columns: Option<seq<SlotValue>>, updates: map<nat, SlotValue>, local: nat): SlotValue {
    if local in updates then updates[local]
    else match columns
      case None => EMPTY
      case Some(stored) => SlotAt(stored, local)
  }

  function MergedSlots(columns: Option<seq<SlotValue>>, updates: map<nat, SlotValue>, count: nat): seq<SlotValue> {
    seq(count, i requires 0 <= i => MergedSlot(columns, updates, i))
  }

  /** `exact_segment_root_with_updates`: stream the non-empty slots of one segment. */
  method SegmentRoot(effectiveLog: nat, columns: Option<seq<SlotValue>>, updates: map<nat, SlotValue>)
    returns (root: Option<Digest>)
    ensures root == Some(StateRoot(MergedSlots(columns, updates, Pow2(effectiveLog)), effectiveLog))
    ensures forall i :: 0 <= i < Pow2(effectiveLog) ==>
              MergedSlots(columns, updates, Pow2(effectiveLog))[i]
              == if i in updates then updates[i]
                 else if columns.Some? && i < |columns.value| then columns.value[i] else EMPTY
  {
    var stream := new StreamingSparseRoot(effectiveLog);
    for local := 0 to Pow2(effectiveLog)
      invariant fresh(stream)
      invariant stream.Valid() && stream.depth == effectiveLog && stream.position <= local
      invariant forall i: nat :: i < local ==> stream.Consumed().Leaf(i) == SlotLeaf(MergedSlot(columns, updates, i))
    {
      var slot := MergedSlot(columns, updates, local);
      if !slot.IsEmpty() {
        var ok := stream.PushLeaf(local, SlotLeaf(slot));
      }
    }
    ghost var slots := MergedSlots(columns, updates, Pow2(effectiveLog));
    NodeBindsLeaves(stream.Consumed(), SlotTree(slots), effectiveLog, 0);
    root := stream.Finish();
  }

  /** `exact_local_subtree_root`: stream `2^level` columns from `localStart`. */
  method LocalSubtreeRoot(columns: Option<seq<SlotValue>>, localStart: nat, level: nat) returns (root: Option<Digest>)
    requires columns.Some? ==> localStart + Pow2(level) <= |columns.value|
    ensures root == Some(match columns
                         case None => ZeroRoot(level)
                         case Some(stored) => StateRoot(stored[localStart..localStart + Pow2(level)], level))
  {
    if columns.None? {
      var zeros := ZeroSlotRoots(level);
      return Some(zeros[level]);
    }
    var slice := columns.value[localStart..localStart + Pow2(level)];
    root := SegmentRoot(level, Some(slice), map[]);
    assert MergedSlots(Some(slice), map[], Pow2(level)) == slice;
  }
}
