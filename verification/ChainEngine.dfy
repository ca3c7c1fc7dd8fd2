/** The mutable chain state: segmented slots, the exact-root cache over them, and the counters. */
module ChainEngine {
  import opened Powers
  import opened Types
  import opened Merkle
  import opened ExactState
  import opened StreamingRoot
  import opened SegmentRoots
  import opened SlotVector
  import opened SegmentedState
  import opened Frontier
  import opened FrontierSoundness

  datatype ExactFrontierError =
    | SparseMerkle(error: SparseMerkleError)
    | CacheDepthMismatch(cacheDepth: nat, requestedDepth: nat)
    | CompactRootMismatch

  lemma {:induction false} SplitIndex(s: nat, i: nat, n: nat)
    requires i < Pow2(n)
    ensures Shr(Shl(s, n) + i, n) == s && Offset(Shl(s, n) + i, n) == i
  {
    ShlIsProduct(s, n);
    ShrIsQuotient(Shl(s, n) + i, n);
    QuotientUnique(Shl(s, n) + i, Pow2(n), s, i);
  }

  /** Nodes inside a segment are nodes of the segment's own tree. */
  lemma {:induction false} SegmentSubtree(segments: seq<Columns>, logSlots: nat, effectiveLog: nat, s: nat, level: nat,
                                          index: nat)
    requires effectiveLog <= logSlots && |segments| == Pow2(logSlots - effectiveLog)
    requires s < |segments| && |Dense(segments[s], effectiveLog)| == Pow2(effectiveLog)
    requires level <= effectiveLog && index < Pow2(effectiveLog - level)
    ensures SlotTree(Dense(segments[s], effectiveLog)).At(level, index)
         == SlotTree(Flat(segments, logSlots, effectiveLog)).At(level, Shl(s, effectiveLog - level) + index)
  {
    var flat := Flat(segments, logSlots, effectiveLog);
    var t, local := SlotTree(flat), SlotTree(Dense(segments[s], effectiveLog));
    forall i: nat | Shr(i, effectiveLog) == 0
      ensures local.Leaf(i) == t.Leaf(Shl(s, effectiveLog) + i)
    {
      InDomain(i, effectiveLog);
      SplitIndex(s, i, effectiveLog);
      var x := Shl(s, effectiveLog) + i;
      ShrSum(x, effectiveLog, logSlots - effectiveLog);
      InDomain(s, logSlots - effectiveLog);
      InDomain(x, logSlots);
      assert flat[x] == FlatAt(segments, effectiveLog, x);
    }
    InDomain(index, effectiveLog - level);
    LocalTree(t, local, effectiveLog, s, level, index);
  }

  lemma {:induction false} SegmentRootIsNode(segments: seq<Columns>, logSlots: nat, effectiveLog: nat, s: nat)
    requires effectiveLog <= logSlots && |segments| == Pow2(logSlots - effectiveLog)
    requires s < |segments| && |Dense(segments[s], effectiveLog)| == Pow2(effectiveLog)
    ensures StateRoot(MergedSlots(segments[s], map[], Pow2(effectiveLog)), effectiveLog)
         == SlotTree(Flat(segments, logSlots, effectiveLog)).At(effectiveLog, s)
  {
    SegmentSubtree(segments, logSlots, effectiveLog, s, effectiveLog, 0);
    assert MergedSlots(segments[s], map[], Pow2(effectiveLog)) == Dense(segments[s], effectiveLog);
  }

  lemma {:induction false} NothingDirty(a: seq<SlotValue>, b: seq<SlotValue>, effectiveLog: nat)
    requires |a| == |b| && CleanAgree(a, b, effectiveLog, {})
    ensures a == b
  {
    forall i | 0 <= i < |a|
      ensures a[i] == b[i]
    {
      NodeBindsLeaves(SlotTree(a), SlotTree(b), effectiveLog, Shr(i, effectiveLog));
      SlotTreeLeaf(a, i);
      SlotTreeLeaf(b, i);
    }
  }

  lemma {:induction false} ExpandKeepsClean(a: seq<SlotValue>, b: seq<SlotValue>, effectiveLog: nat, dirty: set<nat>)
    requires CleanAgree(a, b, effectiveLog, dirty)
    ensures CleanAgree(Expand(a), Expand(b), effectiveLog, dirty)
  {
    forall s: nat | s !in dirty
      ensures SlotTree(Expand(a)).At(effectiveLog, s) == SlotTree(Expand(b)).At(effectiveLog, s)
    {
      NodeBindsLeaves(SlotTree(a), SlotTree(Expand(a)), effectiveLog, s);
      NodeBindsLeaves(SlotTree(b), SlotTree(Expand(b)), effectiveLog, s);
    }
  }

  class ChainState {
    var state: SegmentedFriState
    var exactRoots: ExactSegmentRootCache
    var utxoRoot: Digest
    var activeSlotCount: u64
    var allocCounter: u64
    var circulatingSupply: u128
    ghost var sealed: seq<SlotValue>

    /** The cache describes the slots as they were last sealed; only dirty segments have moved on. */
    ghost predicate Valid()
      reads this, state, exactRoots
    {
      && state.Valid()
      && exactRoots.logSlots == state.logSlots
      && exactRoots.Describes(sealed)
      && utxoRoot == StateRoot(sealed, state.logSlots)
      && CleanAgree(sealed, state.Slots(), state.effectiveLogSeg, state.exactDirty)
    }

    ghost function Slots(): seq<SlotValue>
      requires state.Valid()
      reads this, state
    {
      state.Slots()
    }

    constructor WithLogSlots(logSlots: nat)
      ensures Valid() && fresh(state) && fresh(exactRoots)
      ensures state.logSlots == logSlots && Slots() == Empties(Pow2(logSlots))
      ensures activeSlotCount == 0 && allocCounter == 0 && circulatingSupply == 0
      ensures utxoRoot == StateRoot(Slots(), logSlots)
    {
      var zeros := ZeroSlotRoots(logSlots);
      state := new SegmentedFriState.NewEmpty(logSlots);
      exactRoots := new ExactSegmentRootCache.Empty(logSlots);
      utxoRoot := zeros[logSlots];
      activeSlotCount, allocCounter, circulatingSupply := 0, 0, 0;
      sealed := Empties(Pow2(logSlots));
      ZeroRootIsEmptyState(logSlots);
    }

    constructor Clone(other: ChainState)
      requires other.Valid()
      ensures Valid() && fresh(state) && fresh(exactRoots)
      ensures state.logSlots == other.state.logSlots && Slots() == other.Slots()
      ensures state.exactDirty == other.state.exactDirty && utxoRoot == other.utxoRoot
      ensures activeSlotCount == other.activeSlotCount && allocCounter == other.allocCounter
      ensures circulatingSupply == other.circulatingSupply
    {
      state := new SegmentedFriState.Clone(other.state);
      exactRoots := new ExactSegmentRootCache.Clone(other.exactRoots);
      utxoRoot := other.utxoRoot;
      activeSlotCount := other.activeSlotCount;
      allocCounter := other.allocCounter;
      circulatingSupply := other.circulatingSupply;
      sealed := other.sealed;
    }

    method ApplyDelta(writes: seq<Write>) returns (ok: bool)
      requires Valid()
      modifies state
      ensures Valid() && state.logSlots == old(state.logSlots)
      ensures ok <==> InRange(writes, Pow2(state.logSlots))
      ensures Slots() == if ok then WriteAll(old(Slots()), writes) else old(Slots())
    {
      ok := state.ApplyDeltaUnrooted(writes);
    }

    /** Grow the domain one level; the root update needs no slot. */
    method ExpandOne()
      requires Valid()
      modifies this, state, exactRoots
      ensures Valid() && state == old(state) && exactRoots == old(exactRoots)
      ensures state.logSlots == old(state.logSlots) + 1 && Slots() == Expand(old(Slots()))
      ensures activeSlotCount == old(activeSlotCount) && allocCounter == old(allocCounter)
      ensures circulatingSupply == old(circulatingSupply)
      ensures state.exactDirty == {} <==> old(state.exactDirty) == {}
    {
      var oldLog := state.logSlots;
      var wasCurrent := state.exactDirty == {};
      var zeros := ZeroSlotRoots(oldLog);
      ExpandRoot(sealed, oldLog);
      CleanAfterExpand(sealed, Slots(), oldLog, state.exactDirty);
      state.ExpandDomain();
      exactRoots.ExpandOne(sealed);
      utxoRoot := Node(ExactStateNode, utxoRoot, zeros[oldLog]);
      sealed := Expand(sealed);
      if wasCurrent {
        state.exactDirty := {};
      }
    }

    /** Recompute the cached root of one segment from its columns. */
    method RehashSegment(segment: nat) returns (ok: bool)
      requires state.Valid() && exactRoots.Valid() && exactRoots.logSlots == state.logSlots
      requires segment < |state.segments|
      modifies exactRoots
      ensures ok && exactRoots.Valid() && exactRoots.logSlots == state.logSlots
      ensures segment < |old(exactRoots.segmentRoots)|
      ensures exactRoots.segmentRoots
           == old(exactRoots.segmentRoots)[segment := SlotTree(Slots()).At(state.effectiveLogSeg, segment)]
    {
      assert SegmentOk(state.segments[segment], state.liveCounts[segment], state.effectiveLogSeg);
      SegmentRootIsNode(state.segments, state.logSlots, state.effectiveLogSeg, segment);
      var segmentRoot := SegmentRoot(state.effectiveLogSeg, state.segments[segment], map[]);
      if segmentRoot.Some? {
        exactRoots.SetSegmentRoot(segment, segmentRoot.value);
      }
      ok := segmentRoot.Some?;
    }

    /** Rehash exactly the dirty segments and return the commitment of the current slots. */
    method TryStateRoot() returns (root: Option<Digest>)
      requires Valid()
      modifies this`utxoRoot, this`sealed, state`exactDirty, exactRoots
      ensures Valid() && state.logSlots == old(state.logSlots) && Slots() == old(Slots())
      ensures root == Some(StateRoot(Slots(), state.logSlots)) && utxoRoot == root.value
      ensures state.exactDirty == {}
    {
      var dirty := state.exactDirty;
      ghost var slots := Slots();
      while dirty != {}
        invariant state.Valid() && Slots() == slots && dirty <= state.exactDirty == old(state.exactDirty)
        invariant exactRoots.Valid() && exactRoots.logSlots == state.logSlots
        invariant forall s :: 0 <= s < |exactRoots.segmentRoots| && s !in dirty ==>
                    exactRoots.segmentRoots[s] == SlotTree(slots).At(state.effectiveLogSeg, s)
        decreases |dirty|
      {
        var segment :| segment in dirty;
        var ok := RehashSegment(segment);
        if !ok {
          return None;
        }
        dirty := dirty - {segment};
      }
      state.exactDirty := {};
      sealed := slots;
      var combined := exactRoots.Root(slots);
      utxoRoot := combined;
      root := Some(combined);
    }

    /** A node inside a segment is streamed from the segment's columns. */
    method LocalNode(p: Position) returns (hash: Option<Digest>)
      requires state.Valid() && p.level < state.effectiveLogSeg && p.nodeIndex < Pow2(state.logSlots - p.level)
      ensures hash == Some(SlotTree(Slots()).At(p.level, p.nodeIndex))
    {
      var eff := state.effectiveLogSeg;
      var shift := eff - p.level;
      var segment, local := Shr(p.nodeIndex, shift), Offset(p.nodeIndex, shift);
      SegmentOfNode(p, state.logSlots, eff);
      assert SegmentOk(state.segments[segment], state.liveCounts[segment], eff);
      NodeInSegment(state.segments, state.logSlots, eff, segment, p.level, local, p.nodeIndex);
      hash := LocalSubtreeRoot(state.segments[segment], Shl(local, p.level), p.level);
    }

    /** The digest of one frontier node: from the compact upper tree, or from its segment. */
    method FrontierNode(p: Position) returns (hash: Option<Digest>)
      requires Valid() && state.exactDirty == {}
      requires p.level <= state.logSlots && p.nodeIndex < Pow2(state.logSlots - p.level)
      ensures hash == Some(SlotTree(Slots()).At(p.level, p.nodeIndex))
    {
      var eff := state.effectiveLogSeg;
      if p.level >= eff {
        NothingDirty(sealed, Slots(), eff);
        exactRoots.UpperIsSlotTree(sealed, p.level - eff, p.nodeIndex);
        hash := exactRoots.SegmentNodeHash(p.level - eff, p.nodeIndex);
      } else {
        hash := LocalNode(p);
      }
    }

    /** The sibling digests of a touched set, in canonical order. */
    method ExactFrontierSiblings(touched: seq<nat>, depth: nat)
      returns (r: Result<seq<Digest>, ExactFrontierError>)
      requires Valid()
      ensures depth != state.logSlots ==> r == Err(CacheDepthMismatch(state.logSlots, depth))
      ensures depth == state.logSlots && state.exactDirty != {} ==> r == Err(CompactRootMismatch)
      ensures r.Ok? <==> depth == state.logSlots && state.exactDirty == {} && CanonicalIndices(touched, depth)
      ensures r.Ok? ==> |r.value| == |FrontierFrom(touched, 0, depth)|
      ensures r.Ok? ==> forall k :: 0 <= k < |r.value| ==>
                var p := FrontierFrom(touched, 0, depth)[k];
                r.value[k] == SlotTree(Slots()).At(p.level, p.nodeIndex)
    {
      if depth != state.logSlots {
        return Err(CacheDepthMismatch(state.logSlots, depth));
      }
      var cached := exactRoots.Root(sealed);
      if state.exactDirty != {} || cached != utxoRoot {
        return Err(CompactRootMismatch);
      }
      var positions := FrontierSiblingPositions(touched, depth);
      if positions.Err? {
        return Err(SparseMerkle(positions.error));
      }
      var siblings: seq<Digest> := [];
      for k := 0 to |positions.value|
        invariant |siblings| == k
        invariant forall j :: 0 <= j < k ==>
                    var p := positions.value[j];
                    siblings[j] == SlotTree(Slots()).At(p.level, p.nodeIndex)
      {
        FrontierInDomain(touched, depth, k);
        var hash := FrontierNode(positions.value[k]);
        if hash.None? {
          return Err(CompactRootMismatch);
        }
        siblings := siblings + [hash.value];
      }
      r := Ok(siblings);
    }
  }

  /** A node below the segment level, read off its segment's columns. */
  lemma {:induction false} NodeInSegment(segments: seq<Columns>, logSlots: nat, eff: nat, s: nat, level: nat,
                                         local: nat, index: nat)
    requires eff <= logSlots && |segments| == Pow2(logSlots - eff) && s < |segments| && level <= eff
    requires |Dense(segments[s], eff)| == Pow2(eff) && (segments[s].Some? ==> |segments[s].value| == Pow2(eff))
    requires local < Pow2(eff - level) && index == Shl(s, eff - level) + local
    ensures Shl(local, level) + Pow2(level) <= Pow2(eff)
    ensures SlotTree(Flat(segments, logSlots, eff)).At(level, index)
         == match segments[s]
            case None => ZeroRoot(level)
            case Some(stored) => StateRoot(stored[Shl(local, level)..Shl(local, level) + Pow2(level)], level)
  {
    SegmentSubtree(segments, logSlots, eff, s, level, local);
    SubtreeFits(local, level, eff);
    ColumnsSubtree(segments[s], local, level, eff);
  }

  lemma {:induction false} SegmentOfNode(p: Position, logSlots: nat, effectiveLog: nat)
    requires p.level <= effectiveLog <= logSlots && p.nodeIndex < Pow2(logSlots - p.level)
    ensures Shr(p.nodeIndex, effectiveLog - p.level) < Pow2(logSlots - effectiveLog)
  {
    var shift, rest := effectiveLog - p.level, logSlots - effectiveLog;
    InDomain(p.nodeIndex, shift + rest);
    ShrSum(p.nodeIndex, shift, rest);
    InDomain(Shr(p.nodeIndex, shift), rest);
  }

  lemma {:induction false} SubtreeFits(local: nat, level: nat, effectiveLog: nat)
    requires level <= effectiveLog && local < Pow2(effectiveLog - level)
    ensures Shl(local, level) + Pow2(level) <= Pow2(effectiveLog)
  {
    ShlSucc(local, level);
    ShlMonotone(local + 1, Pow2(effectiveLog - level), level);
    ShlPow2(effectiveLog - level, level);
  }

  lemma {:induction false} ColumnsSubtree(columns: Columns, local: nat, level: nat, effectiveLog: nat)
    requires |Dense(columns, effectiveLog)| == Pow2(effectiveLog)
    requires Shl(local, level) + Pow2(level) <= Pow2(effectiveLog)
    ensures SlotTree(Dense(columns, effectiveLog)).At(level, local)
         == match columns
            case None => ZeroRoot(level)
            case Some(stored) => StateRoot(stored[Shl(local, level)..Shl(local, level) + Pow2(level)], level)
  {
    if columns.Some? {
      SliceIsSubtree(columns.value, local, level);
    } else {
      UnstoredRegion(SlotTree(Dense(columns, effectiveLog)), level, local);
    }
  }

  lemma {:induction false} CleanAfterExpand(sealed: seq<SlotValue>, slots: seq<SlotValue>, logSlots: nat,
                                            dirty: set<nat>)
    requires |sealed| == |slots| == Pow2(logSlots)
    requires CleanAgree(sealed, slots, EffectiveLog(logSlots), dirty)
    ensures dirty == {} ==> CleanAgree(Expand(sealed), Expand(slots), EffectiveLog(logSlots + 1), {})
    ensures logSlots + 1 <= LOG_SEGMENT_SIZE ==>
              CleanAgree(Expand(sealed), Expand(slots), EffectiveLog(logSlots + 1), dirty + {0})
    ensures logSlots + 1 > LOG_SEGMENT_SIZE ==>
              CleanAgree(Expand(sealed), Expand(slots), EffectiveLog(logSlots + 1), dirty)
  {
    if dirty == {} {
      NothingDirty(sealed, slots, EffectiveLog(logSlots));
    }
    if logSlots + 1 <= LOG_SEGMENT_SIZE {
      OnlySegmentDirty(Expand(sealed), Expand(slots), logSlots + 1, dirty + {0});
    } else {
      ExpandKeepsClean(sealed, slots, EffectiveLog(logSlots), dirty);
    }
  }

  lemma {:induction false} SliceIsSubtree(slots: seq<SlotValue>, block: nat, level: nat)
    requires Shl(block, level) + Pow2(level) <= |slots|
    ensures StateRoot(slots[Shl(block, level)..Shl(block, level) + Pow2(level)], level)
            == SlotTree(slots).At(level, block)
  {
    var slice := slots[Shl(block, level)..Shl(block, level) + Pow2(level)];
    forall i: nat | Shr(i, level) == 0
      ensures SlotTree(slice).Leaf(i) == SlotTree(slots).Leaf(Shl(block, level) + i)
    {
      InDomain(i, level);
    }
    LocalTree(SlotTree(slots), SlotTree(slice), level, block, level, 0);
  }

  /** Every frontier position lies inside the domain. */
  lemma {:induction false} FrontierInDomain(indices: seq<nat>, depth: nat, k: nat)
    requires CanonicalIndices(indices, depth) && k < |FrontierFrom(indices, 0, depth)|
    ensures var p := FrontierFrom(indices, 0, depth)[k];
            p.level < depth && p.nodeIndex < Pow2(depth - p.level)
  {
    var positions := FrontierFrom(indices, 0, depth);
    var zeros := seq(|indices|, i => ZeroDigest);
    var w := Witness(indices, positions, zeros, seq(|positions|, i => ZeroDigest));
    var p := positions[k];
    WitnessShaped(w, depth);
    var j := SiblingParent(w, depth, k);
    CousinInDomain(indices[j], p.level, p.nodeIndex, depth);
  }

  lemma {:induction false} CousinInDomain(index: nat, level: nat, node: nat, depth: nat)
    requires index < Pow2(depth) && level < depth && Shr(index, level + 1) == node / 2
    ensures node < Pow2(depth - level)
  {
    ShrSum(index, level + 1, depth - level - 1);
    InDomain(index, depth);
    InDomain(node / 2, depth - level - 1);
  }

  lemma {:induction false} OnlySegmentDirty(a: seq<SlotValue>, b: seq<SlotValue>, logSlots: nat, dirty: set<nat>)
    requires |a| == |b| == Pow2(logSlots) && 0 in dirty
    ensures CleanAgree(a, b, logSlots, dirty)
  {
    forall s: nat | s !in dirty
      ensures SlotTree(a).At(logSlots, s) == SlotTree(b).At(logSlots, s)
    {
      forall i: nat | Shr(i, logSlots) == s
        ensures i >= |a|
      {
        InDomain(i, logSlots);
      }
      NodeBindsLeaves(SlotTree(a), SlotTree(b), logSlots, s);
    }
  }
}
