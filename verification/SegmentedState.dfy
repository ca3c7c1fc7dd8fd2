/** Segmented slot storage: all-empty segments are not stored, and a segment is dropped again when
    its last live slot is spent. */
module SegmentedState {
  import opened Powers
  import opened Types
  import opened Merkle
  import opened ExactState
  import opened SegmentRoots
  import opened SlotVector

  type Columns = Option<seq<SlotValue>>

  /** The slots a possibly unstored segment stands for. */
  function Dense(columns: Columns, effectiveLog: nat): seq<SlotValue> {
    match columns
    case None => Empties(Pow2(effectiveLog))
    case Some(stored) => stored
  }

  ghost predicate SegmentOk(columns: Columns, liveCount: nat, effectiveLog: nat) {
    && |Dense(columns, effectiveLog)| == Pow2(effectiveLog)
    && liveCount == Total(LiveSlots, Dense(columns, effectiveLog))
  }

  function FlatAt(segments: seq<Columns>, effectiveLog: nat, i: nat): SlotValue
    requires Shr(i, effectiveLog) < |segments|
  {
    SlotAt(Dense(segments[Shr(i, effectiveLog)], effectiveLog), Offset(i, effectiveLog))
  }

  /** The flat vector of `2^logSlots` slots. */
  function Flat(segments: seq<Columns>, logSlots: nat, effectiveLog: nat): (slots: seq<SlotValue>)
    requires effectiveLog <= logSlots && |segments| == Pow2(logSlots - effectiveLog)
    ensures |slots| == Pow2(logSlots)
  {
    seq(Pow2(logSlots), i requires 0 <= i < Pow2(logSlots) =>
      IndexSplits(i, logSlots, effectiveLog);
      FlatAt(segments, effectiveLog, i))
  }

  lemma {:induction false} FlatUpdate(segments: seq<Columns>, logSlots: nat, effectiveLog: nat, index: nat,
                                      columns: Columns, value: SlotValue)
    requires effectiveLog <= logSlots && |segments| == Pow2(logSlots - effectiveLog) && index < Pow2(logSlots)
    requires Shr(index, effectiveLog) < |segments|
    requires Offset(index, effectiveLog) < |Dense(segments[Shr(index, effectiveLog)], effectiveLog)|
    requires Dense(columns, effectiveLog)
          == Dense(segments[Shr(index, effectiveLog)], effectiveLog)[Offset(index, effectiveLog) := value]
    ensures Flat(segments[Shr(index, effectiveLog) := columns], logSlots, effectiveLog)
         == Flat(segments, logSlots, effectiveLog)[index := value]
  {
    var segment, local := Shr(index, effectiveLog), Offset(index, effectiveLog);
    var before := Flat(segments, logSlots, effectiveLog);
    var after := Flat(segments[segment := columns], logSlots, effectiveLog);
    forall i | 0 <= i < |after|
      ensures after[i] == before[index := value][i]
    {
      IndexSplits(i, logSlots, effectiveLog);
      assert Shr(i, effectiveLog) == segment && Offset(i, effectiveLog) == local ==> i == index;
    }
  }

  lemma {:induction false} NoLiveSlots(slots: seq<SlotValue>)
    ensures Total(LiveSlots, slots) == 0 ==> forall i :: 0 <= i < |slots| ==> slots[i] == EMPTY
  {
    if |slots| == 0 {
    } else {
      NoLiveSlots(slots[..|slots| - 1]);
    }
  }

  /** `2^log` slots make `2^(log - eff)` segments: an index splits into segment and offset. */
  lemma {:induction false} IndexSplits(i: nat, logSlots: nat, effectiveLog: nat)
    requires effectiveLog <= logSlots && i < Pow2(logSlots)
    ensures Shr(i, effectiveLog) < Pow2(logSlots - effectiveLog)
  {
    ShrSum(i, effectiveLog, logSlots - effectiveLog);
    InDomain(i, logSlots);
    InDomain(Shr(i, effectiveLog), logSlots - effectiveLog);
  }

  lemma {:induction false} NothingStored(segments: seq<Columns>, logSlots: nat, effectiveLog: nat)
    requires effectiveLog <= logSlots && |segments| == Pow2(logSlots - effectiveLog)
    requires forall s :: 0 <= s < |segments| ==> segments[s] == None
    ensures Flat(segments, logSlots, effectiveLog) == Empties(Pow2(logSlots))
    ensures SegmentOk(None, 0, effectiveLog)
  {
    TotalEmptyTail(LiveSlots, [], Pow2(effectiveLog));
    assert [] + Empties(Pow2(effectiveLog)) == Empties(Pow2(effectiveLog));
    var flat := Flat(segments, logSlots, effectiveLog);
    forall i | 0 <= i < |flat|
      ensures flat[i] == EMPTY
    {
      IndexSplits(i, logSlots, effectiveLog);
    }
  }

  lemma {:induction false} FlatGrowsInPlace(columns: Columns, columns': Columns, logSlots: nat)
    requires |Dense(columns, logSlots)| == Pow2(logSlots)
    requires Dense(columns', logSlots + 1) == Expand(Dense(columns, logSlots))
    ensures Flat([columns'], logSlots + 1, logSlots + 1) == Expand(Flat([columns], logSlots, logSlots))
  {
    var before, after := Flat([columns], logSlots, logSlots), Flat([columns'], logSlots + 1, logSlots + 1);
    forall i | 0 <= i < |after|
      ensures after[i] == Expand(before)[i]
    {
      InDomain(i, logSlots + 1);
      InDomain(i, logSlots);
      ZeroShl(logSlots + 1);
      ZeroShl(logSlots);
    }
  }

  lemma {:induction false} FlatGrowsBySegments(segments: seq<Columns>, logSlots: nat, effectiveLog: nat)
    requires effectiveLog <= logSlots && |segments| == Pow2(logSlots - effectiveLog)
    ensures var grown := segments + seq(|segments|, i => None);
            Flat(grown, logSlots + 1, effectiveLog) == Expand(Flat(segments, logSlots, effectiveLog))
  {
    var before := Flat(segments, logSlots, effectiveLog);
    var after := Flat(segments + seq(|segments|, i => None), logSlots + 1, effectiveLog);
    forall i | 0 <= i < |after|
      ensures after[i] == Expand(before)[i]
    {
      IndexSplits(i, logSlots + 1, effectiveLog);
      if i < Pow2(logSlots) {
        IndexSplits(i, logSlots, effectiveLog);
      } else {
        InDomain(i, logSlots);
        ShrSum(i, effectiveLog, logSlots - effectiveLog);
        InDomain(Shr(i, effectiveLog), logSlots - effectiveLog);
      }
    }
  }

  lemma {:induction false} GrownSegmentsOk(segments: seq<Columns>, liveCounts: seq<nat>, logSlots: nat,
                                           effectiveLog: nat)
    requires effectiveLog <= logSlots && |segments| == |liveCounts| == Pow2(logSlots - effectiveLog)
    requires forall s :: 0 <= s < |segments| ==> SegmentOk(segments[s], liveCounts[s], effectiveLog)
    ensures var grown, counts := segments + seq(|segments|, i => None), liveCounts + seq(|segments|, i => 0);
            && |grown| == |counts| == Pow2(logSlots + 1 - effectiveLog)
            && (forall s :: 0 <= s < |grown| ==> SegmentOk(grown[s], counts[s], effectiveLog))
            && Flat(grown, logSlots + 1, effectiveLog) == Expand(Flat(segments, logSlots, effectiveLog))
  {
    FlatGrowsBySegments(segments, logSlots, effectiveLog);
    NothingStored(seq(|segments|, i => None), logSlots, effectiveLog);
  }

  /** Segments outside `dirty` have the same commitment in both vectors. */
  ghost predicate CleanAgree(a: seq<SlotValue>, b: seq<SlotValue>, effectiveLog: nat, dirty: set<nat>) {
    forall s: nat :: s !in dirty ==> SlotTree(a).At(effectiveLog, s) == SlotTree(b).At(effectiveLog, s)
  }

  lemma {:induction false} WriteKeepsClean(slots: seq<SlotValue>, index: nat, value: SlotValue, effectiveLog: nat,
                                           dirty: set<nat>)
    requires index < |slots| && Shr(index, effectiveLog) in dirty
    ensures CleanAgree(slots, slots[index := value], effectiveLog, dirty)
  {
    forall s: nat | s !in dirty
      ensures SlotTree(slots).At(effectiveLog, s) == SlotTree(slots[index := value]).At(effectiveLog, s)
    {
      NodeBindsLeaves(SlotTree(slots), SlotTree(slots[index := value]), effectiveLog, s);
    }
  }

  lemma {:induction false} WrittenSegmentsOk(segments: seq<Columns>, liveCounts: seq<nat>, logSlots: nat,
                                             effectiveLog: nat, index: nat, columns: Columns, live: nat,
                                             value: SlotValue, dirty: set<nat>)
    requires effectiveLog <= logSlots && |segments| == |liveCounts| == Pow2(logSlots - effectiveLog)
    requires forall s :: 0 <= s < |segments| ==> SegmentOk(segments[s], liveCounts[s], effectiveLog)
    requires index < Pow2(logSlots) && Shr(index, effectiveLog) < |segments|
    requires SegmentOk(columns, live, effectiveLog)
    requires Offset(index, effectiveLog) < |Dense(segments[Shr(index, effectiveLog)], effectiveLog)|
    requires Dense(columns, effectiveLog)
          == Dense(segments[Shr(index, effectiveLog)], effectiveLog)[Offset(index, effectiveLog) := value]
    ensures var s := Shr(index, effectiveLog);
            var segments', liveCounts' := segments[s := columns], liveCounts[s := live];
            var before, after := Flat(segments, logSlots, effectiveLog), Flat(segments', logSlots, effectiveLog);
            && (forall k :: 0 <= k < |segments'| ==> SegmentOk(segments'[k], liveCounts'[k], effectiveLog))
            && after == before[index := value]
            && CleanAgree(before, after, effectiveLog, dirty + {s})
  {
    FlatUpdate(segments, logSlots, effectiveLog, index, columns, value);
    WriteKeepsClean(Flat(segments, logSlots, effectiveLog), index, value, effectiveLog,
                    dirty + {Shr(index, effectiveLog)});
  }

  lemma {:induction false} GrownSegmentOk(columns: Columns, live: nat, logSlots: nat) returns (columns': Columns)
    requires SegmentOk(columns, live, logSlots)
    ensures columns' == match columns case None => None case Some(stored) => Some(stored + Empties(Pow2(logSlots)))
    ensures SegmentOk(columns', live, logSlots + 1)
    ensures Flat([columns'], logSlots + 1, logSlots + 1) == Expand(Flat([columns], logSlots, logSlots))
  {
    columns' := match columns case None => None case Some(stored) => Some(stored + Empties(Pow2(logSlots)));
    var dense := Dense(columns, logSlots);
    assert Dense(columns', logSlots + 1) == Expand(dense);
    FlatGrowsInPlace(columns, columns', logSlots);
    TotalEmptyTail(LiveSlots, dense, |dense|);
  }

  /** Write one slot of one segment, materializing or dropping its columns as needed. */
  method WriteColumns(columns: Columns, liveCount: nat, effectiveLog: nat, local: nat, value: SlotValue)
    returns (columns': Columns, liveCount': nat)
    requires SegmentOk(columns, liveCount, effectiveLog) && local < Pow2(effectiveLog)
    ensures SegmentOk(columns', liveCount', effectiveLog)
    ensures Dense(columns', effectiveLog) == Dense(columns, effectiveLog)[local := value]
    ensures liveCount' == 0 ==> columns'.None?
  {
    var dense := Dense(columns, effectiveLog);
    var previous := dense[local];
    TotalUpdate(LiveSlots, dense, local, value);
    liveCount' := liveCount;
    if previous.IsEmpty() && !value.IsEmpty() {
      liveCount' := liveCount + 1;
    } else if !previous.IsEmpty() && value.IsEmpty() {
      liveCount' := liveCount - 1;
    }
    NoLiveSlots(dense[local := value]);
    if liveCount' == 0 {
      columns' := None;
      assert dense[local := value] == Empties(Pow2(effectiveLog));
    } else {
      columns' := Some(dense[local := value]);
    }
  }

  /** The segments and their live counts after one write. */
  method WriteInSegment(segments: seq<Columns>, liveCounts: seq<nat>, logSlots: nat, effectiveLog: nat, index: nat,
                        value: SlotValue, ghost dirty: set<nat>)
    returns (segments': seq<Columns>, liveCounts': seq<nat>)
    requires effectiveLog <= logSlots && |segments| == |liveCounts| == Pow2(logSlots - effectiveLog)
    requires forall s :: 0 <= s < |segments| ==> SegmentOk(segments[s], liveCounts[s], effectiveLog)
    requires index < Pow2(logSlots) && Shr(index, effectiveLog) < |segments|
    ensures |segments'| == |liveCounts'| == |segments|
    ensures forall s :: 0 <= s < |segments'| ==> SegmentOk(segments'[s], liveCounts'[s], effectiveLog)
    ensures var before, after := Flat(segments, logSlots, effectiveLog), Flat(segments', logSlots, effectiveLog);
            && after == before[index := value]
            && CleanAgree(before, after, effectiveLog, dirty + {Shr(index, effectiveLog)})
  {
    var s, local := Shr(index, effectiveLog), Offset(index, effectiveLog);
    assert SegmentOk(segments[s], liveCounts[s], effectiveLog);
    var columns, live := WriteColumns(segments[s], liveCounts[s], effectiveLog, local, value);
    WrittenSegmentsOk(segments, liveCounts, logSlots, effectiveLog, index, columns, live, value, dirty);
    segments', liveCounts' := segments[s := columns], liveCounts[s := live];
  }

  class SegmentedFriState {
    var logSlots: nat
    var effectiveLogSeg: nat
    var segments: seq<Columns>
    var liveCounts: seq<nat>
    var exactDirty: set<nat>

    ghost predicate Valid()
      reads this
    {
      && effectiveLogSeg == EffectiveLog(logSlots)
      && |segments| == |liveCounts| == Pow2(logSlots - effectiveLogSeg)
      && (forall s :: 0 <= s < |segments| ==> SegmentOk(segments[s], liveCounts[s], effectiveLogSeg))
      && (forall s :: s in exactDirty ==> s < |segments|)
    }

    /** The flat slot vector the segments stand for. */
    ghost function Slots(): (slots: seq<SlotValue>)
      requires Valid()
      reads this
      ensures |slots| == Pow2(logSlots)
    {
      Flat(segments, logSlots, effectiveLogSeg)
    }

    constructor NewEmpty(logSlots: nat)
      ensures Valid() && this.logSlots == logSlots && exactDirty == {}
      ensures Slots() == Empties(Pow2(logSlots))
    {
      this.logSlots := logSlots;
      effectiveLogSeg := EffectiveLog(logSlots);
      segments := seq(Pow2(logSlots - EffectiveLog(logSlots)), i => None);
      liveCounts := seq(Pow2(logSlots - EffectiveLog(logSlots)), i => 0);
      exactDirty := {};
      new;
      NothingStored(segments, logSlots, effectiveLogSeg);
    }

    constructor Clone(other: SegmentedFriState)
      requires other.Valid()
      ensures Valid() && Slots() == other.Slots()
      ensures logSlots == other.logSlots && effectiveLogSeg == other.effectiveLogSeg && exactDirty == other.exactDirty
    {
      logSlots := other.logSlots;
      effectiveLogSeg := other.effectiveLogSeg;
      segments := other.segments;
      liveCounts := other.liveCounts;
      exactDirty := other.exactDirty;
    }

    method Slot(index: nat) returns (value: SlotValue)
      requires Valid() && index < Pow2(logSlots)
      ensures value == Slots()[index]
    {
      IndexSplits(index, logSlots, effectiveLogSeg);
      value := FlatAt(segments, effectiveLogSeg, index);
    }

    /** Write one slot; unchanged slots and unstored empties are skipped. */
    method WriteSlot(index: nat, value: SlotValue)
      requires Valid() && index < Pow2(logSlots)
      modifies this`segments, this`liveCounts, this`exactDirty
      ensures Valid() && Slots() == old(Slots())[index := value]
      ensures old(exactDirty) <= exactDirty
      ensures CleanAgree(old(Slots()), Slots(), effectiveLogSeg, exactDirty)
    {
      IndexSplits(index, logSlots, effectiveLogSeg);
      var segment := Shr(index, effectiveLogSeg);
      var previous := FlatAt(segments, effectiveLogSeg, index);
      if previous == value {
        assert Slots()[index := value] == Slots();
        return;
      }
      segments, liveCounts := WriteInSegment(segments, liveCounts, logSlots, effectiveLogSeg, index, value, exactDirty);
      exactDirty := exactDirty + {segment};
    }

    /** Apply a batch of writes, or nothing when one of them is out of range. */
    method ApplyDeltaUnrooted(writes: seq<Write>) returns (ok: bool)
      requires Valid()
      modifies this`segments, this`liveCounts, this`exactDirty
      ensures Valid()
      ensures ok <==> InRange(writes, Pow2(logSlots))
      ensures ok ==> Slots() == WriteAll(old(Slots()), writes)
      ensures !ok ==> Slots() == old(Slots())
      ensures old(exactDirty) <= exactDirty
      ensures CleanAgree(old(Slots()), Slots(), effectiveLogSeg, exactDirty)
      ensures !ok ==> exactDirty == old(exactDirty)
    {
      for k := 0 to |writes|
        invariant InRange(writes[..k], Pow2(logSlots))
        invariant Valid() && Slots() == old(Slots()) && exactDirty == old(exactDirty)
      {
        if writes[k].slot >= Pow2(logSlots) {
          return false;
        }
      }
      for k := 0 to |writes|
        invariant Valid() && old(exactDirty) <= exactDirty
        invariant CleanAgree(old(Slots()), Slots(), effectiveLogSeg, exactDirty)
        invariant InRange(writes[..k], Pow2(logSlots))
        invariant Slots() == WriteAll(old(Slots()), writes[..k])
      {
        WriteSlot(writes[k].slot, writes[k].value);
        assert writes[..k + 1][..k] == writes[..k];
      }
      assert writes[..|writes|] == writes;
      ok := true;
    }

    /** Double the slot domain; the new half is unstored. */
    method ExpandDomain()
      requires Valid()
      modifies this
      ensures Valid() && logSlots == old(logSlots) + 1
      ensures Slots() == Expand(old(Slots()))
      ensures exactDirty == if logSlots <= LOG_SEGMENT_SIZE then old(exactDirty) + {0} else old(exactDirty)
    {
      if logSlots + 1 <= LOG_SEGMENT_SIZE {
        GrowSegment();
      } else {
        AddSegments();
      }
    }

    method GrowSegment()
      requires Valid() && logSlots < LOG_SEGMENT_SIZE
      modifies this
      ensures Valid() && logSlots == old(logSlots) + 1
      ensures Slots() == Expand(old(Slots()))
      ensures exactDirty == old(exactDirty) + {0}
    {
      assert |segments| == 1;
      var columns := match segments[0]
        case None => None
        case Some(stored) => Some(stored + Empties(Pow2(logSlots)));
      ghost var grown := GrownSegmentOk(segments[0], liveCounts[0], logSlots);
      assert segments == [segments[0]];
      segments := [columns];
      effectiveLogSeg := logSlots + 1;
      exactDirty := exactDirty + {0};
      logSlots := logSlots + 1;
    }

    method AddSegments()
      requires Valid() && logSlots >= LOG_SEGMENT_SIZE
      modifies this
      ensures Valid() && logSlots == old(logSlots) + 1
      ensures Slots() == Expand(old(Slots()))
      ensures exactDirty == old(exactDirty)
    {
      GrownSegmentsOk(segments, liveCounts, logSlots, effectiveLogSeg);
      liveCounts := liveCounts + seq(|segments|, i => 0);
      segments := segments + seq(|segments|, i => None);
      logSlots := logSlots + 1;
    }
  }
}
