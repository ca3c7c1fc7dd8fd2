/** Writes to the slot vector and the totals the chain keeps about it. */
module SlotVector {
  import opened Types
  import opened ExactState

  datatype Write = Write(slot: u32, value: SlotValue)

  predicate InRange(writes: seq<Write>, count: nat) {
    forall k :: 0 <= k < |writes| ==> writes[k].slot < count
  }

  /** Apply the writes in order; the last write to a slot wins. */
  function WriteAll(slots: seq<SlotValue>, writes: seq<Write>): (written: seq<SlotValue>)
    requires InRange(writes, |slots|)
    ensures |written| == |slots|
  {
    if |writes| == 0 then slots
    else
      var last := writes[|writes| - 1];
      WriteAll(slots, writes[..|writes| - 1])[last.slot := last.value]
  }

  /** What the chain counts: live slots, or the money they hold. */
  datatype Measure = LiveSlots | Money

  function Weight(measure: Measure, slot: SlotValue): nat {
    match measure
    case LiveSlots => if slot.IsEmpty() then 0 else 1
    case Money => slot.Amount()
  }

  function Total(measure: Measure, slots: seq<SlotValue>): nat {
    if |slots| == 0 then 0
    else Total(measure, slots[..|slots| - 1]) + Weight(measure, slots[|slots| - 1])
  }

  lemma {:induction false} TotalUpdate(measure: Measure, slots: seq<SlotValue>, i: nat, value: SlotValue)
    requires i < |slots|
    ensures Weight(measure, slots[i]) <= Total(measure, slots)
    ensures Total(measure, slots[i := value])
         == Total(measure, slots) - Weight(measure, slots[i]) + Weight(measure, value)
  {
    var last := |slots| - 1;
    if i < last {
      TotalUpdate(measure, slots[..last], i, value);
      assert slots[i := value][..last] == slots[..last][i := value];
    } else {
      assert slots[i := value][..last] == slots[..last];
    }
  }

  lemma {:induction false} TotalEmptyTail(measure: Measure, slots: seq<SlotValue>, n: nat)
    ensures Total(measure, slots + Empties(n)) == Total(measure, slots)
  {
    if n == 0 {
      assert slots + Empties(0) == slots;
    } else {
      TotalEmptyTail(measure, slots, n - 1);
      assert (slots + Empties(n))[..|slots| + n - 1] == slots + Empties(n - 1);
    }
  }

  function MaxWeight(measure: Measure): nat {
    match measure
    case LiveSlots => 1
    case Money => U64_LIMIT - 1
  }

  lemma {:induction false} TotalAtMost(measure: Measure, slots: seq<SlotValue>)
    ensures Total(measure, slots) <= |slots| * MaxWeight(measure)
  {
    if |slots| == 0 {
    } else {
      TotalAtMost(measure, slots[..|slots| - 1]);
    }
  }

  /** Only slots an index can name are ever written, so totals stay far below their counters. */
  lemma {:induction false} TotalBound(measure: Measure, slots: seq<SlotValue>)
    requires forall i :: U32_LIMIT <= i < |slots| ==> slots[i] == EMPTY
    ensures Total(measure, slots) <= U32_LIMIT * MaxWeight(measure)
  {
    if |slots| <= U32_LIMIT {
      TotalAtMost(measure, slots);
    } else {
      var named := slots[..U32_LIMIT];
      TotalAtMost(measure, named);
      TotalEmptyTail(measure, named, |slots| - U32_LIMIT);
      assert slots == named + Empties(|slots| - U32_LIMIT);
    }
  }

  lemma {:induction false} WriteAllAppend(slots: seq<SlotValue>, a: seq<Write>, b: seq<Write>)
    requires InRange(a, |slots|) && InRange(b, |slots|)
    ensures InRange(a + b, |slots|)
    ensures WriteAll(slots, a + b) == WriteAll(WriteAll(slots, a), b)
  {
    if |b| == 0 {
      assert a + b == a;
    } else {
      WriteAllAppend(slots, a, b[..|b| - 1]);
      assert (a + b)[..|a + b| - 1] == a + b[..|b| - 1];
    }
  }

  lemma {:induction false} WriteAllElsewhere(slots: seq<SlotValue>, writes: seq<Write>, i: nat)
    requires InRange(writes, |slots|) && i < |slots|
    requires forall k :: 0 <= k < |writes| ==> writes[k].slot != i
    ensures WriteAll(slots, writes)[i] == slots[i]
  {
    if |writes| == 0 {
    } else {
      WriteAllElsewhere(slots, writes[..|writes| - 1], i);
    }
  }
}
