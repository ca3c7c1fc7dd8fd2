/** The transaction step as the code runs it, on the mutable chain state. */
module TxInterpreter {
  import opened Powers
  import opened Types
  import opened ExactState
  import opened SlotVector
  import opened Frontier
  import opened ChainEngine
  import opened Transactions
  import opened Ledger

  /** The ledger a chain state stands for. */
  ghost function LedgerOf(s: ChainState): Ledger
    requires s.state.Valid()
    reads s, s.state
  {
    Ledger(s.Slots(), s.state.logSlots, s.activeSlotCount, s.allocCounter, s.circulatingSupply)
  }

  // Ordered iteration over a set of slots.

  /** Insert into a sorted sequence at the position that keeps it sorted. */
  method InsertSorted(keys: seq<nat>, key: nat) returns (r: seq<nat>)
    requires Sorted(keys) && key !in keys
    ensures Sorted(r) && |r| == |keys| + 1
    ensures forall k :: k in r <==> k == key || k in keys
  {
    var i := 0;
    while i < |keys| && keys[i] < key
      invariant 0 <= i <= |keys| && forall j :: 0 <= j < i ==> keys[j] < key
    {
      i := i + 1;
    }
    r := keys[..i] + [key] + keys[i..];
    assert keys == keys[..i] + keys[i..];
  }

  /** The elements of a set in ascending order. */
  method SortedElements(s: set<nat>) returns (keys: seq<nat>)
    ensures Sorted(keys) && |keys| == |s| && forall k :: k in keys <==> k in s
  {
    keys := [];
    var rest := s;
    while rest != {}
      invariant rest <= s && Sorted(keys) && |keys| + |rest| == |s|
      invariant forall k :: k in keys <==> k in s - rest
      decreases |rest|
    {
      var key :| key in rest;
      keys := InsertSorted(keys, key);
      rest := rest - {key};
    }
  }

  // Circulating supply.

  ghost predicate KeysFrom(keys: seq<nat>, last: map<u32, SlotValue>, i: nat) {
    Sorted(keys) && forall k: nat :: k in keys <==> k in last && i <= k
  }

  lemma {:induction false} SkipTo(slots: seq<SlotValue>, last: map<u32, SlotValue>, i: nat, next: nat, supply: nat)
    requires i <= next <= U32_LIMIT && forall k :: i <= k < next ==> k !in last
    ensures SupplyFrom(slots, last, i, supply) == SupplyFrom(slots, last, next, supply)
    decreases next - i
  {
    if i >= next {
    } else {
      SkipTo(slots, last, i + 1, next, supply);
    }
  }

  lemma {:induction false} FirstIsLeast(keys: seq<nat>, k: nat)
    requires Sorted(keys) && |keys| > 0 && k < keys[0]
    ensures k !in keys
  {
  }

  lemma {:induction false} NextKey(keys: seq<nat>, last: map<u32, SlotValue>, i: nat)
    requires KeysFrom(keys, last, i) && |keys| > 0
    ensures i <= keys[0] < U32_LIMIT && keys[0] in last && forall k :: i <= k < keys[0] ==> k !in last
    ensures KeysFrom(keys[1..], last, keys[0] + 1)
  {
    assert keys[0] in keys;
    forall k: nat | i <= k < keys[0]
      ensures k !in last
    {
      FirstIsLeast(keys, k);
    }
    assert keys == [keys[0]] + keys[1..];
  }

  /** The fold along an ascending key list. */
  ghost function FoldKeys(slots: seq<SlotValue>, keys: seq<nat>, last: map<u32, SlotValue>, supply: nat): Option<nat>
    requires forall k :: k in keys ==> k in last
  {
    if |keys| == 0 then Some(supply)
    else match SupplyMove(supply, SlotAt(slots, keys[0]), last[keys[0]])
      case None => None
      case Some(moved) => FoldKeys(slots, keys[1..], last, moved)
  }

  lemma {:induction false} FoldInOrder(slots: seq<SlotValue>, keys: seq<nat>, last: map<u32, SlotValue>, i: nat,
                                       supply: nat)
    requires i <= U32_LIMIT && KeysFrom(keys, last, i)
    ensures SupplyFrom(slots, last, i, supply) == FoldKeys(slots, keys, last, supply)
    decreases |keys|
  {
    if |keys| == 0 {
      SkipTo(slots, last, i, U32_LIMIT, supply);
    } else {
      NextKey(keys, last, i);
      SkipTo(slots, last, i, keys[0], supply);
      var moved := SupplyMove(supply, SlotAt(slots, keys[0]), last[keys[0]]);
      if moved.Some? {
        FoldInOrder(slots, keys[1..], last, keys[0] + 1, moved.value);
      }
    }
  }

  /** `supply_after_slot_updates`: last write per slot, folded in slot order. */
  method SupplyAfterSlotUpdates(s: ChainState, writes: seq<Write>) returns (r: Option<u128>)
    requires s.Valid()
    ensures r == SupplyAfter(LedgerOf(s), writes)
  {
    var canonical: map<u32, SlotValue> := map[];
    for k := 0 to |writes|
      invariant canonical == LastWrites(writes[..k])
    {
      canonical := canonical[writes[k].slot := writes[k].value];
      assert writes[..k + 1][..k] == writes[..k];
    }
    assert writes[..|writes|] == writes;
    r := FoldSupply(s, canonical);
  }

  method FoldSupply(s: ChainState, canonical: map<u32, SlotValue>) returns (r: Option<u128>)
    requires s.Valid()
    ensures r == SupplyFrom(s.Slots(), canonical, 0, s.circulatingSupply)
  {
    var keys := SortedElements(canonical.Keys);
    ghost var slots := s.Slots();
    FoldInOrder(slots, keys, canonical, 0, s.circulatingSupply);
    var supply: u128 := s.circulatingSupply;
    for k := 0 to |keys|
      invariant FoldKeys(slots, keys, canonical, s.circulatingSupply) == FoldKeys(slots, keys[k..], canonical, supply)
    {
      assert keys[k..][0] == keys[k] && keys[k..][1..] == keys[k + 1..];
      assert keys[k] in keys;
      var slot: u32 := keys[k];
      var previous := EMPTY;
      if slot < Pow2(s.state.logSlots) {
        previous := s.state.Slot(slot);
      }
      var moved := SupplyMove(supply, previous, canonical[slot]);
      if moved.None? {
        return None;
      }
      supply := moved.value;
    }
    r := Some(supply);
  }

  // The scans.

  /** Reject duplicate input slots, then duplicate or overlapping output slots, in record order. */
  method ScanRecords(inputs: seq<TxInput>, outputs: seq<TxOutput>) returns (e: Option<ApplyError>)
    ensures e == if !Distinct(InputSlots(inputs)) then Some(UnknownOrSpentInput)
            else FirstOutputClash(inputs, outputs, 0)
  {
    assert [] + InputSlots(inputs) == InputSlots(inputs);
    var ok, inputSlots := InsertAll(InputSlots(inputs), {}, []);
    if !ok {
      return Some(UnknownOrSpentInput);
    }
    var seen: set<nat> := {};
    for k := 0 to |outputs|
      invariant seen == set slot | slot in OutputSlots(outputs[..k])
      invariant FirstOutputClash(inputs, outputs, 0) == FirstOutputClash(inputs, outputs, k)
    {
      var slot := outputs[k].slotIndex;
      if slot in seen {
        return Some(DuplicateOutputSlot);
      }
      if slot in inputSlots {
        return Some(InputOutputSlotOverlap);
      }
      seen := seen + {slot};
      assert OutputSlots(outputs[..k + 1]) == OutputSlots(outputs[..k]) + [slot];
    }
    e := None;
  }

  /** Compare every input with the live slot it names, collecting the clearing writes. */
  method MatchInputs(s: ChainState, owner: Address, inputs: seq<TxInput>)
    returns (e: Option<ApplyError>, writes: seq<Write>)
    requires s.Valid()
    ensures e == FirstInputError(s.Slots(), owner, inputs)
    ensures e.None? ==> writes == SpendWrites(inputs)
  {
    writes := [];
    for k := 0 to |inputs|
      invariant FirstInputError(s.Slots(), owner, inputs) == FirstInputError(s.Slots(), owner, inputs[k..])
      invariant writes == SpendWrites(inputs[..k])
    {
      var input := inputs[k];
      assert inputs[k..][0] == input && inputs[k..][1..] == inputs[k + 1..];
      if input.slotIndex >= Pow2(s.state.logSlots) {
        return Some(SlotOutOfRange), writes;
      }
      var found := s.state.Slot(input.slotIndex);
      if found != Claim(owner, input) {
        return Some(UnknownOrSpentInput), writes;
      }
      writes := writes + [Write(input.slotIndex, EMPTY)];
    }
    assert inputs[..|inputs|] == inputs;
    e := None;
  }

  lemma {:induction false} MintWritesSnoc(outputs: seq<TxOutput>, alloc: nat, primary: bool, height: u64, k: nat)
    requires k < |outputs| && alloc + |outputs| < COINBASE_TAG
    ensures MintWrites(outputs[..k + 1], alloc, primary, height)
         == MintWrites(outputs[..k], alloc, primary, height)
            + [Write(outputs[k].slotIndex, MintValue(alloc + k, outputs[k].amount, outputs[k].owner, primary, height))]
  {
  }

  /** Check every output slot is empty, collecting the minting writes with their fresh ids. */
  method PlaceOutputs(s: ChainState, outputs: seq<TxOutput>, primary: bool, height: u64)
    returns (e: Option<ApplyError>, writes: seq<Write>)
    requires s.Valid() && s.allocCounter + |outputs| < COINBASE_TAG
    ensures e == FirstOutputError(s.Slots(), outputs)
    ensures e.None? ==> writes == MintWrites(outputs, s.allocCounter, primary, height)
  {
    writes := [];
    var cursor := s.allocCounter;
    for k := 0 to |outputs|
      invariant cursor == s.allocCounter + k
      invariant FirstOutputError(s.Slots(), outputs) == FirstOutputError(s.Slots(), outputs[k..])
      invariant writes == MintWrites(outputs[..k], s.allocCounter, primary, height)
    {
      var output := outputs[k];
      assert outputs[k..][0] == output && outputs[k..][1..] == outputs[k + 1..];
      if output.slotIndex >= Pow2(s.state.logSlots) {
        return Some(SlotOutOfRange), writes;
      }
      var found := s.state.Slot(output.slotIndex);
      if found != EMPTY {
        return Some(OutputSlotNotEmpty), writes;
      }
      MintWritesSnoc(outputs, s.allocCounter, primary, height, k);
      writes := writes + [Write(output.slotIndex, MintValue(cursor, output.amount, output.owner, primary, height))];
      cursor := cursor + 1;
    }
    assert outputs[..|outputs|] == outputs;
    e := None;
  }

  // The step.

  /** Every check of the records against the state; on success, the writes to make. */
  method CheckAction(s: ChainState, a: Action, height: u64) returns (e: Option<ApplyError>, writes: seq<Write>)
    requires s.Valid()
    ensures e == ActionError(LedgerOf(s), a)
    ensures e.None? ==> writes == ActionWrites(s.allocCounter, a, height)
  {
    writes := [];
    e := ScanRecords(a.inputs, a.outputs);
    if e.Some? {
      return;
    }
    var spends, mints: seq<Write>;
    e, spends := MatchInputs(s, a.owner, a.inputs);
    if e.Some? {
      return;
    }
    if s.activeSlotCount < |a.inputs| {
      return Some(ActiveSlotCountUnderflow), writes;
    }
    if s.activeSlotCount - |a.inputs| + |a.outputs| >= U64_LIMIT {
      return Some(ActiveSlotCountOverflow), writes;
    }
    if s.allocCounter + |a.outputs| >= COINBASE_TAG {
      return Some(AllocCounterOverflow), writes;
    }
    e, mints := PlaceOutputs(s, a.outputs, a.primary, height);
    writes := spends + mints;
  }

  method ApplyRecords(s: ChainState, a: Action, height: u64) returns (e: Option<ApplyError>)
    requires s.Valid()
    modifies s, s.state
    ensures s.Valid() && s.state == old(s.state) && s.exactRoots == old(s.exactRoots)
    ensures e.Some? ==> ApplyAction(old(LedgerOf(s)), a, height) == Err(e.value) && LedgerOf(s) == old(LedgerOf(s))
    ensures e.None? ==> ApplyAction(old(LedgerOf(s)), a, height) == Ok(LedgerOf(s))
  {
    var writes: seq<Write>;
    e, writes := CheckAction(s, a, height);
    if e.Some? {
      return;
    }
    ghost var before := LedgerOf(s);
    ActionWritesInRange(before, a, height);
    var supply := SupplyAfterSlotUpdates(s, writes);
    assert supply == SupplyAfter(before, ActionWrites(before.alloc, a, height));
    if supply.None? {
      return Some(CirculatingSupplyInvariant);
    }
    Commit(s, writes, s.activeSlotCount - |a.inputs| + |a.outputs|, s.allocCounter + |a.outputs|, supply.value);
  }

  method Commit(s: ChainState, writes: seq<Write>, active: u64, alloc: u64, supply: u128)
    requires s.Valid() && InRange(writes, Pow2(s.state.logSlots))
    modifies s, s.state
    ensures s.Valid() && s.state == old(s.state) && s.exactRoots == old(s.exactRoots)
    ensures LedgerOf(s) == Ledger(WriteAll(old(s.Slots()), writes), old(s.state.logSlots), active, alloc, supply)
  {
    var ok := s.ApplyDelta(writes);
    s.activeSlotCount, s.allocCounter, s.circulatingSupply := active, alloc, supply;
  }

  /** `apply_tx_checked_deferred_root`: the ledger step, or the same error and no change. */
  method ApplyTxDeferredRoot(s: ChainState, body: Body, mintHeight: Option<u64>) returns (e: Option<ApplyError>)
    requires s.Valid()
    modifies s, s.state
    ensures s.Valid() && s.state == old(s.state) && s.exactRoots == old(s.exactRoots)
    ensures e.Some? ==> ApplyTx(old(LedgerOf(s)), body, mintHeight) == Err(e.value) && LedgerOf(s) == old(LedgerOf(s))
    ensures e.None? ==> ApplyTx(old(LedgerOf(s)), body, mintHeight) == Ok(LedgerOf(s))
  {
    if body.isCoinbase && mintHeight.None? {
      return Some(CoinbaseMintHeightMissing);
    }
    e := ApplyRecords(s, LiveAction(body), if mintHeight.Some? then mintHeight.value else 0);
  }
}
