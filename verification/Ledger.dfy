/** The value-level ledger: one transaction checked against a slot vector, the same transaction as
    a sequence of single-slot operations, and the agreement of the two. */
module Ledger {
  import opened Powers
  import opened Types
  import opened ExactState
  import opened SlotVector
  import opened Transactions

  const COINBASE_TAG: nat := 0x8000_0000_0000_0000

  /** `COINBASE_CREATION_TAG | height`. */
  function CoinbaseId(height: u64): (id: u64)
    ensures id >= COINBASE_TAG
    ensures height < COINBASE_TAG ==> id - COINBASE_TAG == height
  {
    if height < COINBASE_TAG then COINBASE_TAG + height else height
  }

  datatype ApplyError =
    | SlotOutOfRange
    | UnknownOrSpentInput
    | OutputSlotNotEmpty
    | DuplicateOutputSlot
    | InputOutputSlotOverlap
    | ActiveSlotCountUnderflow
    | ActiveSlotCountOverflow
    | AllocCounterOverflow
    | CoinbaseMintHeightMissing
    | CirculatingSupplyInvariant

  datatype Ledger = Ledger(slots: seq<SlotValue>, logSlots: nat, active: nat, alloc: nat, supply: nat)

  /** What the code's own counters rely on. `active` may lag the number of live slots, never lead it. */
  predicate Inv(l: Ledger) {
    && |l.slots| == Pow2(l.logSlots)
    && (forall i :: U32_LIMIT <= i < |l.slots| ==> l.slots[i] == EMPTY)
    && l.supply == Total(Money, l.slots)
    && l.active <= Total(LiveSlots, l.slots)
    && l.alloc < COINBASE_TAG
  }

  // Supply after a batch: the last write to each slot, folded in slot order.

  function LastWrites(writes: seq<Write>): map<u32, SlotValue> {
    if |writes| == 0 then map[]
    else LastWrites(writes[..|writes| - 1])[writes[|writes| - 1].slot := writes[|writes| - 1].value]
  }

  /** Fold the remaining slot indices `i..` in ascending order; beyond the vector a slot was empty. */
  function SupplyFrom(slots: seq<SlotValue>, last: map<u32, SlotValue>, i: nat, supply: nat): (r: Option<nat>)
    requires i <= U32_LIMIT
    ensures supply < U128_LIMIT && r.Some? ==> r.value < U128_LIMIT
    decreases U32_LIMIT - i
  {
    if i == U32_LIMIT then Some(supply)
    else if i !in last then SupplyFrom(slots, last, i + 1, supply)
    else match SupplyMove(supply, SlotAt(slots, i), last[i])
      case None => None
      case Some(moved) => SupplyFrom(slots, last, i + 1, moved)
  }

  /** Checked subtraction of the old amount, then checked addition of the new one. */
  function SupplyMove(supply: nat, before: SlotValue, after: SlotValue): Option<nat> {
    if supply < before.Amount() || supply - before.Amount() + after.Amount() >= U128_LIMIT then None
    else Some(supply - before.Amount() + after.Amount())
  }

  function SupplyAfter(l: Ledger, writes: seq<Write>): Option<nat> {
    SupplyFrom(l.slots, LastWrites(writes), 0, l.supply)
  }

  lemma {:induction false} WriteAllIsLastWrite(slots: seq<SlotValue>, writes: seq<Write>, i: nat)
    requires InRange(writes, |slots|) && i < |slots|
    ensures WriteAll(slots, writes)[i] == if i in LastWrites(writes) then LastWrites(writes)[i] else slots[i]
  {
    if |writes| == 0 {
    } else {
      WriteAllIsLastWrite(slots, writes[..|writes| - 1], i);
    }
  }

  /** Replacing one slot moves a money total by the difference, and no total overflows. */
  lemma {:induction false} SupplyStep(here: seq<SlotValue>, i: nat, value: SlotValue)
    requires i < |here| && i < U32_LIMIT
    requires forall k :: U32_LIMIT <= k < |here| ==> here[k] == EMPTY
    ensures here[i].Amount() <= Total(Money, here)
    ensures Total(Money, here[i := value]) == Total(Money, here) - here[i].Amount() + value.Amount() < U128_LIMIT
  {
    TotalUpdate(Money, here, i, value);
    TotalBound(Money, here[i := value]);
  }

  predicate Merged(slots: seq<SlotValue>, after: seq<SlotValue>, last: map<u32, SlotValue>) {
    && |slots| == |after|
    && (forall k :: 0 <= k < |slots| ==> after[k] == if k in last then last[k] else slots[k])
    && (forall k :: U32_LIMIT <= k < |slots| ==> slots[k] == EMPTY)
  }

  /** Halfway through the fold: the slots below `i` are new, the others still old. */
  function Halfway(slots: seq<SlotValue>, after: seq<SlotValue>, i: nat): seq<SlotValue>
    requires |slots| == |after|
  {
    seq(|slots|, k requires 0 <= k < |slots| => if k < i then after[k] else slots[k])
  }

  lemma {:induction false} HalfwayStep(slots: seq<SlotValue>, after: seq<SlotValue>, last: map<u32, SlotValue>, i: nat)
    requires Merged(slots, after, last) && i < U32_LIMIT && (i in last ==> i < |slots|)
    ensures i !in last ==> Halfway(slots, after, i + 1) == Halfway(slots, after, i)
    ensures i in last ==>
              SupplyMove(Total(Money, Halfway(slots, after, i)), SlotAt(slots, i), last[i])
              == Some(Total(Money, Halfway(slots, after, i + 1)))
  {
    var here := Halfway(slots, after, i);
    if i in last {
      assert Halfway(slots, after, i + 1) == here[i := after[i]];
      SupplyStep(here, i, after[i]);
    }
  }

  lemma {:induction false} SupplyFromExact(slots: seq<SlotValue>, after: seq<SlotValue>, last: map<u32, SlotValue>,
                                           i: nat)
    requires Merged(slots, after, last) && i <= U32_LIMIT
    requires forall k :: k in last ==> k < |slots|
    ensures SupplyFrom(slots, last, i, Total(Money, Halfway(slots, after, i))) == Some(Total(Money, after))
    decreases U32_LIMIT - i
  {
    if i == U32_LIMIT {
      assert Halfway(slots, after, i) == after;
    } else {
      HalfwayStep(slots, after, last, i);
      SupplyFromExact(slots, after, last, i + 1);
    }
  }

  lemma {:induction false} LastWritesInRange(writes: seq<Write>, count: nat)
    requires InRange(writes, count)
    ensures forall k :: k in LastWrites(writes) ==> k < count
  {
    if |writes| == 0 {
    } else {
      LastWritesInRange(writes[..|writes| - 1], count);
    }
  }

  /** While the supply is the sum of the live amounts, the fold never fails and stays that sum. */
  lemma {:induction false} SupplyExact(l: Ledger, writes: seq<Write>)
    requires Inv(l) && InRange(writes, |l.slots|)
    ensures SupplyAfter(l, writes) == Some(Total(Money, WriteAll(l.slots, writes)))
  {
    var after := WriteAll(l.slots, writes);
    forall k | 0 <= k < |l.slots|
      ensures after[k] == if k in LastWrites(writes) then LastWrites(writes)[k] else l.slots[k]
    {
      WriteAllIsLastWrite(l.slots, writes, k);
    }
    assert Merged(l.slots, after, LastWrites(writes));
    LastWritesInRange(writes, |l.slots|);
    SupplyFromExact(l.slots, after, LastWrites(writes), 0);
    assert Halfway(l.slots, after, 0) == l.slots;
  }

  // One transaction, in the order the code checks it.

  function Claim(owner: Address, input: TxInput): SlotValue {
    LiveSlot(input.amount, input.creationId, owner)
  }

  function FirstOutputClash(inputs: seq<TxInput>, outputs: seq<TxOutput>, k: nat): (e: Option<ApplyError>)
    requires k <= |outputs|
    ensures e in {None, Some(DuplicateOutputSlot), Some(InputOutputSlotOverlap)}
    decreases |outputs| - k
  {
    if k == |outputs| then None
    else if outputs[k].slotIndex in OutputSlots(outputs[..k]) then Some(DuplicateOutputSlot)
    else if outputs[k].slotIndex in InputSlots(inputs) then Some(InputOutputSlotOverlap)
    else FirstOutputClash(inputs, outputs, k + 1)
  }

  function FirstInputError(slots: seq<SlotValue>, owner: Address, inputs: seq<TxInput>): (e: Option<ApplyError>)
    ensures e in {None, Some(SlotOutOfRange), Some(UnknownOrSpentInput)}
  {
    if |inputs| == 0 then None
    else if inputs[0].slotIndex >= |slots| then Some(SlotOutOfRange)
    else if slots[inputs[0].slotIndex] != Claim(owner, inputs[0]) then Some(UnknownOrSpentInput)
    else FirstInputError(slots, owner, inputs[1..])
  }

  function FirstOutputError(slots: seq<SlotValue>, outputs: seq<TxOutput>): (e: Option<ApplyError>)
    ensures e in {None, Some(SlotOutOfRange), Some(OutputSlotNotEmpty)}
  {
    if |outputs| == 0 then None
    else if outputs[0].slotIndex >= |slots| then Some(SlotOutOfRange)
    else if slots[outputs[0].slotIndex] != EMPTY then Some(OutputSlotNotEmpty)
    else FirstOutputError(slots, outputs[1..])
  }

  function SpendWrites(inputs: seq<TxInput>): seq<Write> {
    seq(|inputs|, k requires 0 <= k < |inputs| => Write(inputs[k].slotIndex, EMPTY))
  }

  /** The stored id: the allocator's next value, or the height tag for the primary coinbase. */
  function MintId(alloc: nat, primary: bool, height: u64): (id: nat)
    requires alloc + 1 < COINBASE_TAG
    ensures 0 < id < U64_LIMIT
  {
    if primary then CoinbaseId(height) else alloc + 1
  }

  /** The slot value minted when the allocator stands at `alloc`. */
  function MintValue(alloc: nat, amount: u64, owner: Address, primary: bool, height: u64): (value: SlotValue)
    requires alloc + 1 < COINBASE_TAG
    ensures value != EMPTY && value.Amount() == amount && value.CreationId() == MintId(alloc, primary, height)
  {
    LiveSlot(amount, MintId(alloc, primary, height), owner)
  }

  function MintWrites(outputs: seq<TxOutput>, alloc: nat, primary: bool, height: u64): seq<Write>
    requires alloc + |outputs| < COINBASE_TAG
  {
    seq(|outputs|, k requires 0 <= k < |outputs| =>
      Write(outputs[k].slotIndex, MintValue(alloc + k, outputs[k].amount, outputs[k].owner, primary, height)))
  }

  /** The live records of a body. */
  datatype Action = Action(owner: Address, inputs: seq<TxInput>, outputs: seq<TxOutput>, primary: bool)

  function LiveAction(body: Body): Action {
    Action(body.inputOwner, LiveInputs(body), LiveOutputs(body), IsPrimaryCoinbase(body))
  }

  function ActionWrites(alloc: nat, a: Action, height: u64): seq<Write>
    requires alloc + |a.outputs| < COINBASE_TAG
  {
    SpendWrites(a.inputs) + MintWrites(a.outputs, alloc, a.primary, height)
  }

  /** The first check the records fail before the supply is looked at. */
  function ActionError(l: Ledger, a: Action): (e: Option<ApplyError>)
    ensures e.None? ==> |a.inputs| <= l.active && l.alloc + |a.outputs| < COINBASE_TAG
    ensures e != Some(CirculatingSupplyInvariant)
  {
    if !Distinct(InputSlots(a.inputs)) then Some(UnknownOrSpentInput)
    else if FirstOutputClash(a.inputs, a.outputs, 0).Some? then FirstOutputClash(a.inputs, a.outputs, 0)
    else if FirstInputError(l.slots, a.owner, a.inputs).Some? then FirstInputError(l.slots, a.owner, a.inputs)
    else if l.active < |a.inputs| then Some(ActiveSlotCountUnderflow)
    else if l.active - |a.inputs| + |a.outputs| >= U64_LIMIT then Some(ActiveSlotCountOverflow)
    else if l.alloc + |a.outputs| >= COINBASE_TAG then Some(AllocCounterOverflow)
    else FirstOutputError(l.slots, a.outputs)
  }

  lemma {:induction false} InputsInRange(slots: seq<SlotValue>, owner: Address, inputs: seq<TxInput>)
    ensures FirstInputError(slots, owner, inputs).None? <==>
              forall k :: 0 <= k < |inputs| ==>
                inputs[k].slotIndex < |slots| && slots[inputs[k].slotIndex] == Claim(owner, inputs[k])
  {
    if |inputs| == 0 {
    } else {
      InputsInRange(slots, owner, inputs[1..]);
      assert inputs == [inputs[0]] + inputs[1..];
    }
  }

  lemma {:induction false} OutputsInRange(slots: seq<SlotValue>, outputs: seq<TxOutput>)
    ensures FirstOutputError(slots, outputs).None? <==>
              forall k :: 0 <= k < |outputs| ==>
                outputs[k].slotIndex < |slots| && slots[outputs[k].slotIndex] == EMPTY
  {
    if |outputs| == 0 {
    } else {
      OutputsInRange(slots, outputs[1..]);
      assert outputs == [outputs[0]] + outputs[1..];
    }
  }

  lemma {:induction false} WritesInRange(outputs: seq<TxOutput>, inputs: seq<TxInput>, alloc: nat, primary: bool,
                                         height: u64, count: nat)
    requires alloc + |outputs| < COINBASE_TAG
    requires forall k :: 0 <= k < |inputs| ==> inputs[k].slotIndex < count
    requires forall k :: 0 <= k < |outputs| ==> outputs[k].slotIndex < count
    ensures InRange(SpendWrites(inputs) + MintWrites(outputs, alloc, primary, height), count)
  {
  }

  lemma {:induction false} ActionWritesInRange(l: Ledger, a: Action, height: u64)
    requires ActionError(l, a).None?
    ensures InRange(ActionWrites(l.alloc, a, height), |l.slots|)
  {
    InputsInRange(l.slots, a.owner, a.inputs);
    OutputsInRange(l.slots, a.outputs);
    WritesInRange(a.outputs, a.inputs, l.alloc, a.primary, height, |l.slots|);
  }

  function ApplyAction(l: Ledger, a: Action, height: u64): Result<Ledger, ApplyError> {
    match ActionError(l, a)
    case Some(error) => Err(error)
    case None =>
      ActionWritesInRange(l, a, height);
      var writes := ActionWrites(l.alloc, a, height);
      match SupplyAfter(l, writes)
      case None => Err(CirculatingSupplyInvariant)
      case Some(supply) =>
        Ok(Ledger(WriteAll(l.slots, writes), l.logSlots, l.active - |a.inputs| + |a.outputs|, l.alloc + |a.outputs|,
                  supply))
  }

  /** `apply_tx_checked_deferred_root`. A primary coinbase is a coinbase, so its height is there. */
  function ApplyTx(l: Ledger, body: Body, mintHeight: Option<u64>): Result<Ledger, ApplyError> {
    match mintHeight
    case None => if body.isCoinbase then Err(CoinbaseMintHeightMissing) else ApplyAction(l, LiveAction(body), 0)
    case Some(height) => ApplyAction(l, LiveAction(body), height)
  }

  // The same transaction as single-slot operations.

  datatype Op =
    | Spend(slot: u32, claim: SlotValue)
    | Mint(slot: u32, amount: u64, owner: Address, primary: bool)

  predicate IsPhantom(op: Op) {
    op.Spend? && op.claim == EMPTY
  }

  /** A slot holds what an operation expects to find there. */
  predicate Expects(slots: seq<SlotValue>, op: Op) {
    op.slot < |slots| && slots[op.slot] == if op.Spend? then op.claim else EMPTY
  }

  function Step(l: Ledger, op: Op, height: u64): Option<Ledger> {
    if !Expects(l.slots, op) then None
    else match op
      case Spend(slot, claim) =>
        if l.active < 1 || l.supply < claim.Amount() then None
        else Some(l.(slots := l.slots[slot := EMPTY], active := l.active - 1, supply := l.supply - claim.Amount()))
      case Mint(slot, amount, owner, primary) =>
        if l.alloc + 1 >= COINBASE_TAG then None
        else Some(l.(slots := l.slots[slot := MintValue(l.alloc, amount, owner, primary, height)],
                     active := l.active + 1, alloc := l.alloc + 1, supply := l.supply + amount))
  }

  function Run(l: Ledger, ops: seq<Op>, height: u64): Option<Ledger> {
    if |ops| == 0 then Some(l)
    else match Run(l, ops[..|ops| - 1], height)
      case None => None
      case Some(m) => Step(m, ops[|ops| - 1], height)
  }

  lemma {:induction false} RunAppend(l: Ledger, a: seq<Op>, b: seq<Op>, height: u64)
    ensures Run(l, a + b, height)
         == match Run(l, a, height) case None => None case Some(m) => Run(m, b, height)
  {
    if |b| == 0 {
      assert a + b == a;
    } else {
      RunAppend(l, a, b[..|b| - 1], height);
      assert (a + b)[..|a + b| - 1] == a + b[..|b| - 1];
    }
  }

  /** One operation keeps the invariant, and moves the live count exactly unless it is a phantom. */
  lemma {:induction false} StepInv(l: Ledger, op: Op, height: u64)
    requires Inv(l)
    ensures Step(l, op, height).Some? <==>
              Expects(l.slots, op) && (if op.Spend? then l.active >= 1 else l.alloc + 1 < COINBASE_TAG)
    ensures Step(l, op, height).Some? ==>
              var m := Step(l, op, height).value;
              && Inv(m) && m.logSlots == l.logSlots
              && Total(LiveSlots, m.slots) - m.active
                 == Total(LiveSlots, l.slots) - l.active + (if IsPhantom(op) then 1 else 0)
  {
    if Expects(l.slots, op) {
      if op.Spend? {
        TotalUpdate(Money, l.slots, op.slot, EMPTY);
        TotalUpdate(LiveSlots, l.slots, op.slot, EMPTY);
      } else if l.alloc + 1 < COINBASE_TAG {
        TotalUpdate(Money, l.slots, op.slot, MintValue(l.alloc, op.amount, op.owner, op.primary, height));
        TotalUpdate(LiveSlots, l.slots, op.slot, MintValue(l.alloc, op.amount, op.owner, op.primary, height));
      }
    }
  }

  function Phantoms(ops: seq<Op>): nat {
    if |ops| == 0 then 0
    else Phantoms(ops[..|ops| - 1]) + if IsPhantom(ops[|ops| - 1]) then 1 else 0
  }

  function Spends(ops: seq<Op>): nat {
    if |ops| == 0 then 0
    else Spends(ops[..|ops| - 1]) + if ops[|ops| - 1].Spend? then 1 else 0
  }

  function Mints(ops: seq<Op>): nat {
    if |ops| == 0 then 0
    else Mints(ops[..|ops| - 1]) + if ops[|ops| - 1].Mint? then 1 else 0
  }

  lemma {:induction false} RunInv(l: Ledger, ops: seq<Op>, height: u64)
    requires Inv(l) && Run(l, ops, height).Some?
    ensures var m := Run(l, ops, height).value;
            && Inv(m) && m.logSlots == l.logSlots
            && m.active == l.active - Spends(ops) + Mints(ops)
            && m.alloc == l.alloc + Mints(ops)
            && Total(LiveSlots, m.slots) - m.active == Total(LiveSlots, l.slots) - l.active + Phantoms(ops)
  {
    if |ops| == 0 {
    } else {
      var front := ops[..|ops| - 1];
      RunInv(l, front, height);
      StepInv(Run(l, front, height).value, ops[|ops| - 1], height);
    }
  }

  // Distinct slots: what the operations do one after another can be read off the parent.

  function OpSlots(ops: seq<Op>): seq<nat> {
    seq(|ops|, k requires 0 <= k < |ops| => ops[k].slot)
  }

  /** The write an operation makes when the allocator stands at `alloc`. */
  function OpWrite(alloc: nat, op: Op, height: u64): (w: Write)
    requires op.Mint? ==> alloc + 1 < COINBASE_TAG
    ensures w.slot == op.slot
  {
    match op
    case Spend(slot, claim) => Write(slot, EMPTY)
    case Mint(slot, amount, owner, primary) => Write(slot, MintValue(alloc, amount, owner, primary, height))
  }

  function OpWrites(alloc: nat, ops: seq<Op>, height: u64): (writes: seq<Write>)
    requires alloc + Mints(ops) < COINBASE_TAG
    ensures |writes| == |ops|
    ensures forall k :: 0 <= k < |ops| ==> writes[k].slot == ops[k].slot
  {
    if |ops| == 0 then []
    else
      var front := ops[..|ops| - 1];
      OpWrites(alloc, front, height) + [OpWrite(alloc + Mints(front), ops[|ops| - 1], height)]
  }

  /** The parent holds what every operation expects. */
  predicate AllExpected(slots: seq<SlotValue>, ops: seq<Op>) {
    forall k :: 0 <= k < |ops| ==> Expects(slots, ops[k])
  }

  /** The occupancy counter never runs dry on the way. */
  predicate NeverDry(active: nat, ops: seq<Op>) {
    forall n :: 0 <= n <= |ops| ==> Spends(ops[..n]) <= active + Mints(ops[..n])
  }

  lemma {:induction false} FrontDistinct(ops: seq<Op>)
    requires |ops| > 0 && Distinct(OpSlots(ops))
    ensures Distinct(OpSlots(ops[..|ops| - 1]))
  {
    var all, front := OpSlots(ops), OpSlots(ops[..|ops| - 1]);
    forall i, j | 0 <= i < j < |front|
      ensures front[i] != front[j]
    {
      assert all[i] == front[i] && all[j] == front[j];
    }
  }

  /** A slot no earlier operation named still holds what the parent held. */
  lemma {:induction false} LastSlotUntouched(slots: seq<SlotValue>, alloc: nat, ops: seq<Op>, height: u64)
    requires |ops| > 0 && Distinct(OpSlots(ops))
    requires var front := ops[..|ops| - 1];
             alloc + Mints(front) < COINBASE_TAG && InRange(OpWrites(alloc, front, height), |slots|)
    ensures var front, op := ops[..|ops| - 1], ops[|ops| - 1];
            Expects(WriteAll(slots, OpWrites(alloc, front, height)), op) <==> Expects(slots, op)
  {
    var front, op := ops[..|ops| - 1], ops[|ops| - 1];
    if op.slot < |slots| {
      var all := OpSlots(ops);
      var writes := OpWrites(alloc, front, height);
      forall k | 0 <= k < |writes|
        ensures writes[k].slot != op.slot
      {
        assert all[k] != all[|ops| - 1];
      }
      WriteAllElsewhere(slots, writes, op.slot);
    }
  }

  lemma {:induction false} NeverDryFront(active: nat, ops: seq<Op>)
    requires |ops| > 0
    ensures NeverDry(active, ops) <==>
              NeverDry(active, ops[..|ops| - 1]) && Spends(ops) <= active + Mints(ops)
  {
    var front := ops[..|ops| - 1];
    forall n | 0 <= n <= |front|
      ensures front[..n] == ops[..n]
    {
    }
    assert ops[..|ops|] == ops;
    if NeverDry(active, ops) {
      forall n | 0 <= n <= |front|
        ensures Spends(front[..n]) <= active + Mints(front[..n])
      {
        assert front[..n] == ops[..n];
      }
    }
    if NeverDry(active, front) && Spends(ops) <= active + Mints(ops) {
      forall n | 0 <= n <= |ops|
        ensures Spends(ops[..n]) <= active + Mints(ops[..n])
      {
        if n < |ops| {
          assert front[..n] == ops[..n];
        }
      }
    }
  }

  /** Can the operations run, judged against the parent alone? */
  predicate Runnable(l: Ledger, ops: seq<Op>) {
    AllExpected(l.slots, ops) && NeverDry(l.active, ops) && l.alloc + Mints(ops) < COINBASE_TAG
  }

  lemma {:induction false} RunnableFront(l: Ledger, ops: seq<Op>)
    requires |ops| > 0
    ensures var front, op := ops[..|ops| - 1], ops[|ops| - 1];
            Runnable(l, ops) <==>
              && Runnable(l, front) && Expects(l.slots, op)
              && Spends(ops) <= l.active + Mints(ops) && l.alloc + Mints(ops) < COINBASE_TAG
  {
    var front, op := ops[..|ops| - 1], ops[|ops| - 1];
    NeverDryFront(l.active, ops);
    assert AllExpected(l.slots, ops) <==> AllExpected(l.slots, front) && Expects(l.slots, op);
  }

  /** The ledger reached by a run is the parent with the batch of writes applied. */
  predicate Batched(l: Ledger, ops: seq<Op>, height: u64) {
    Run(l, ops, height).Some? && IsBatch(l.slots, l.alloc, ops, height, Run(l, ops, height).value.slots)
  }

  predicate IsBatch(slots: seq<SlotValue>, alloc: nat, ops: seq<Op>, height: u64, after: seq<SlotValue>) {
    && alloc + Mints(ops) < COINBASE_TAG
    && InRange(OpWrites(alloc, ops, height), |slots|)
    && after == WriteAll(slots, OpWrites(alloc, ops, height))
  }

  lemma {:induction false} BatchedStep(l: Ledger, ops: seq<Op>, height: u64)
    requires Inv(l) && Distinct(OpSlots(ops)) && |ops| > 0
    requires Batched(l, ops[..|ops| - 1], height)
    ensures Run(l, ops, height).Some? <==>
              && Expects(l.slots, ops[|ops| - 1])
              && Spends(ops) <= l.active + Mints(ops) && l.alloc + Mints(ops) < COINBASE_TAG
  {
    var front, op := ops[..|ops| - 1], ops[|ops| - 1];
    RunInv(l, front, height);
    StepInv(Run(l, front, height).value, op, height);
    LastSlotUntouched(l.slots, l.alloc, ops, height);
  }

  lemma {:induction false} StepIsWrite(m: Ledger, op: Op, height: u64)
    requires Step(m, op, height).Some?
    ensures op.Mint? ==> m.alloc + 1 < COINBASE_TAG
    ensures op.slot < |m.slots|
    ensures Step(m, op, height).value.slots == m.slots[op.slot := OpWrite(m.alloc, op, height).value]
  {
  }

  lemma {:induction false} WriteOneMore(slots: seq<SlotValue>, writes: seq<Write>, w: Write)
    requires InRange(writes, |slots|) && w.slot < |slots|
    ensures InRange(writes + [w], |slots|)
    ensures WriteAll(slots, writes + [w]) == WriteAll(slots, writes)[w.slot := w.value]
  {
    assert (writes + [w])[..|writes|] == writes;
  }

  lemma {:induction false} RunAlloc(l: Ledger, ops: seq<Op>, height: u64)
    requires l.alloc < COINBASE_TAG && Run(l, ops, height).Some?
    ensures Run(l, ops, height).value.alloc == l.alloc + Mints(ops) < COINBASE_TAG
  {
    if |ops| == 0 {
    } else {
      RunAlloc(l, ops[..|ops| - 1], height);
    }
  }

  lemma {:induction false} OpWritesSnoc(alloc: nat, front: seq<Op>, op: Op, height: u64)
    requires alloc + Mints(front + [op]) < COINBASE_TAG
    ensures alloc + Mints(front) < COINBASE_TAG && (op.Mint? ==> alloc + Mints(front) + 1 < COINBASE_TAG)
    ensures OpWrites(alloc, front + [op], height)
         == OpWrites(alloc, front, height) + [OpWrite(alloc + Mints(front), op, height)]
  {
    assert (front + [op])[..|front|] == front;
  }

  lemma {:induction false} ExtendBatch(slots: seq<SlotValue>, alloc: nat, front: seq<Op>, op: Op, height: u64,
                                       before: seq<SlotValue>)
    requires IsBatch(slots, alloc, front, height, before)
    requires alloc + Mints(front + [op]) < COINBASE_TAG && op.slot < |slots|
    ensures op.Mint? ==> alloc + Mints(front) + 1 < COINBASE_TAG
    ensures IsBatch(slots, alloc, front + [op], height,
                    before[op.slot := OpWrite(alloc + Mints(front), op, height).value])
  {
    OpWritesSnoc(alloc, front, op, height);
    WriteOneMore(slots, OpWrites(alloc, front, height), OpWrite(alloc + Mints(front), op, height));
  }

  lemma {:induction false} RunOneMore(l: Ledger, front: seq<Op>, op: Op, height: u64)
    requires Run(l, front, height).Some? && Run(l, front + [op], height).Some?
    ensures var m := Run(l, front, height).value;
            && (op.Mint? ==> m.alloc + 1 < COINBASE_TAG) && op.slot < |m.slots|
            && Run(l, front + [op], height).value.slots == m.slots[op.slot := OpWrite(m.alloc, op, height).value]
  {
    assert (front + [op])[..|front|] == front;
    StepIsWrite(Run(l, front, height).value, op, height);
  }

  lemma {:induction false} BatchedWrite(l: Ledger, front: seq<Op>, op: Op, height: u64)
    requires l.alloc < COINBASE_TAG && Batched(l, front, height)
    requires Run(l, front + [op], height).Some?
    ensures Batched(l, front + [op], height)
  {
    RunAlloc(l, front, height);
    RunAlloc(l, front + [op], height);
    RunOneMore(l, front, op, height);
    ExtendBatch(l.slots, l.alloc, front, op, height, Run(l, front, height).value.slots);
  }

  /** Operations on pairwise distinct slots run to the end exactly when the parent already holds
      what each expects and the counters allow it, and their writes are the batch of all writes. */
  lemma {:induction false} SimultaneousRuns(l: Ledger, ops: seq<Op>, height: u64)
    requires Inv(l) && Distinct(OpSlots(ops))
    ensures Run(l, ops, height).Some? <==> Runnable(l, ops)
    ensures Run(l, ops, height).Some? ==> Batched(l, ops, height)
  {
    if |ops| == 0 {
    } else {
      FrontDistinct(ops);
      SimultaneousRuns(l, ops[..|ops| - 1], height);
      RunnableFront(l, ops);
      if Run(l, ops[..|ops| - 1], height).Some? {
        BatchedStep(l, ops, height);
        if Run(l, ops, height).Some? {
          BatchedWrite(l, ops[..|ops| - 1], ops[|ops| - 1], height);
          assert ops == ops[..|ops| - 1] + [ops[|ops| - 1]];
        }
      }
    }
  }
}
