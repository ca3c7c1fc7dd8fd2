/** Consequences of the run invariant: when the occupancy counter is exact, where money comes from
    and goes to, and which ids a live slot can hold. */
module ChainMoney {
  import opened Types
  import opened ExactState
  import opened SlotVector
  import opened Transactions
  import opened Ledger
  import opened TxOperations
  import opened BlockLedger
  import opened ChainRuns

  // Phantom inputs.

  /** An input whose claim is the empty slot value: it matches any empty slot. */
  predicate PhantomInput(owner: Address, input: TxInput) {
    owner == ZERO_WORD && input.amount == 0 && input.creationId == 0
  }

  predicate PhantomFreeAction(a: Action) {
    forall k :: 0 <= k < |a.inputs| ==> !PhantomInput(a.owner, a.inputs[k])
  }

  predicate PhantomFree(txs: seq<Body>) {
    forall t :: 0 <= t < |txs| ==> PhantomFreeAction(LiveAction(txs[t]))
  }

  predicate PhantomFreeRun(blocks: seq<Block>) {
    forall b :: 0 <= b < |blocks| ==> PhantomFree(blocks[b].transactions)
  }

  lemma {:induction false} NoPhantoms(ops: seq<Op>)
    ensures Phantoms(ops) == 0 <==> forall k :: 0 <= k < |ops| ==> !IsPhantom(ops[k])
  {
    if |ops| == 0 {
    } else {
      NoPhantoms(ops[..|ops| - 1]);
      assert ops == ops[..|ops| - 1] + [ops[|ops| - 1]];
    }
  }

  lemma {:induction false} PhantomsAppend(a: seq<Op>, b: seq<Op>)
    ensures Phantoms(a + b) == Phantoms(a) + Phantoms(b)
  {
    if |b| == 0 {
      assert a + b == a;
    } else {
      PhantomsAppend(a, b[..|b| - 1]);
      assert (a + b)[..|a + b| - 1] == a + b[..|b| - 1];
    }
  }

  lemma {:induction false} ActionPhantoms(a: Action)
    ensures Phantoms(ActionOps(a)) == 0 <==> PhantomFreeAction(a)
  {
    var ops := ActionOps(a);
    NoPhantoms(ops);
    forall k | 0 <= k < |a.inputs|
      ensures IsPhantom(ops[k]) <==> PhantomInput(a.owner, a.inputs[k])
    {
    }
  }

  lemma {:induction false} BlockPhantoms(txs: seq<Body>)
    ensures Phantoms(BlockOps(txs)) == 0 <==> PhantomFree(txs)
  {
    if |txs| == 0 {
    } else {
      var front, last := txs[..|txs| - 1], txs[|txs| - 1];
      BlockPhantoms(front);
      ActionPhantoms(LiveAction(last));
      PhantomsAppend(BlockOps(front), TxOps(last));
      assert PhantomFree(txs) <==> PhantomFree(front) && PhantomFreeAction(LiveAction(last));
    }
  }

  lemma {:induction false} RecordedPhantoms(h: History, alloc: nat, ops: seq<Op>, height: u64)
    requires alloc + Mints(ops) < COINBASE_TAG
    ensures RecordAll(h, alloc, ops, height).phantoms == h.phantoms + Phantoms(ops)
  {
    if |ops| == 0 {
    } else {
      RecordedPhantoms(h, alloc, ops[..|ops| - 1], height);
    }
  }

  lemma {:induction false} RunPhantoms(blocks: seq<Block>)
    requires HistoryOf(blocks).Some?
    ensures HistoryOf(blocks).value.phantoms == 0 <==> PhantomFreeRun(blocks)
  {
    if |blocks| == 0 {
    } else {
      var front, block := blocks[..|blocks| - 1], blocks[|blocks| - 1];
      RunPhantoms(front);
      BlockPhantoms(block.transactions);
      var h := HistoryOf(front).value;
      RecordedPhantoms(h, |h.minted|, BlockOps(block.transactions), block.header.height);
      assert blocks == front + [block];
    }
  }

  /** The header's occupancy is the number of non-empty slots exactly on the runs in which no live
      input ever claimed an empty slot; it is never above that number. */
  lemma {:induction false} ActiveCountExact(logSlots: nat, blocks: seq<Block>)
    requires Execute(logSlots, blocks).Some?
    ensures var l := Execute(logSlots, blocks).value;
            && (l.active == Total(LiveSlots, l.slots) <==> PhantomFreeRun(blocks))
            && l.active <= Total(LiveSlots, l.slots)
            && l.supply == Total(Money, l.slots)
  {
    ChainInvariant(logSlots, blocks);
    RunPhantoms(blocks);
  }

  // Without phantoms the counter cannot run dry.

  lemma {:induction false} DistinctLiveCounted(slots: seq<SlotValue>, used: seq<nat>)
    requires Distinct(used) && forall k :: 0 <= k < |used| ==> used[k] < |slots| && slots[used[k]] != EMPTY
    ensures |used| <= Total(LiveSlots, slots)
    decreases |used|
  {
    if |used| == 0 {
    } else {
      var front, last := used[..|used| - 1], used[|used| - 1];
      var rest := slots[last := EMPTY];
      forall k | 0 <= k < |front|
        ensures front[k] < |rest| && rest[front[k]] != EMPTY
      {
        assert used[k] != used[|used| - 1];
      }
      DistinctLiveCounted(rest, front);
      TotalUpdate(LiveSlots, slots, last, EMPTY);
    }
  }

  /** Every spend of a phantom-free body was live in the parent, so the subtraction is safe. */
  lemma {:induction false} NoUnderflow(l: Ledger, a: Action)
    requires Inv(l) && l.active == Total(LiveSlots, l.slots)
    requires PhantomFreeAction(a)
    ensures ActionError(l, a) != Some(ActiveSlotCountUnderflow)
  {
    InputsInRange(l.slots, a.owner, a.inputs);
    if Distinct(InputSlots(a.inputs)) && FirstInputError(l.slots, a.owner, a.inputs).None? {
      DistinctLiveCounted(l.slots, InputSlots(a.inputs));
    }
  }

  // Money.

  function Moves(op: Op): int {
    if op.Mint? then op.amount else 0 - (op.claim.Amount() as int)
  }

  function Inflow(ops: seq<Op>): int {
    if |ops| == 0 then 0
    else Inflow(ops[..|ops| - 1]) + Moves(ops[|ops| - 1])
  }

  lemma {:induction false} InflowAppend(a: seq<Op>, b: seq<Op>)
    ensures Inflow(a + b) == Inflow(a) + Inflow(b)
  {
    if |b| == 0 {
      assert a + b == a;
    } else {
      InflowAppend(a, b[..|b| - 1]);
      assert (a + b)[..|a + b| - 1] == a + b[..|b| - 1];
    }
  }

  lemma {:induction false} RunMovesMoney(l: Ledger, ops: seq<Op>, height: u64)
    requires Run(l, ops, height).Some?
    ensures Run(l, ops, height).value.supply == l.supply + Inflow(ops)
  {
    if |ops| == 0 {
    } else {
      RunMovesMoney(l, ops[..|ops| - 1], height);
    }
  }

  lemma {:induction false} InflowOne(op: Op)
    ensures Inflow([op]) == Moves(op)
  {
    assert [op][..0] == [];
  }

  lemma {:induction false} SpendInflow(owner: Address, inputs: seq<TxInput>)
    ensures Inflow(SpendOps(owner, inputs)) + InputSum(inputs) == 0
  {
    if |inputs| == 0 {
    } else {
      SpendInflow(owner, inputs[1..]);
      var first := Spend(inputs[0].slotIndex, Claim(owner, inputs[0]));
      assert SpendOps(owner, inputs) == [first] + SpendOps(owner, inputs[1..]);
      InflowAppend([first], SpendOps(owner, inputs[1..]));
      InflowOne(first);
    }
  }

  lemma {:induction false} MintInflow(primary: bool, outputs: seq<TxOutput>)
    ensures Inflow(MintOps(primary, outputs)) == OutputSum(outputs)
  {
    if |outputs| == 0 {
    } else {
      MintInflow(primary, outputs[1..]);
      var first := Mint(outputs[0].slotIndex, outputs[0].amount, outputs[0].owner, primary);
      assert MintOps(primary, outputs) == [first] + MintOps(primary, outputs[1..]);
      InflowAppend([first], MintOps(primary, outputs[1..]));
      InflowOne(first);
    }
  }

  lemma {:induction false} TxInflow(body: Body)
    ensures Inflow(TxOps(body)) == OutputSum(LiveOutputs(body)) - InputSum(LiveInputs(body))
  {
    var a := LiveAction(body);
    InflowAppend(SpendOps(a.owner, a.inputs), MintOps(a.primary, a.outputs));
    SpendInflow(a.owner, a.inputs);
    MintInflow(a.primary, a.outputs);
  }

  lemma {:induction false} OutputSumAppend(a: seq<TxOutput>, b: seq<TxOutput>)
    ensures OutputSum(a + b) == OutputSum(a) + OutputSum(b)
  {
    if |a| == 0 {
      assert a + b == b;
    } else {
      OutputSumAppend(a[1..], b);
      assert (a + b)[1..] == a[1..] + b;
    }
  }

  lemma {:induction false} InputSumAppend(a: seq<TxInput>, b: seq<TxInput>)
    ensures InputSum(a + b) == InputSum(a) + InputSum(b)
  {
    if |a| == 0 {
      assert a + b == b;
    } else {
      InputSumAppend(a[1..], b);
      assert (a + b)[1..] == a[1..] + b;
    }
  }

  function Fees(pages: seq<TxBody<Digest>>): nat {
    if |pages| == 0 then 0 else pages[0].fee + Fees(pages[1..])
  }

  lemma {:induction false} FeesAppend(a: seq<TxBody<Digest>>, b: seq<TxBody<Digest>>)
    ensures Fees(a + b) == Fees(a) + Fees(b)
  {
    if |a| == 0 {
      assert a + b == b;
    } else {
      FeesAppend(a[1..], b);
      assert (a + b)[1..] == a[1..] + b;
    }
  }

  lemma {:induction false} ContinuationsAreFree(pages: seq<TxBody<Digest>>)
    requires forall p :: 0 <= p < |pages| ==> pages[p].fee == 0
    ensures Fees(pages) == 0
  {
    if |pages| == 0 {
    } else {
      ContinuationsAreFree(pages[1..]);
    }
  }

  /** Money flowing out of a run of pages into their outputs. */
  function PageNet(pages: seq<TxBody<Digest>>): int {
    OutputSum(PageOutputs(pages)) - InputSum(PageInputs(pages))
  }

  lemma {:induction false} PageNetAppend(a: seq<TxBody<Digest>>, b: seq<TxBody<Digest>>)
    ensures PageNet(a + b) == PageNet(a) + PageNet(b)
  {
    if |a| == 0 {
      assert a + b == b;
    } else {
      PageNetAppend(a[1..], b);
      assert (a + b)[1..] == a[1..] + b;
      PageNetCons(a);
      PageNetCons(a + b);
    }
  }

  lemma {:induction false} PageNetCons(pages: seq<TxBody<Digest>>)
    requires |pages| > 0
    ensures PageNet(pages) == OutputSum(LiveOutputs(pages[0])) - InputSum(LiveInputs(pages[0])) + PageNet(pages[1..])
  {
    OutputSumAppend(LiveOutputs(pages[0]), PageOutputs(pages[1..]));
    InputSumAppend(LiveInputs(pages[0]), PageInputs(pages[1..]));
  }

  /** A valid group pays exactly its fee. */
  lemma {:induction false} GroupPaysFee(group: seq<TxBody<Digest>>)
    requires PagedSpendOk(group)
    ensures PageNet(group) + Fees(group) == 0
  {
    ContinuationsAreFree(group[1..]);
  }

  lemma {:induction false} StreamPaysFees(pages: seq<TxBody<Digest>>)
    requires Groups(pages).Some?
    ensures PageNet(pages) + Fees(pages) == 0
    decreases |pages|
  {
    if |pages| == 0 {
    } else {
      var n := FirstGroup(pages).value;
      GroupPaysFee(pages[..n]);
      StreamPaysFees(pages[n..]);
      assert pages == pages[..n] + pages[n..];
      PageNetAppend(pages[..n], pages[n..]);
      FeesAppend(pages[..n], pages[n..]);
    }
  }

  lemma {:induction false} OnePageNet(body: Body)
    ensures PageNet([body]) == Inflow(TxOps(body))
  {
    TxInflow(body);
    PageNetCons([body]);
    assert [body][1..] == [];
  }

  lemma {:induction false} BlockInflow(txs: seq<Body>)
    ensures Inflow(BlockOps(txs)) == PageNet(txs)
  {
    if |txs| == 0 {
    } else {
      var front, last := txs[..|txs| - 1], txs[|txs| - 1];
      BlockInflow(front);
      InflowAppend(BlockOps(front), TxOps(last));
      OnePageNet(last);
      assert txs == front + [last];
      PageNetAppend(front, [last]);
    }
  }

  function SystemMinted(txs: seq<Body>): nat
    requires UserStart(txs) <= |txs|
  {
    OutputSum(PageOutputs(txs[..UserStart(txs)]))
  }

  function FeesPaid(txs: seq<Body>): nat
    requires UserStart(txs) <= |txs|
  {
    Fees(txs[UserStart(txs)..])
  }

  lemma {:induction false} SystemTakesNothing(txs: seq<Body>)
    requires forall t :: 0 <= t < |txs| ==> |LiveInputs(txs[t])| == 0
    ensures PageInputs(txs) == []
  {
    if |txs| == 0 {
    } else {
      SystemTakesNothing(txs[1..]);
    }
  }

  lemma {:induction false} StreamNet(txs: seq<Body>)
    requires PageStream(txs, V1).Ok?
    ensures UserStart(txs) <= |txs|
    ensures PageNet(txs) == SystemMinted(txs) - FeesPaid(txs)
  {
    var cut := UserStart(txs);
    assert txs == txs[..cut] + txs[cut..];
    PageNetAppend(txs[..cut], txs[cut..]);
    StreamPaysFees(txs[cut..]);
    SystemInputsUnreachable(txs);
    SystemTakesNothing(txs[..cut]);
  }

  /** A block adds its system mints to the supply and takes its fees out: nothing else moves it. */
  lemma {:induction false} BlockMovesMoney(l: Ledger, block: Block)
    requires Inv(l) && ApplyBlock(l, block).Ok?
    ensures UserStart(block.transactions) <= |block.transactions|
    ensures ApplyBlock(l, block).value.supply
         == l.supply + SystemMinted(block.transactions) - FeesPaid(block.transactions)
  {
    BlockIsRun(l, block);
    RunMovesMoney(ExpandTo(l, block.header.logSlots), BlockOps(block.transactions), block.header.height);
    BlockInflow(block.transactions);
    StreamNet(block.transactions);
  }

  /** System mints minus fees of a whole run. */
  function NetIssued(blocks: seq<Block>): int {
    if |blocks| == 0 then 0
    else
      var txs := blocks[|blocks| - 1].transactions;
      NetIssued(blocks[..|blocks| - 1]) + if UserStart(txs) <= |txs| then SystemMinted(txs) - FeesPaid(txs) else 0
  }

  /** The money supply of every run is what was minted minus what was paid in fees. */
  lemma {:induction false} SupplyIsNetIssued(logSlots: nat, blocks: seq<Block>)
    requires Execute(logSlots, blocks).Some?
    ensures Execute(logSlots, blocks).value.supply == NetIssued(blocks)
  {
    if |blocks| == 0 {
    } else {
      var front, block := blocks[..|blocks| - 1], blocks[|blocks| - 1];
      ChainInvariant(logSlots, front);
      SupplyIsNetIssued(logSlots, front);
      BlockMovesMoney(Execute(logSlots, front).value, block);
    }
  }

  // Ids in the slot vector.

  /** `creation_id_within_boundary`. */
  predicate IdWithinBoundary(id: nat, alloc: nat, height: nat) {
    if id >= COINBASE_TAG then id - COINBASE_TAG <= height else id <= alloc
  }

  lemma {:induction false} LiveCoinWasMinted(logSlots: nat, blocks: seq<Block>, i: nat)
    requires Execute(logSlots, blocks).Some? && HistoryOf(blocks).Some?
    requires SlotAt(Execute(logSlots, blocks).value.slots, i) != EMPTY
    ensures exists k :: 0 <= k < |HistoryOf(blocks).value.minted|
              && HistoryOf(blocks).value.minted[k] == Coin(i, SlotAt(Execute(logSlots, blocks).value.slots, i))
  {
    ChainInvariant(logSlots, blocks);
    var slots, minted := Execute(logSlots, blocks).value.slots, HistoryOf(blocks).value.minted;
    LiveCoinIsThere(slots, i);
    assert Coin(i, slots[i]) in multiset(minted);
    assert Coin(i, slots[i]) in minted;
  }

  lemma {:induction false} OrderedIdsDiffer(minted: seq<Coin>, height: nat, p: nat, q: nat)
    requires IdsInOrder(minted, height) && p < |minted| && q < |minted| && p != q
    ensures Id(minted[p]) != Id(minted[q])
  {
  }

  /** Live slots hold distinct ids, each within the boundary the header states. */
  lemma {:induction false} LiveIdsAreUnique(logSlots: nat, blocks: seq<Block>, i: nat, j: nat)
    requires Execute(logSlots, blocks).Some?
    requires SlotAt(Execute(logSlots, blocks).value.slots, i) != EMPTY
    requires SlotAt(Execute(logSlots, blocks).value.slots, j) != EMPTY
    ensures var l := Execute(logSlots, blocks).value;
            && IdWithinBoundary(SlotAt(l.slots, i).CreationId(), l.alloc, |blocks|)
            && (i != j ==> SlotAt(l.slots, i).CreationId() != SlotAt(l.slots, j).CreationId())
  {
    ChainInvariant(logSlots, blocks);
    var l, minted := Execute(logSlots, blocks).value, HistoryOf(blocks).value.minted;
    var a, b := Coin(i, SlotAt(l.slots, i)), Coin(j, SlotAt(l.slots, j));
    LiveCoinWasMinted(logSlots, blocks, i);
    LiveCoinWasMinted(logSlots, blocks, j);
    var p :| 0 <= p < |minted| && minted[p] == a;
    var q :| 0 <= q < |minted| && minted[q] == b;
    if i != j {
      assert a != b;
      OrderedIdsDiffer(minted, |blocks|, p, q);
    }
  }
}
