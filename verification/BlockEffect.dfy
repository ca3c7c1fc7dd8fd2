/** What a committed block does to the slots, read off its transactions: every live input is spent, every
    live output minted with its amount, owner and id, and nothing else moves. */
module BlockEffect {
  import opened Types
  import opened ExactState
  import opened SlotVector
  import opened Transactions
  import opened Ledger
  import opened TxOperations
  import opened BlockLedger
  import opened StateDelta

  // Where a block's operations come from.

  lemma {:induction false} OpOrigin(txs: seq<Body>, k: nat) returns (t: nat, j: nat)
    requires k < |BlockOps(txs)|
    ensures t < |txs| && j < |TxOps(txs[t])| && BlockOps(txs)[k] == TxOps(txs[t])[j]
  {
    var front := txs[..|txs| - 1];
    if k < |BlockOps(front)| {
      t, j := OpOrigin(front, k);
    } else {
      t, j := |txs| - 1, k - |BlockOps(front)|;
    }
  }

  lemma {:induction false} OpPlace(txs: seq<Body>, t: nat, j: nat) returns (k: nat)
    requires t < |txs| && j < |TxOps(txs[t])|
    ensures k == |BlockOps(txs[..t])| + j < |BlockOps(txs)| && BlockOps(txs)[k] == TxOps(txs[t])[j]
    ensures BlockOps(txs)[..k] == BlockOps(txs[..t]) + TxOps(txs[t])[..j]
  {
    var front := txs[..|txs| - 1];
    if t < |front| {
      assert front[..t] == txs[..t];
      k := OpPlace(front, t, j);
    } else {
      assert txs[..t] == front;
      k := |BlockOps(front)| + j;
    }
  }

  /** The spend operation of one live input, and the mint operation of one live output. */
  lemma {:induction false} InputOp(txs: seq<Body>, t: nat, i: nat) returns (k: nat)
    requires t < |txs| && i < |LiveInputs(txs[t])|
    ensures k < |BlockOps(txs)|
    ensures var input := LiveInputs(txs[t])[i];
            BlockOps(txs)[k] == Spend(input.slotIndex, LiveSlot(input.amount, input.creationId, txs[t].inputOwner))
  {
    k := OpPlace(txs, t, i);
  }

  lemma {:induction false} OutputOp(txs: seq<Body>, t: nat, o: nat) returns (k: nat)
    requires t < |txs| && o < |LiveOutputs(txs[t])|
    ensures k < |BlockOps(txs)| && Mints(BlockOps(txs)[..k]) == OutputCount(txs[..t]) + o
    ensures var output := LiveOutputs(txs[t])[o];
            BlockOps(txs)[k] == Mint(output.slotIndex, output.amount, output.owner, IsPrimaryCoinbase(txs[t]))
  {
    var ins := |LiveInputs(txs[t])|;
    k := OpPlace(txs, t, ins + o);
    MintsBefore(txs, t, o);
  }

  lemma {:induction false} MintsBefore(txs: seq<Body>, t: nat, o: nat)
    requires t < |txs| && o <= |LiveOutputs(txs[t])|
    ensures |LiveInputs(txs[t])| + o <= |TxOps(txs[t])|
    ensures Mints(BlockOps(txs[..t]) + TxOps(txs[t])[..|LiveInputs(txs[t])| + o]) == OutputCount(txs[..t]) + o
  {
    MintsOfBody(txs[t], o);
    MintsAppend(BlockOps(txs[..t]), TxOps(txs[t])[..|LiveInputs(txs[t])| + o]);
    BlockMintCount(txs[..t]);
  }

  function OutputCount(txs: seq<Body>): nat {
    if |txs| == 0 then 0 else OutputCount(txs[..|txs| - 1]) + |LiveOutputs(txs[|txs| - 1])|
  }

  lemma {:induction false} MintsAppend(a: seq<Op>, b: seq<Op>)
    ensures Mints(a + b) == Mints(a) + Mints(b)
  {
    if |b| == 0 {
      assert a + b == a;
    } else {
      MintsAppend(a, b[..|b| - 1]);
      assert (a + b)[..|a + b| - 1] == a + b[..|b| - 1];
    }
  }

  lemma {:induction false} CountKinds(ops: seq<Op>)
    ensures (forall k :: 0 <= k < |ops| ==> ops[k].Spend?) ==> Mints(ops) == 0
    ensures (forall k :: 0 <= k < |ops| ==> ops[k].Mint?) ==> Mints(ops) == |ops|
  {
    if |ops| == 0 {
    } else {
      CountKinds(ops[..|ops| - 1]);
    }
  }

  lemma {:induction false} MintsOfBody(body: Body, o: nat)
    requires o <= |LiveOutputs(body)|
    ensures |LiveInputs(body)| + o <= |TxOps(body)| && Mints(TxOps(body)[..|LiveInputs(body)| + o]) == o
  {
    var ops, ins := TxOps(body), |LiveInputs(body)|;
    assert ops[..ins + o] == ops[..ins] + ops[ins..ins + o];
    MintsAppend(ops[..ins], ops[ins..ins + o]);
    CountKinds(ops[..ins]);
    CountKinds(ops[ins..ins + o]);
  }

  lemma {:induction false} BlockMintCount(txs: seq<Body>)
    ensures Mints(BlockOps(txs)) == OutputCount(txs)
  {
    if |txs| == 0 {
    } else {
      var front, last := txs[..|txs| - 1], txs[|txs| - 1];
      BlockMintCount(front);
      MintsAppend(BlockOps(front), TxOps(last));
      MintsOfBody(last, |LiveOutputs(last)|);
      assert TxOps(last)[..|LiveInputs(last)| + |LiveOutputs(last)|] == TxOps(last);
    }
  }

  // After distinct operations.

  lemma {:induction false} NamedSlot(l: Ledger, ops: seq<Op>, height: u64, k: nat)
    requires Inv(l) && Distinct(OpSlots(ops)) && Run(l, ops, height).Some? && k < |ops|
    ensures Expects(l.slots, ops[k]) && l.alloc + Mints(ops) < COINBASE_TAG
    ensures var slots := Run(l, ops, height).value.slots;
            ops[k].slot < |slots| && slots[ops[k].slot] == OpWrites(l.alloc, ops, height)[k].value
  {
    SimultaneousRuns(l, ops, height);
    var names, writes := OpSlots(ops), OpWrites(l.alloc, ops, height);
    forall a, b | 0 <= a < b < |writes|
      ensures writes[a].slot != writes[b].slot
    {
      assert names[a] != names[b];
    }
    WriteAllAt(l.slots, writes, k);
  }

  lemma {:induction false} SpentSlot(l: Ledger, ops: seq<Op>, height: u64, k: nat)
    requires Inv(l) && Distinct(OpSlots(ops)) && Run(l, ops, height).Some? && k < |ops| && ops[k].Spend?
    ensures SlotAt(l.slots, ops[k].slot) == ops[k].claim
    ensures SlotAt(Run(l, ops, height).value.slots, ops[k].slot) == EMPTY
  {
    NamedSlot(l, ops, height, k);
    OpWritesAt(l.alloc, ops, height, k);
  }

  /** A minted slot was empty and holds the minted amount, owner and id. */
  lemma {:induction false} MintedSlot(l: Ledger, ops: seq<Op>, height: u64, k: nat)
    requires Inv(l) && Distinct(OpSlots(ops)) && Run(l, ops, height).Some? && k < |ops| && ops[k].Mint?
    ensures ops[k].slot < |l.slots| && l.slots[ops[k].slot] == EMPTY
    ensures ops[k].slot < |Run(l, ops, height).value.slots|
    ensures var value := Run(l, ops, height).value.slots[ops[k].slot];
            && value != EMPTY && value.Amount() == ops[k].amount
            && Word256(value.ownerHi, value.ownerLo) == ops[k].owner
            && value.CreationId() == if ops[k].primary then CoinbaseId(height) else l.alloc + Mints(ops[..k]) + 1
  {
    NamedSlot(l, ops, height, k);
    OpWritesAt(l.alloc, ops, height, k);
  }

  lemma {:induction false} UnnamedSlot(l: Ledger, ops: seq<Op>, height: u64, slot: nat)
    requires Inv(l) && Distinct(OpSlots(ops)) && Run(l, ops, height).Some?
    requires forall k :: 0 <= k < |ops| ==> ops[k].slot != slot
    ensures SlotAt(Run(l, ops, height).value.slots, slot) == SlotAt(l.slots, slot)
    ensures |Run(l, ops, height).value.slots| == |l.slots|
  {
    SimultaneousRuns(l, ops, height);
    if slot < |l.slots| {
      WriteAllElsewhere(l.slots, OpWrites(l.alloc, ops, height), slot);
    }
  }

  // A committed block.

  lemma {:induction false} BlockRan(l: Ledger, block: Block)
    requires Inv(l) && ApplyBlock(l, block).Ok?
    ensures var parent, ops := ExpandTo(l, block.header.logSlots), BlockOps(block.transactions);
            && Inv(parent) && parent.alloc == l.alloc && Distinct(OpSlots(ops))
            && Run(parent, ops, block.header.height) == Some(ApplyBlock(l, block).value)
            && (forall i: nat :: SlotAt(parent.slots, i) == SlotAt(l.slots, i))
            && PageStream(block.transactions, V1).Ok?
  {
    BlockIsRun(l, block);
    ExpandToKeeps(l, block.header.logSlots);
    BlockOpSlots(block.transactions);
  }

  /** A live input names a slot that holds exactly what it claims, and leaves it empty. */
  lemma {:induction false} InputIsSpent(l: Ledger, block: Block, t: nat, i: nat)
    requires Inv(l) && ApplyBlock(l, block).Ok?
    requires t < |block.transactions| && i < |LiveInputs(block.transactions[t])|
    ensures var input, owner := LiveInputs(block.transactions[t])[i], block.transactions[t].inputOwner;
            var before := SlotAt(l.slots, input.slotIndex);
            && before.Amount() == input.amount && before.CreationId() == input.creationId
            && before.ownerHi == owner.first && before.ownerLo == owner.second
            && SlotAt(ApplyBlock(l, block).value.slots, input.slotIndex) == EMPTY
  {
    BlockRan(l, block);
    var k := InputOp(block.transactions, t, i);
    SpentSlot(ExpandTo(l, block.header.logSlots), BlockOps(block.transactions), block.header.height, k);
  }

  /** A live output names an empty slot and fills it: its amount and owner, and as id the tagged height
      for the coinbase, the next allocator value for every other output of the block in order. */
  lemma {:induction false} OutputIsMinted(l: Ledger, block: Block, t: nat, o: nat)
    requires Inv(l) && ApplyBlock(l, block).Ok?
    requires t < |block.transactions| && o < |LiveOutputs(block.transactions[t])|
    ensures var output, height := LiveOutputs(block.transactions[t])[o], block.header.height;
            var value := SlotAt(ApplyBlock(l, block).value.slots, output.slotIndex);
            && SlotAt(l.slots, output.slotIndex) == EMPTY
            && value.Amount() == output.amount
            && value.ownerHi == output.owner.first && value.ownerLo == output.owner.second
            && value.CreationId() == if t > 0 then l.alloc + OutputCount(block.transactions[..t]) + o + 1
                                     else if height < 0x8000_0000_0000_0000 then 0x8000_0000_0000_0000 + height
                                     else height
  {
    BlockRan(l, block);
    var txs := block.transactions;
    var k := OutputOp(txs, t, o);
    MintedSlot(ExpandTo(l, block.header.logSlots), BlockOps(txs), block.header.height, k);
    OnlyFirstIsPrimary(txs, t);
  }

  lemma {:induction false} OnlyFirstIsPrimary(txs: seq<Body>, t: nat)
    requires PageStream(txs, V1).Ok? && t < |txs|
    ensures IsPrimaryCoinbase(txs[t]) <==> t == 0
  {
    PayoutErrorUnreachable(txs, V1);
  }

  /** A slot no live record names keeps its value. */
  lemma {:induction false} OthersAreKept(l: Ledger, block: Block, slot: nat)
    requires Inv(l) && ApplyBlock(l, block).Ok? && slot !in BlockSlots(block.transactions)
    ensures SlotAt(ApplyBlock(l, block).value.slots, slot) == SlotAt(l.slots, slot)
  {
    BlockRan(l, block);
    var ops := BlockOps(block.transactions);
    BlockOpSlots(block.transactions);
    forall k | 0 <= k < |ops|
      ensures ops[k].slot != slot
    {
      assert OpSlots(ops)[k] in OpSlots(ops);
    }
    UnnamedSlot(ExpandTo(l, block.header.logSlots), ops, block.header.height, slot);
  }
}
