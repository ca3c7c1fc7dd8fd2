/** The other place where interpreter and witness builder part: a block that expands by two levels. */
module DeepExpansion {
  import opened Types
  import opened ExactState
  import opened Transactions
  import opened Ledger
  import opened TxOperations
  import opened BlockLedger
  import opened ChainRuns
  import opened HistoryStepWitness
  import opened PhantomSpend

  /** A block of one coinbase whose header states the ledger `m`. */
  function CoinbaseBlock(coinbase: Body, m: Ledger, logSlots: u32, active: u64, alloc: u64, txRoot: Digest): Block {
    var root := StateRoot(m.slots, m.logSlots);
    Block(BlockHeader(ZeroDigest, root, txRoot, 0, 1, ZERO_WORD, 0, ZERO_WORD, logSlots, active, alloc), [coinbase])
  }

  lemma {:induction false} CoinbaseStream(coinbase: Body)
    requires IsSmallCoinbase(coinbase)
    ensures PageStream([coinbase], V1).Ok? && UserStart([coinbase]) == 1
    ensures BlockOps([coinbase]) == [Mint(0, 5, ZERO_WORD, true)] && BlockTxRoot([coinbase]).Ok?
  {
    var txs := [coinbase];
    assert txs[1..] == [] && txs[..0] == [];
    assert Groups<Digest>([]) == Some([]);
    assert UserStream([], V1) == Ok([]);
    assert BlockOps(txs[..0]) == [];
    assert TxOps(coinbase) == [Mint(0, 5, ZERO_WORD, true)];
  }

  lemma {:induction false} FirstMint(l: Ledger)
    requires Inv(l) && |l.slots| > 0 && l.slots[0] == EMPTY && l.active == l.alloc == 0
    ensures var r := Run(l, [Mint(0, 5, ZERO_WORD, true)], 1);
            r.Some? && r.value.active == r.value.alloc == 1 && r.value.logSlots == l.logSlots
  {
    RunOne(l, Mint(0, 5, ZERO_WORD, true), 1);
  }

  /** Expansion keeps an empty first slot. */
  lemma {:induction false} FirstSlotStays(l: Ledger, target: nat)
    requires Inv(l) && SlotAt(l.slots, 0) == EMPTY
    ensures Inv(ExpandTo(l, target))
    ensures |ExpandTo(l, target).slots| > 0 && ExpandTo(l, target).slots[0] == EMPTY
  {
    ExpandToKeeps(l, target);
    assert SlotAt(ExpandTo(l, target).slots, 0) == SlotAt(l.slots, 0);
  }

  lemma {:induction false} CoinbaseAccepted(coinbase: Body, block: Block, l: Ledger, m: Ledger, target: u32)
    requires IsSmallCoinbase(coinbase) && BlockTxRoot([coinbase]).Ok?
    requires Run(ExpandTo(l, target), [Mint(0, 5, ZERO_WORD, true)], 1) == Some(m)
    requires m.logSlots == target && m.active == m.alloc == 1
    requires block == CoinbaseBlock(coinbase, m, target, 1, 1, BlockTxRoot([coinbase]).value)
    ensures Accepts(l, block) && BodyValid(block)
  {
    CoinbaseStream(coinbase);
    BlockOpSlots([coinbase]);
  }

  /** A coinbase-only block two levels above an empty ledger. */
  lemma {:induction false} DeepBlockSplits(l: Ledger, coinbase: Body, target: u32)
    requires Inv(l) && SlotAt(l.slots, 0) == EMPTY && l.active == l.alloc == 0 && IsSmallCoinbase(coinbase)
    requires target > l.logSlots + 1
    ensures exists block :: Splits(l, block) && block.header.logSlots == target && block.transactions == [coinbase]
  {
    CoinbaseStream(coinbase);
    FirstSlotStays(l, target);
    FirstMint(ExpandTo(l, target));
    var m := Run(ExpandTo(l, target), [Mint(0, 5, ZERO_WORD, true)], 1).value;
    var block := CoinbaseBlock(coinbase, m, target, 1, 1, BlockTxRoot([coinbase]).value);
    CoinbaseAccepted(coinbase, block, l, m, target);
    TooDeep(l, block);
  }

  /** From genesis at any depth, a coinbase-only block more than one level deeper: the interpreter
      expands until it fits and commits, the builder takes one level at most. */
  lemma {:induction false} DeepBlockHasNoWitness(logSlots: nat, target: u32)
    requires target > logSlots + 1
    ensures exists block :: Splits(Genesis(logSlots), block) && block.header.logSlots == target
                            && block.transactions == [SmallCoinbase()]
  {
    CoinbaseRecords();
    GenesisTracks(logSlots);
    DeepBlockSplits(Genesis(logSlots), SmallCoinbase(), target);
  }

  lemma {:induction false} TooDeep(l: Ledger, block: Block)
    requires Inv(l) && Accepts(l, block) && block.header.logSlots > l.logSlots + 1
    ensures ApplyBlock(l, block).Ok? && !FrontierAccepts(l, block)
  {
    BlockIsRun(l, block);
  }
}
