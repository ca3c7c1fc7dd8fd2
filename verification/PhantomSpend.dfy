/** A concrete run on which the occupancy counter is wrong: a page spends a slot nobody minted. */
module PhantomSpend {
  import opened Powers
  import opened Types
  import opened ExactState
  import opened SlotVector
  import opened Transactions
  import opened Ledger
  import opened TxOperations
  import opened BlockLedger
  import opened ChainRuns
  import opened HistoryStepWitness

  const PAGE_BITMAP: nat := 0xC01
  const EMPTY_CLAIM := TxInput(1, 0, 0)
  const REWARD := TxOutput(0, 5, ZERO_WORD)

  /** One page: a live input that claims slot 1 empty, no output, no fee. */
  function PhantomPage(): Body {
    TxBody(ZeroDigest, 0, ZERO_WORD, seq(TX_INPUTS, i => if i == 0 then EMPTY_CLAIM else DUMMY_INPUT),
           seq(TX_OUTPUTS, i => DUMMY_OUTPUT), PAGE_BITMAP, false)
  }

  function SmallCoinbase(): Body {
    TxBody(ZeroDigest, 0, ZERO_WORD, seq(TX_INPUTS, i => DUMMY_INPUT),
           seq(TX_OUTPUTS, i => if i == 0 then REWARD else DUMMY_OUTPUT), PRIMARY_BITMAP, true)
  }

  lemma {:induction false} PageBits()
    ensures Bit(PAGE_BITMAP, 0) && Bit(PAGE_BITMAP, START_BIT) && Bit(PAGE_BITMAP, END_BIT)
    ensures forall i :: 0 < i < 10 ==> !Bit(PAGE_BITMAP, i)
  {
    assert Shr(0xC01, 0) == 0xC01;
    assert Shr(0xC01, 1) == 0x600;
    assert Shr(0xC01, 2) == 0x300;
    assert Shr(0xC01, 3) == 0x180;
    assert Shr(0xC01, 4) == 0xC0;
    assert Shr(0xC01, 5) == 0x60;
    assert Shr(0xC01, 6) == 0x30;
    assert Shr(0xC01, 7) == 0x18;
    assert Shr(0xC01, 8) == 0xC;
    assert Shr(0xC01, 9) == 6;
    assert Shr(0xC01, 10) == 3;
    assert Shr(0xC01, 11) == 1;
  }

  lemma {:induction false} DeadOutputs(body: Body)
    requires !OutputIsLive(body, 0) && !OutputIsLive(body, 1)
    ensures LiveOutputs(body) == []
  {
    assert LiveOutputsFrom(body, 2) == [];
    assert LiveOutputsFrom(body, 1) == [];
  }

  /** What matters about the page, without its layout. */
  predicate IsPhantomPage(page: Body) {
    && page.validityBitmap == PAGE_BITMAP && !page.isCoinbase && page.fee == 0 && page.inputOwner == ZERO_WORD
    && DeadRecordsZero(page) && LiveInputs(page) == [EMPTY_CLAIM] && LiveOutputs(page) == []
  }

  predicate IsSmallCoinbase(body: Body) {
    && CanonicalBody(body) && IsPrimaryCoinbase(body) && LiveInputs(body) == [] && LiveOutputs(body) == [REWARD]
  }

  lemma {:induction false} PageRecords()
    ensures IsPhantomPage(PhantomPage())
  {
    PageBits();
    DeadInputs(PhantomPage(), 1);
    DeadOutputs(PhantomPage());
  }

  lemma {:induction false} CoinbaseRecords()
    ensures IsSmallCoinbase(SmallCoinbase())
  {
    SystemInputsDead(SmallCoinbase());
    SystemBits();
    assert LiveOutputsFrom(SmallCoinbase(), 2) == [];
    assert LiveOutputsFrom(SmallCoinbase(), 1) == [];
  }

  lemma {:induction false} FirstFlagOnly(page: Body)
    requires page.validityBitmap == PAGE_BITMAP
    ensures Dense(LiveInputFlags([page])) && Dense(LiveOutputFlags([page]))
  {
    PageBits();
    var pages := [page];
    assert |LiveInputFlags(pages[1..])| == 0 && |LiveOutputFlags(pages[1..])| == 0;
    var flags := LiveInputFlags(pages);
    assert forall i :: 0 < i < |flags| ==> !flags[i];
    var outs := LiveOutputFlags(pages);
    assert forall i :: 0 <= i < |outs| ==> !outs[i];
  }

  lemma {:induction false} PageTotals(page: Body)
    requires IsPhantomPage(page)
    ensures PageInputs([page]) == [EMPTY_CLAIM] && PageOutputs([page]) == []
    ensures InputSum(PageInputs([page])) == 0 && OutputSum(PageOutputs([page])) == 0
  {
    assert [page][1..] == [];
    assert [EMPTY_CLAIM][1..] == [];
    assert InputSum([EMPTY_CLAIM]) == EMPTY_CLAIM.amount;
  }

  lemma {:induction false} PageIsSpend(page: Body)
    requires IsPhantomPage(page)
    ensures PagedSpendOk([page])
  {
    PageBits();
    FirstFlagOnly(page);
    PageTotals(page);
  }

  lemma {:induction false} OneGroup(page: Body)
    requires IsPhantomPage(page)
    ensures Groups([page]) == Some([[page]])
  {
    var pages := [page];
    PageBits();
    PageIsSpend(page);
    assert FirstGroup(pages) == Some(1);
    assert pages[..1] == pages && pages[1..] == [];
    assert Groups(pages[1..]) == Some([]);
    assert [pages[..1]] + [] == [[page]];
  }

  lemma {:induction false} StreamOk(coinbase: Body, page: Body)
    requires IsSmallCoinbase(coinbase) && IsPhantomPage(page)
    ensures PageStream([coinbase, page], V1).Ok? && UserStart([coinbase, page]) == 1
  {
    var txs := [coinbase, page];
    OneGroup(page);
    UserPart(page);
    assert UserStart(txs) == 1 && txs[1..] == [page];
    assert forall i :: 1 <= i < |txs| ==> !txs[i].isCoinbase;
    assert ClassFor(1, V1) == Some(B25);
  }

  lemma {:induction false} UserPart(page: Body)
    requires IsPhantomPage(page) && Groups([page]) == Some([[page]])
    ensures UserStream([page], V1) == Ok([[page]])
  {
    PageTotals(page);
  }

  lemma {:induction false} PhantomOps(coinbase: Body, page: Body)
    requires IsSmallCoinbase(coinbase) && IsPhantomPage(page)
    ensures BlockOps([coinbase, page]) == [Mint(0, 5, ZERO_WORD, true), Spend(1, EMPTY)]
  {
    var txs := [coinbase, page];
    assert txs[..1] == [coinbase] && [coinbase][..0] == [];
    assert BlockOps([]) == [];
    assert TxOps(coinbase) == [Mint(0, 5, ZERO_WORD, true)];
    assert TxOps(page) == [Spend(1, EMPTY)];
    assert BlockOps([coinbase]) == [Mint(0, 5, ZERO_WORD, true)];
  }

  function MintedSlot(): SlotValue {
    LiveSlot(5, COINBASE_TAG + 1, ZERO_WORD)
  }

  function WrongLedger(): Ledger {
    Ledger([MintedSlot(), EMPTY], 1, 0, 1, 5)
  }

  lemma {:induction false} FirstStep()
    ensures Step(Genesis(1), Mint(0, 5, ZERO_WORD, true), 1) == Some(WrongLedger().(active := 1))
  {
    var g := Genesis(1);
    assert Pow2(1) == 2;
    assert g.slots == [EMPTY, EMPTY];
    assert g.slots[0 := MintedSlot()] == [MintedSlot(), EMPTY];
  }

  lemma {:induction false} SecondStep()
    ensures Step(WrongLedger().(active := 1), Spend(1, EMPTY), 1) == Some(WrongLedger())
  {
    var m := WrongLedger().(active := 1);
    assert m.slots[1 := EMPTY] == m.slots;
  }

  lemma {:induction false} PhantomRun()
    ensures Run(Genesis(1), [Mint(0, 5, ZERO_WORD, true), Spend(1, EMPTY)], 1) == Some(WrongLedger())
  {
    var a, b := Mint(0, 5, ZERO_WORD, true), Spend(1, EMPTY);
    assert [a, b] == [a] + [b];
    RunAppend(Genesis(1), [a], [b], 1);
    RunOne(Genesis(1), a, 1);
    FirstStep();
    RunOne(WrongLedger().(active := 1), b, 1);
    SecondStep();
  }

  function WrongBlock(coinbase: Body, page: Body, txRoot: Digest): Block {
    Block(BlockHeader(ZeroDigest, StateRoot(WrongLedger().slots, 1), txRoot, 0, 1, ZERO_WORD, 0, ZERO_WORD, 1, 0, 1),
          [coinbase, page])
  }

  lemma {:induction false} SlotsDistinct(coinbase: Body, page: Body)
    requires IsSmallCoinbase(coinbase) && IsPhantomPage(page)
    ensures Distinct(BlockSlots([coinbase, page]))
  {
    PhantomOps(coinbase, page);
    BlockOpSlots([coinbase, page]);
  }

  lemma {:induction false} HeaderMatches(block: Block)
    requires BlockTxRoot(block.transactions).Ok?
    requires block.header.stateRoot == StateRoot(WrongLedger().slots, 1)
    requires block.header.txRoot == BlockTxRoot(block.transactions).value
    requires block.header.activeSlotCount == 0 && block.header.allocCounter == block.header.logSlots == 1
    ensures HeaderError(WrongLedger(), block).None?
  {
  }

  lemma {:induction false} WrongBlockAccepted(coinbase: Body, page: Body)
    requires IsSmallCoinbase(coinbase) && IsPhantomPage(page)
    ensures BlockTxRoot([coinbase, page]).Ok?
    ensures Accepts(Genesis(1), WrongBlock(coinbase, page, BlockTxRoot([coinbase, page]).value))
    ensures Run(Genesis(1), BlockOps([coinbase, page]), 1) == Some(WrongLedger())
  {
    StreamOk(coinbase, page);
    PhantomOps(coinbase, page);
    PhantomRun();
    SlotsDistinct(coinbase, page);
    HeaderMatches(WrongBlock(coinbase, page, BlockTxRoot([coinbase, page]).value));
    assert ExpandTo(Genesis(1), 1) == Genesis(1);
  }

  lemma {:induction false} ExecuteOne(logSlots: nat, block: Block)
    requires block.header.height == 1 && ApplyBlock(Genesis(logSlots), block).Ok?
    ensures Execute(logSlots, [block]) == Some(ApplyBlock(Genesis(logSlots), block).value)
  {
    assert [block][..0] == [];
  }

  lemma {:induction false} WrongRun(coinbase: Body, page: Body)
    requires IsSmallCoinbase(coinbase) && IsPhantomPage(page)
    ensures exists block :: Execute(1, [block]) == Some(WrongLedger())
  {
    WrongBlockAccepted(coinbase, page);
    var block := WrongBlock(coinbase, page, BlockTxRoot([coinbase, page]).value);
    GenesisTracks(1);
    BlockIsRun(Genesis(1), block);
    assert ExpandTo(Genesis(1), 1) == Genesis(1);
    ExecuteOne(1, block);
  }

  lemma {:induction false} OneLiveSlot()
    ensures WrongLedger().active == 0 && Total(LiveSlots, WrongLedger().slots) == 1
  {
    var slots := WrongLedger().slots;
    assert slots[..1] == [MintedSlot()] && [MintedSlot()][..0] == [];
  }

  /** Such a block is accepted from genesis; afterwards one slot is live and the header says none. */
  lemma {:induction false} PhantomInputBreaksCount()
    ensures exists block :: Execute(1, [block]) == Some(WrongLedger())
    ensures WrongLedger().active == 0 && Total(LiveSlots, WrongLedger().slots) == 1
  {
    CoinbaseRecords();
    PageRecords();
    WrongRun(SmallCoinbase(), PhantomPage());
    OneLiveSlot();
  }

  /** The same block has no witness: the aggregate counter subtracts the spend before adding the
      coinbase, so the two implementations part company exactly there. */
  lemma {:induction false} PhantomBlockHasNoWitness()
    ensures exists block :: Splits(Genesis(1), block) && block.transactions == [SmallCoinbase(), PhantomPage()]
  {
    CoinbaseRecords();
    PageRecords();
    WrongBlockSplits(SmallCoinbase(), PhantomPage());
  }

  lemma {:induction false} WrongBlockSplits(coinbase: Body, page: Body)
    requires IsSmallCoinbase(coinbase) && IsPhantomPage(page)
    ensures exists block :: Splits(Genesis(1), block) && block.transactions == [coinbase, page]
  {
    var l, block := WrongBlockExists(coinbase, page);
    OnePhantomSpend(coinbase, page);
    SpendsBeyondCounter(l, block, [coinbase, page]);
  }

  lemma {:induction false} WrongBlockExists(coinbase: Body, page: Body) returns (l: Ledger, block: Block)
    requires IsSmallCoinbase(coinbase) && IsPhantomPage(page)
    ensures l == Genesis(1) && l.active == 0 && Inv(l)
    ensures Accepts(l, block) && block.transactions == [coinbase, page]
  {
    l := Genesis(1);
    GenesisInv(1);
    WrongBlockAccepted(coinbase, page);
    block := WrongBlock(coinbase, page, BlockTxRoot([coinbase, page]).value);
  }

  lemma {:induction false} GenesisInv(logSlots: nat)
    ensures Inv(Genesis(logSlots))
  {
    GenesisTracks(logSlots);
  }

  lemma {:induction false} OnePhantomSpend(coinbase: Body, page: Body)
    requires IsSmallCoinbase(coinbase) && IsPhantomPage(page)
    ensures Spends(BlockOps([coinbase, page])) == 1
  {
    PhantomOps(coinbase, page);
    SpendsOfTwo(Mint(0, 5, ZERO_WORD, true), Spend(1, EMPTY));
  }

  /** A block with more spends than the parent counts live slots splits the two sides. */
  lemma {:induction false} SpendsBeyondCounter(l: Ledger, block: Block, txs: seq<Body>)
    requires Inv(l) && Accepts(l, block) && block.transactions == txs && Spends(BlockOps(txs)) > l.active
    ensures Splits(l, block)
  {
    BlockIsRun(l, block);
  }

  lemma {:induction false} SpendsOfTwo(a: Op, b: Op)
    requires a.Mint? && b.Spend?
    ensures Spends([a, b]) == 1
  {
    assert [a, b][..1] == [a] && [a][..0] == [];
    assert Spends([a]) == 0;
    assert Spends([a, b]) == Spends([a, b][..1]) + 1;
  }
}
