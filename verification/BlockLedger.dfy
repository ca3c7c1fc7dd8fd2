/** The two block interpreters on ledger values: the checked one, transaction by transaction, and
    the blind one, which trusts the claims and batches every write. */
module BlockLedger {
  import opened Powers
  import opened Types
  import opened ExactState
  import opened SlotVector
  import opened Transactions
  import opened Ledger
  import opened TxOperations
  import opened TxTree

  datatype Block = Block(header: Header, transactions: seq<Body>)

  datatype BlockApplyError =
    | Tx(error: ApplyError)
    | TooManyTransactions
    | GenesisHasTransactions
    | InvalidTxBody
    | InvalidPagedSpend
    | SlotConflict
    | HeaderStateRootMismatch
    | HeaderTxRootMismatch
    | HeaderActiveSlotCountMismatch
    | HeaderAllocCounterMismatch
    | HeaderLogSlotsMismatch
    | CoinbaseHasInputs

  /** Expand until the slot domain reaches the header's depth. */
  function ExpandTo(l: Ledger, target: nat): (m: Ledger)
    ensures m.logSlots == if target > l.logSlots then target else l.logSlots
    ensures m == l.(slots := m.slots, logSlots := m.logSlots)
    decreases target - l.logSlots
  {
    if target > l.logSlots then ExpandTo(l.(slots := Expand(l.slots), logSlots := l.logSlots + 1), target) else l
  }

  lemma {:induction false} ExpandToKeeps(l: Ledger, target: nat)
    requires Inv(l)
    ensures Inv(ExpandTo(l, target))
    ensures Total(LiveSlots, ExpandTo(l, target).slots) == Total(LiveSlots, l.slots)
    ensures forall i: nat :: SlotAt(ExpandTo(l, target).slots, i) == SlotAt(l.slots, i)
    decreases target - l.logSlots
  {
    if target <= l.logSlots {
    } else {
      var m := l.(slots := Expand(l.slots), logSlots := l.logSlots + 1);
      TotalEmptyTail(Money, l.slots, |l.slots|);
      TotalEmptyTail(LiveSlots, l.slots, |l.slots|);
      ExpandTimesKeepsSlots(l.slots, 1);
      assert ExpandTimes(l.slots, 1) == Expand(l.slots) by { assert ExpandTimes(l.slots, 0) == l.slots; }
      assert forall i :: U32_LIMIT <= i < |m.slots| ==> m.slots[i] == SlotAt(l.slots, i) == EMPTY;
      ExpandToKeeps(m, target);
    }
  }

  /** The system records are canonical bodies; user pages were validated as a stream. */
  function ApplyTxs(l: Ledger, txs: seq<Body>, system: nat, height: u64): Result<Ledger, BlockApplyError> {
    if |txs| == 0 then Ok(l)
    else match ApplyTxs(l, txs[..|txs| - 1], system, height)
      case Err(error) => Err(error)
      case Ok(m) =>
        var k := |txs| - 1;
        if k < system && !CanonicalBody(txs[k]) then Err(InvalidTxBody)
        else match ApplyTx(m, txs[k], Some(height))
          case Err(error) => Err(Tx(error))
          case Ok(next) => Ok(next)
  }

  /** The logical root a block's transactions commit to. */
  function BlockTxRoot(txs: seq<Body>): Result<Digest, PageStreamError> {
    match LogicalTxids(txs)
    case Err(error) => Err(error)
    case Ok(ids) => Ok(TxRoot(ids, TX_TREE_DEPTH))
  }

  /** The header checks of the checked interpreter, in its order. */
  function HeaderError(m: Ledger, block: Block): Option<BlockApplyError> {
    var header := block.header;
    if header.stateRoot != StateRoot(m.slots, m.logSlots) then Some(HeaderStateRootMismatch)
    else if header.activeSlotCount != m.active then Some(HeaderActiveSlotCountMismatch)
    else if header.allocCounter != m.alloc then Some(HeaderAllocCounterMismatch)
    else if header.logSlots != m.logSlots then Some(HeaderLogSlotsMismatch)
    else match BlockTxRoot(block.transactions)
      case Err(_) => Some(InvalidPagedSpend)
      case Ok(root) => if header.txRoot != root then Some(HeaderTxRootMismatch) else None
  }

  predicate SystemHasInputs(txs: seq<Body>) {
    exists k :: 0 <= k < UserStart(txs) && k < |txs| && |LiveInputs(txs[k])| != 0
  }

  /** `apply_block`. */
  function ApplyBlock(l: Ledger, block: Block): Result<Ledger, BlockApplyError> {
    var txs := block.transactions;
    if |txs| > BLOCK_MAX_TXS then Err(TooManyTransactions)
    else if PageStream(txs, V1).Err? then Err(InvalidPagedSpend)
    else if !Distinct(BlockSlots(txs)) then Err(SlotConflict)
    else if SystemHasInputs(txs) then Err(CoinbaseHasInputs)
    else match ApplyTxs(ExpandTo(l, block.header.logSlots), txs, UserStart(txs), block.header.height)
      case Err(error) => Err(error)
      case Ok(m) => if HeaderError(m, block).Some? then Err(HeaderError(m, block).value) else Ok(m)
  }

  // The operations of a block.

  function BlockOps(txs: seq<Body>): seq<Op> {
    if |txs| == 0 then [] else BlockOps(txs[..|txs| - 1]) + TxOps(txs[|txs| - 1])
  }

  lemma {:induction false} BlockOpSlots(txs: seq<Body>)
    ensures OpSlots(BlockOps(txs)) == BlockSlots(txs)
  {
    if |txs| == 0 {
    } else {
      BlockOpSlots(txs[..|txs| - 1]);
      ActionOpSlots(LiveAction(txs[|txs| - 1]));
      var front, last := BlockOps(txs[..|txs| - 1]), TxOps(txs[|txs| - 1]);
      assert OpSlots(front + last) == OpSlots(front) + OpSlots(last);
    }
  }

  lemma {:induction false} BlockOpsPrefix(txs: seq<Body>, k: nat)
    requires k <= |txs|
    ensures |BlockOps(txs[..k])| <= |BlockOps(txs)| && BlockOps(txs)[..|BlockOps(txs[..k])|] == BlockOps(txs[..k])
    decreases |txs| - k
  {
    if k < |txs| {
      var short, long := BlockOps(txs[..k]), BlockOps(txs[..k + 1]);
      assert txs[..k + 1][..k] == txs[..k];
      BlockOpsPrefix(txs, k + 1);
      assert BlockOps(txs)[..|short|] == long[..|short|] == short;
    } else {
      assert txs[..k] == txs;
    }
  }

  predicate SystemCanonical(txs: seq<Body>, system: nat) {
    forall k :: 0 <= k < |txs| && k < system ==> CanonicalBody(txs[k])
  }

  lemma {:induction false} DistinctParts(txs: seq<Body>)
    requires |txs| > 0 && Distinct(BlockSlots(txs))
    ensures Distinct(BlockSlots(txs[..|txs| - 1])) && Distinct(BodySlots(txs[|txs| - 1]))
  {
    var front, last := BlockSlots(txs[..|txs| - 1]), BodySlots(txs[|txs| - 1]);
    DistinctPrefix(front, last);
    forall i, j | 0 <= i < j < |last|
      ensures last[i] != last[j]
    {
      assert (front + last)[|front| + i] == last[i] && (front + last)[|front| + j] == last[j];
    }
  }

  /** One more transaction on a ledger the operations have already reached. */
  lemma {:induction false} TxExtendsRun(l: Ledger, m: Ledger, front: seq<Op>, body: Body, height: u64)
    requires Inv(l) && Run(l, front, height) == Some(m) && Distinct(BodySlots(body))
    ensures ApplyTx(m, body, Some(height)).Ok? <==> Run(l, front + TxOps(body), height).Some?
    ensures ApplyTx(m, body, Some(height)).Ok? ==>
              ApplyTx(m, body, Some(height)).value == Run(l, front + TxOps(body), height).value
  {
    RunAppend(l, front, TxOps(body), height);
    RunInv(l, front, height);
    TxIsRun(m, body, height);
  }

  lemma {:induction false} SystemCanonicalSnoc(front: seq<Body>, last: Body, system: nat, txs: seq<Body>)
    requires txs == front + [last]
    ensures SystemCanonical(txs, system) <==>
            SystemCanonical(front, system) && (|front| < system ==> CanonicalBody(last))
  {
    assert forall k :: 0 <= k < |front| ==> txs[k] == front[k];
    assert txs[|front|] == last;
  }

  /** Applying transactions one by one is running the block's operations. */
  lemma {:induction false} TxsAreRun(l: Ledger, txs: seq<Body>, system: nat, height: u64)
    requires Inv(l) && Distinct(BlockSlots(txs))
    ensures ApplyTxs(l, txs, system, height).Ok? <==>
            SystemCanonical(txs, system) && Run(l, BlockOps(txs), height).Some?
    ensures ApplyTxs(l, txs, system, height).Ok? ==>
              ApplyTxs(l, txs, system, height).value == Run(l, BlockOps(txs), height).value
  {
    if |txs| == 0 {
    } else {
      var front, last := txs[..|txs| - 1], txs[|txs| - 1];
      DistinctParts(txs);
      TxsAreRun(l, front, system, height);
      SystemCanonicalSnoc(front, last, system, txs);
      if Run(l, BlockOps(front), height).Some? {
        TxExtendsRun(l, Run(l, BlockOps(front), height).value, BlockOps(front), last, height);
      } else {
        RunAppend(l, BlockOps(front), TxOps(last), height);
      }
    }
  }

  lemma {:induction false} PrimaryShape(body: Body)
    requires IsPrimaryCoinbase(body) || IsDevelopmentPayout(body)
    ensures |LiveInputs(body)| == 0
    ensures |LiveOutputs(body)| == if IsPrimaryCoinbase(body) then 1 else 2
  {
    SystemInputsDead(body);
    assert Bit(0x300, 8) && Bit(0x300, 9) && Bit(0x100, 8) && !Bit(0x100, 9) by { SystemBits(); }
    assert LiveOutputsFrom(body, 2) == [];
    assert LiveOutputsFrom(body, 0)
        == (if OutputIsLive(body, 0) then [body.outputs[0]] else []) + LiveOutputsFrom(body, 1);
  }

  lemma {:induction false} SystemBits()
    ensures Bit(0x300, 8) && Bit(0x300, 9) && Bit(0x100, 8) && !Bit(0x100, 9)
    ensures forall i :: 0 <= i < 8 ==> !Bit(0x100, i) && !Bit(0x300, i)
  {
    HighBits(0x100, 8, 1);
    HighBits(0x300, 8, 3);
  }

  /** A number `top * 2^n` has no bit below `n`. */
  lemma {:induction false} HighBits(x: nat, n: nat, top: nat)
    requires n == 8 && x == top * 256
    ensures Shr(x, 8) == top && Shr(x, 9) == top / 2
    ensures forall i :: 0 <= i < 8 ==> !Bit(x, i)
  {
    assert Shr(x, 0) == top * 256;
    assert Shr(x, 1) == top * 128;
    assert Shr(x, 2) == top * 64;
    assert Shr(x, 3) == top * 32;
    assert Shr(x, 4) == top * 16;
    assert Shr(x, 5) == top * 8;
    assert Shr(x, 6) == top * 4;
    assert Shr(x, 7) == top * 2;
  }

  lemma {:induction false} SystemInputsDead(body: Body)
    requires IsPrimaryCoinbase(body) || IsDevelopmentPayout(body)
    ensures LiveInputs(body) == []
  {
    SystemBits();
    DeadInputs(body, 0);
  }

  /** The stream fixes the system records' shapes, so `CoinbaseHasInputs` cannot be returned. */
  lemma {:induction false} SystemInputsUnreachable(txs: seq<Body>)
    requires PageStream(txs, V1).Ok?
    ensures !SystemHasInputs(txs)
  {
    forall k | 0 <= k < UserStart(txs) && k < |txs|
      ensures |LiveInputs(txs[k])| == 0
    {
      PrimaryShape(txs[k]);
    }
  }

  /** Only the first operation of a block may carry the height tag. */
  predicate OnePrimary(ops: seq<Op>) {
    && |ops| > 0 && ops[0].Mint? && ops[0].primary
    && forall k :: 0 < k < |ops| ==> ops[k].Mint? ==> !ops[k].primary
  }

  lemma {:induction false} OpsOfFirst(txs: seq<Body>)
    requires |txs| > 0
    ensures |BlockOps(txs)| >= |TxOps(txs[0])| && BlockOps(txs)[..|TxOps(txs[0])|] == TxOps(txs[0])
    ensures forall k :: |TxOps(txs[0])| <= k < |BlockOps(txs)| && BlockOps(txs)[k].Mint? && BlockOps(txs)[k].primary ==>
              exists t :: 0 < t < |txs| && IsPrimaryCoinbase(txs[t])
  {
    var front, last := txs[..|txs| - 1], txs[|txs| - 1];
    if |txs| == 1 {
      assert front == [];
      assert BlockOps(txs) == TxOps(txs[0]);
    } else {
      OpsOfFirst(front);
      assert forall t :: 0 < t < |front| && IsPrimaryCoinbase(front[t]) ==> IsPrimaryCoinbase(txs[t]);
      PrimaryOps(last);
    }
  }

  lemma {:induction false} PrimaryOps(body: Body)
    ensures forall k :: 0 <= k < |TxOps(body)| && TxOps(body)[k].Mint? ==>
            TxOps(body)[k].primary == IsPrimaryCoinbase(body)
  {
  }

  lemma {:induction false} BlockHasOnePrimary(txs: seq<Body>)
    requires PageStream(txs, V1).Ok?
    ensures OnePrimary(BlockOps(txs))
  {
    PayoutErrorUnreachable(txs, V1);
    OpsOfFirst(txs);
    PrimaryShape(txs[0]);
    PrimaryOps(txs[0]);
    assert |TxOps(txs[0])| == 1;
    assert BlockOps(txs)[0] == TxOps(txs[0])[0];
  }

  lemma {:induction false} FirstMintCounts(ops: seq<Op>)
    requires |ops| > 0 && ops[0].Mint?
    ensures Mints(ops) >= 1
  {
    if |ops| <= 1 {
    } else {
      FirstMintCounts(ops[..|ops| - 1]);
    }
  }

  /** What acceptance means, without naming the order of the checks. */
  predicate Accepts(l: Ledger, block: Block) {
    var txs, header := block.transactions, block.header;
    var parent := ExpandTo(l, header.logSlots);
    && |txs| <= BLOCK_MAX_TXS && PageStream(txs, V1).Ok? && Distinct(BlockSlots(txs))
    && SystemCanonical(txs, UserStart(txs))
    && Run(parent, BlockOps(txs), header.height).Some?
    && HeaderError(Run(parent, BlockOps(txs), header.height).value, block).None?
  }

  /** A block commits exactly when it is accepted, to the ledger its operations run to. */
  lemma {:induction false} BlockIsRun(l: Ledger, block: Block)
    requires Inv(l)
    ensures ApplyBlock(l, block).Ok? <==> Accepts(l, block)
    ensures ApplyBlock(l, block).Ok? ==>
              ApplyBlock(l, block).value
              == Run(ExpandTo(l, block.header.logSlots), BlockOps(block.transactions), block.header.height).value
  {
    var txs := block.transactions;
    ExpandToKeeps(l, block.header.logSlots);
    if PageStream(txs, V1).Ok? && Distinct(BlockSlots(txs)) {
      SystemInputsUnreachable(txs);
      TxsAreRun(ExpandTo(l, block.header.logSlots), txs, UserStart(txs), block.header.height);
    }
  }

  // The blind interpreter.

  /** Counters threaded through the operations; no slot is read. */
  datatype Counters = Counters(active: nat, alloc: nat, supply: nat)

  function BlindStep(c: Counters, op: Op): Result<Counters, ApplyError> {
    match op
    case Spend(slot, claim) =>
      if c.supply < claim.Amount() then Err(CirculatingSupplyInvariant)
      else if c.active < 1 then Err(ActiveSlotCountUnderflow)
      else Ok(Counters(c.active - 1, c.alloc, c.supply - claim.Amount()))
    case Mint(slot, amount, owner, primary) =>
      if c.alloc + 1 >= COINBASE_TAG then Err(AllocCounterOverflow)
      else if c.active + 1 >= U64_LIMIT then Err(ActiveSlotCountOverflow)
      else if c.supply + amount >= U128_LIMIT then Err(CirculatingSupplyInvariant)
      else Ok(Counters(c.active + 1, c.alloc + 1, c.supply + amount))
  }

  function BlindCounters(c: Counters, ops: seq<Op>): Result<Counters, ApplyError> {
    if |ops| == 0 then Ok(c)
    else match BlindCounters(c, ops[..|ops| - 1])
      case Err(error) => Err(error)
      case Ok(d) => BlindStep(d, ops[|ops| - 1])
  }

  function CountersOf(l: Ledger): Counters {
    Counters(l.active, l.alloc, l.supply)
  }

  lemma {:induction false} BlindAlloc(c: Counters, ops: seq<Op>)
    requires BlindCounters(c, ops).Ok?
    ensures BlindCounters(c, ops).value.alloc == c.alloc + Mints(ops)
    ensures Mints(ops) > 0 ==> c.alloc + Mints(ops) < COINBASE_TAG
  {
    if |ops| == 0 {
    } else {
      BlindAlloc(c, ops[..|ops| - 1]);
    }
  }

  /** The blind delta onto an expanded parent: batch every write, then compare with the header. */
  function DeltaOnto(parent: Ledger, txs: seq<Body>, header: Header): Result<Ledger, BlockApplyError>
    requires Mints(BlockOps(txs)) > 0
  {
    match BlindCounters(CountersOf(parent), BlockOps(txs))
    case Err(error) => Err(Tx(error))
    case Ok(c) =>
      BlindAlloc(CountersOf(parent), BlockOps(txs));
      var writes := OpWrites(parent.alloc, BlockOps(txs), header.height);
      if !InRange(writes, |parent.slots|) then Err(Tx(SlotOutOfRange))
      else
        var written := parent.(slots := WriteAll(parent.slots, writes));
        match BlindHeaderError(written, header, c)
        case Some(error) => Err(error)
        case None => Ok(written.(active := c.active, alloc := c.alloc, supply := c.supply))
  }

  /** A valid stream mints at least its coinbase. */
  lemma {:induction false} StreamMints(txs: seq<Body>)
    requires PageStream(txs, V1).Ok?
    ensures Mints(BlockOps(txs)) > 0
  {
    BlockHasOnePrimary(txs);
    FirstMintCounts(BlockOps(txs));
  }

  function BlindHeaderError(written: Ledger, header: Header, c: Counters): Option<BlockApplyError> {
    if header.activeSlotCount != c.active then Some(HeaderActiveSlotCountMismatch)
    else if header.allocCounter != c.alloc then Some(HeaderAllocCounterMismatch)
    else if header.logSlots != written.logSlots then Some(HeaderLogSlotsMismatch)
    else if header.stateRoot != StateRoot(written.slots, written.logSlots) then Some(HeaderStateRootMismatch)
    else None
  }

  /** `apply_state_delta`. */
  function ApplyDelta(l: Ledger, block: Block): Result<Ledger, BlockApplyError> {
    var txs, header := block.transactions, block.header;
    if !Distinct(BlockSlots(txs)) then Err(SlotConflict)
    else if PageStream(txs, V1).Err? then Err(InvalidPagedSpend)
    else if BlockTxRoot(txs).Err? then Err(InvalidPagedSpend)
    else if header.txRoot != BlockTxRoot(txs).value then Err(HeaderTxRootMismatch)
    else
      StreamMints(txs);
      DeltaOnto(ExpandTo(l, header.logSlots), txs, header)
  }

  lemma {:induction false} BlindStepFollows(l: Ledger, op: Op, height: u64)
    requires Inv(l) && Step(l, op, height).Some?
    ensures BlindStep(CountersOf(l), op) == Ok(CountersOf(Step(l, op, height).value))
  {
    StepInv(l, op, height);
    var m := Step(l, op, height).value;
    ActiveBounded(m);
    TotalBound(Money, m.slots);
  }

  /** Where the operations run, the blind counters follow them exactly. */
  lemma {:induction false} BlindFollows(l: Ledger, ops: seq<Op>, height: u64)
    requires Inv(l) && Run(l, ops, height).Some?
    ensures BlindCounters(CountersOf(l), ops) == Ok(CountersOf(Run(l, ops, height).value))
  {
    if |ops| == 0 {
    } else {
      var front := ops[..|ops| - 1];
      BlindFollows(l, front, height);
      RunInv(l, front, height);
      BlindStepFollows(Run(l, front, height).value, ops[|ops| - 1], height);
    }
  }

  /** Blind refines checked: whatever the checked interpreter commits, the blind one commits too,
      to the same slots, counters, supply and root. */
  lemma {:induction false} BlindRefinesChecked(l: Ledger, block: Block)
    requires Inv(l) && ApplyBlock(l, block).Ok?
    ensures ApplyDelta(l, block) == ApplyBlock(l, block)
  {
    BlockIsRun(l, block);
    ExpandToKeeps(l, block.header.logSlots);
    BlockOpSlots(block.transactions);
    StreamMints(block.transactions);
    DeltaOfRun(ExpandTo(l, block.header.logSlots), block, ApplyBlock(l, block).value);
  }

  /** The blind delta of operations that run is where they run to, if the header states it. */
  lemma {:induction false} DeltaOfRun(parent: Ledger, block: Block, m: Ledger)
    requires Inv(parent) && Distinct(OpSlots(BlockOps(block.transactions))) && Mints(BlockOps(block.transactions)) > 0
    requires Run(parent, BlockOps(block.transactions), block.header.height) == Some(m)
    requires HeaderError(m, block).None?
    ensures DeltaOnto(parent, block.transactions, block.header) == Ok(m)
  {
    var ops, height := BlockOps(block.transactions), block.header.height;
    SimultaneousRuns(parent, ops, height);
    BlindFollows(parent, ops, height);
    RunInv(parent, ops, height);
  }

  // What the blind interpreter takes on trust.

  lemma {:induction false} BlindNeverDry(c: Counters, ops: seq<Op>)
    requires BlindCounters(c, ops).Ok?
    ensures NeverDry(c.active, ops)
    ensures BlindCounters(c, ops).value.active == c.active - Spends(ops) + Mints(ops)
  {
    if |ops| > 0 {
      BlindNeverDry(c, ops[..|ops| - 1]);
      NeverDryFront(c.active, ops);
    } else {
      assert ops[..0] == ops;
    }
  }

  /** Where the parent holds what the operations claim, blind counters that come through mean a run. */
  lemma {:induction false} BlindMeansRun(l: Ledger, ops: seq<Op>, height: u64)
    requires Inv(l) && Distinct(OpSlots(ops)) && AllExpected(l.slots, ops) && Mints(ops) > 0
    requires BlindCounters(CountersOf(l), ops).Ok?
    ensures Run(l, ops, height).Some?
  {
    BlindNeverDry(CountersOf(l), ops);
    BlindAlloc(CountersOf(l), ops);
    SimultaneousRuns(l, ops, height);
  }

  /** A valid stream has at most 256 records. */
  lemma {:induction false} StreamFits(txs: seq<Body>)
    requires PageStream(txs, V1).Ok?
    ensures |txs| <= BLOCK_MAX_TXS
  {
  }

  /** The checked interpreter commits exactly what the blind one commits and the parent backs: every
      claim read off the parent, and canonical system records. Nothing else is taken on trust. */
  lemma {:induction false} CheckedIsBlindWithClaims(l: Ledger, block: Block)
    requires Inv(l)
    ensures ApplyBlock(l, block).Ok? <==>
            && ApplyDelta(l, block).Ok?
            && AllExpected(ExpandTo(l, block.header.logSlots).slots, BlockOps(block.transactions))
            && SystemCanonical(block.transactions, UserStart(block.transactions))
  {
    BlockIsRun(l, block);
    if ApplyBlock(l, block).Ok? {
      BlindRefinesChecked(l, block);
      ClaimsHold(l, block);
    } else if ApplyDelta(l, block).Ok?
              && AllExpected(ExpandTo(l, block.header.logSlots).slots, BlockOps(block.transactions))
              && SystemCanonical(block.transactions, UserStart(block.transactions)) {
      BackedDeltaAccepts(l, block);
    }
  }

  lemma {:induction false} ClaimsHold(l: Ledger, block: Block)
    requires Inv(l) && Accepts(l, block)
    ensures AllExpected(ExpandTo(l, block.header.logSlots).slots, BlockOps(block.transactions))
  {
    ExpandToKeeps(l, block.header.logSlots);
    BlockOpSlots(block.transactions);
    SimultaneousRuns(ExpandTo(l, block.header.logSlots), BlockOps(block.transactions), block.header.height);
  }

  lemma {:induction false} BackedDeltaAccepts(l: Ledger, block: Block)
    requires Inv(l) && ApplyDelta(l, block).Ok?
    requires AllExpected(ExpandTo(l, block.header.logSlots).slots, BlockOps(block.transactions))
    requires SystemCanonical(block.transactions, UserStart(block.transactions))
    ensures Accepts(l, block)
  {
    var txs, height := block.transactions, block.header.height;
    var parent := ExpandTo(l, block.header.logSlots);
    ExpandToKeeps(l, block.header.logSlots);
    BlockOpSlots(txs);
    StreamFits(txs);
    StreamMints(txs);
    BlindMeansRun(parent, BlockOps(txs), height);
    SimultaneousRuns(parent, BlockOps(txs), height);
    BlindFollows(parent, BlockOps(txs), height);
    RunInv(parent, BlockOps(txs), height);
  }
}
