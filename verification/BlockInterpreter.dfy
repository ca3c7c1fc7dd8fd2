/** The block interpreters as the code runs them: on a clone that replaces the state only on success. */
module BlockInterpreter {
  import opened Types
  import opened ExactState
  import opened SlotVector
  import opened ChainEngine
  import opened Transactions
  import opened Ledger
  import opened TxOperations
  import opened TxTree
  import opened BlockLedger
  import opened TxInterpreter

  lemma {:induction false} LogicalIdsFit(txs: seq<Body>)
    requires PageStream(txs, V1).Ok?
    ensures LogicalTxids(txs).Ok? && 0 < |LogicalTxids(txs).value| <= TX_TREE_LEAVES
  {
    GroupsPartition(txs[UserStart(txs)..]);
  }

  /** `try_compute_tx_root`. The list always fits the universal tree. */
  method TryComputeTxRoot(txs: seq<Body>) returns (r: Result<Digest, PageStreamError>)
    ensures r == BlockTxRoot(txs)
  {
    var ids := LogicalTxids(txs);
    if ids.Err? {
      return Err(ids.error);
    }
    UniversalTreeSize();
    if |txs| > 0 {
      LogicalIdsFit(txs);
    }
    var root := RootFromHashes(ids.value, TX_TREE_DEPTH);
    r := Ok(root);
  }

  /** Expand a private clone until it reaches the header's depth. */
  method ExpandClone(snap: ChainState, target: nat)
    requires snap.Valid()
    modifies snap, snap.state, snap.exactRoots
    ensures snap.Valid() && snap.state == old(snap.state) && snap.exactRoots == old(snap.exactRoots)
    ensures LedgerOf(snap) == ExpandTo(old(LedgerOf(snap)), target)
  {
    while target > snap.state.logSlots
      invariant snap.Valid() && snap.state == old(snap.state) && snap.exactRoots == old(snap.exactRoots)
      invariant ExpandTo(LedgerOf(snap), target) == ExpandTo(old(LedgerOf(snap)), target)
      decreases target - snap.state.logSlots
    {
      snap.ExpandOne();
    }
  }

  lemma {:induction false} ErrorStays(l: Ledger, txs: seq<Body>, system: nat, height: u64, k: nat)
    requires k <= |txs| && ApplyTxs(l, txs[..k], system, height).Err?
    ensures ApplyTxs(l, txs, system, height) == ApplyTxs(l, txs[..k], system, height)
    decreases |txs| - k
  {
    if k < |txs| {
      assert txs[..k + 1][..k] == txs[..k];
      ErrorStays(l, txs, system, height, k + 1);
    } else {
      assert txs[..k] == txs;
    }
  }

  /** Apply the transactions in order to a private clone. */
  method ApplyAll(snap: ChainState, txs: seq<Body>, system: nat, height: u64) returns (e: Option<BlockApplyError>)
    requires snap.Valid()
    modifies snap, snap.state
    ensures snap.Valid() && snap.state == old(snap.state) && snap.exactRoots == old(snap.exactRoots)
    ensures e.Some? ==> ApplyTxs(old(LedgerOf(snap)), txs, system, height) == Err(e.value)
    ensures e.None? ==> ApplyTxs(old(LedgerOf(snap)), txs, system, height) == Ok(LedgerOf(snap))
  {
    ghost var before := LedgerOf(snap);
    for k := 0 to |txs|
      invariant snap.Valid() && snap.state == old(snap.state) && snap.exactRoots == old(snap.exactRoots)
      invariant ApplyTxs(before, txs[..k], system, height) == Ok(LedgerOf(snap))
    {
      assert txs[..k + 1][..k] == txs[..k];
      if k < system && !CanonicalBody(txs[k]) {
        ErrorStays(before, txs, system, height, k + 1);
        return Some(InvalidTxBody);
      }
      var failed := ApplyTxDeferredRoot(snap, txs[k], Some(height));
      if failed.Some? {
        ErrorStays(before, txs, system, height, k + 1);
        return Some(Tx(failed.value));
      }
    }
    assert txs[..|txs|] == txs;
    e := None;
  }

  /** Seal the clone and compare it with the header. */
  method CheckHeader(snap: ChainState, block: Block) returns (e: Option<BlockApplyError>)
    requires snap.Valid()
    modifies snap`utxoRoot, snap`sealed, snap.state`exactDirty, snap.exactRoots
    ensures snap.Valid() && LedgerOf(snap) == old(LedgerOf(snap))
    ensures snap.utxoRoot == StateRoot(snap.Slots(), snap.state.logSlots)
    ensures e == HeaderError(LedgerOf(snap), block)
  {
    var root := snap.TryStateRoot();
    if root.Some? && block.header.stateRoot != root.value {
      return Some(HeaderStateRootMismatch);
    }
    if block.header.activeSlotCount != snap.activeSlotCount {
      return Some(HeaderActiveSlotCountMismatch);
    }
    if block.header.allocCounter != snap.allocCounter {
      return Some(HeaderAllocCounterMismatch);
    }
    if block.header.logSlots != snap.state.logSlots {
      return Some(HeaderLogSlotsMismatch);
    }
    var txRoot := TryComputeTxRoot(block.transactions);
    if txRoot.Err? {
      return Some(InvalidPagedSpend);
    }
    if block.header.txRoot != txRoot.value {
      return Some(HeaderTxRootMismatch);
    }
    e := None;
  }

  /** `*state = snap`. */
  method Replace(s: ChainState, snap: ChainState)
    requires snap.Valid() && s != snap
    modifies s
    ensures s.Valid() && s.state == snap.state && s.exactRoots == snap.exactRoots
    ensures LedgerOf(s) == LedgerOf(snap) && s.utxoRoot == snap.utxoRoot
  {
    s.state, s.exactRoots, s.utxoRoot := snap.state, snap.exactRoots, snap.utxoRoot;
    s.activeSlotCount, s.allocCounter := snap.activeSlotCount, snap.allocCounter;
    s.circulatingSupply := snap.circulatingSupply;
    s.sealed := snap.sealed;
  }

  method SystemInputsPresent(txs: seq<Body>) returns (found: bool)
    requires UserStart(txs) <= |txs|
    ensures found <==> SystemHasInputs(txs)
  {
    for k := 0 to UserStart(txs)
      invariant forall i :: 0 <= i < k ==> |LiveInputs(txs[i])| == 0
    {
      if |LiveInputs(txs[k])| != 0 {
        return true;
      }
    }
    found := false;
  }

  /** The checked interpreter up to the header: checks, expansion, transactions, all on the clone. */
  method RunChecked(snap: ChainState, block: Block) returns (e: Option<BlockApplyError>)
    requires snap.Valid()
    modifies snap, snap.state, snap.exactRoots
    ensures snap.Valid() && snap.state == old(snap.state) && snap.exactRoots == old(snap.exactRoots)
    ensures e.Some? ==> ApplyBlock(old(LedgerOf(snap)), block) == Err(e.value)
    ensures e.None? ==> ApplyBlock(old(LedgerOf(snap)), block) == Ok(LedgerOf(snap))
    ensures e.None? ==> snap.utxoRoot == StateRoot(snap.Slots(), snap.state.logSlots)
  {
    var txs, header := block.transactions, block.header;
    if |txs| > BLOCK_MAX_TXS {
      return Some(TooManyTransactions);
    }
    if PageStream(txs, V1).Err? {
      return Some(InvalidPagedSpend);
    }
    var distinct := ValidateBlockSlotConflicts(txs);
    if !distinct {
      return Some(SlotConflict);
    }
    var systemInputs := SystemInputsPresent(txs);
    if systemInputs {
      return Some(CoinbaseHasInputs);
    }
    ExpandClone(snap, header.logSlots);
    e := ApplyAll(snap, txs, UserStart(txs), header.height);
    if e.Some? {
      return;
    }
    e := CheckHeader(snap, block);
  }

  /** `apply_block`: commits exactly what the ledger semantics commits; any error changes nothing. */
  method ApplyBlockTo(s: ChainState, block: Block) returns (r: Result<Digest, BlockApplyError>)
    requires s.Valid()
    modifies s
    ensures s.Valid()
    ensures r.Err? ==> ApplyBlock(old(LedgerOf(s)), block) == Err(r.error) && unchanged(s)
    ensures r.Ok? ==> ApplyBlock(old(LedgerOf(s)), block) == Ok(LedgerOf(s))
    ensures r.Ok? ==> r.value == s.utxoRoot == StateRoot(s.Slots(), s.state.logSlots) == block.header.stateRoot
  {
    var snap := new ChainState.Clone(s);
    var e := RunChecked(snap, block);
    assert unchanged(s) && unchanged(s.state) && unchanged(s.exactRoots);
    if e.Some? {
      return Err(e.value);
    }
    Replace(s, snap);
    r := Ok(s.utxoRoot);
  }

  // The blind interpreter.

  lemma {:induction false} BlindErrorStays(c: Counters, ops: seq<Op>, k: nat)
    requires k <= |ops| && BlindCounters(c, ops[..k]).Err?
    ensures BlindCounters(c, ops) == BlindCounters(c, ops[..k])
    decreases |ops| - k
  {
    if k < |ops| {
      assert ops[..k + 1][..k] == ops[..k];
      BlindErrorStays(c, ops, k + 1);
    } else {
      assert ops[..k] == ops;
    }
  }

  /** The counters and the pending writes after a prefix of operations. */
  ghost predicate BlindAt(start: Counters, ops: seq<Op>, height: u64, c: Counters, writes: seq<Write>) {
    && BlindCounters(start, ops) == Ok(c)
    && (Mints(ops) > 0 ==> start.alloc + Mints(ops) < COINBASE_TAG)
    && (start.alloc + Mints(ops) < COINBASE_TAG ==> writes == OpWrites(start.alloc, ops, height))
  }

  /** One operation: counters first, then the pending write; no slot is read. */
  method BlindOne(ghost start: Counters, ghost done: seq<Op>, c: Counters, op: Op, height: u64, writes: seq<Write>)
    returns (r: Result<Counters, ApplyError>, more: seq<Write>)
    requires BlindAt(start, done, height, c, writes)
    ensures r == BlindCounters(start, done + [op])
    ensures r.Ok? ==> BlindAt(start, done + [op], height, r.value, more)
  {
    assert (done + [op])[..|done|] == done;
    r := BlindStep(c, op);
    more := writes;
    if r.Ok? {
      BlindAlloc(start, done);
      BlindAlloc(start, done + [op]);
      more := writes + [OpWrite(c.alloc, op, height)];
      if start.alloc + Mints(done + [op]) < COINBASE_TAG {
        OpWritesSnoc(start.alloc, done, op, height);
      }
    }
  }

  /** A transaction: its live inputs, then its live outputs. */
  method BlindTx(ghost start: Counters, ghost done: seq<Op>, c: Counters, body: Body, height: u64, writes: seq<Write>)
    returns (r: Result<Counters, ApplyError>, more: seq<Write>)
    requires BlindAt(start, done, height, c, writes)
    ensures r == BlindCounters(start, done + TxOps(body))
    ensures r.Ok? ==> BlindAt(start, done + TxOps(body), height, r.value, more)
  {
    var ops := TxOps(body);
    r, more := Ok(c), writes;
    assert done + ops[..0] == done;
    for k := 0 to |ops|
      invariant r.Ok? && BlindAt(start, done + ops[..k], height, r.value, more)
    {
      assert done + ops[..k + 1] == done + ops[..k] + [ops[k]];
      r, more := BlindOne(start, done + ops[..k], r.value, ops[k], height, more);
      if r.Err? {
        assert (done + ops)[..|done| + k + 1] == done + ops[..k + 1];
        BlindErrorStays(start, done + ops, |done| + k + 1);
        return;
      }
    }
    assert ops[..|ops|] == ops;
  }

  lemma {:induction false} BlindBlockFails(start: Counters, txs: seq<Body>, k: nat)
    requires k <= |txs| && BlindCounters(start, BlockOps(txs[..k])).Err?
    ensures BlindCounters(start, BlockOps(txs)) == BlindCounters(start, BlockOps(txs[..k]))
  {
    BlockOpsPrefix(txs, k);
    BlindErrorStays(start, BlockOps(txs), |BlockOps(txs[..k])|);
  }

  /** All transactions' counters and writes, reading no slot. */
  method BlindAll(start: Counters, txs: seq<Body>, height: u64)
    returns (r: Result<Counters, ApplyError>, writes: seq<Write>)
    ensures r == BlindCounters(start, BlockOps(txs))
    ensures r.Ok? ==> BlindAt(start, BlockOps(txs), height, r.value, writes)
  {
    r, writes := Ok(start), [];
    for k := 0 to |txs|
      invariant r.Ok? && BlindAt(start, BlockOps(txs[..k]), height, r.value, writes)
    {
      assert txs[..k + 1][..k] == txs[..k];
      assert BlockOps(txs[..k + 1]) == BlockOps(txs[..k]) + TxOps(txs[k]);
      r, writes := BlindTx(start, BlockOps(txs[..k]), r.value, txs[k], height, writes);
      if r.Err? {
        BlindBlockFails(start, txs, k + 1);
        return;
      }
    }
    assert txs[..|txs|] == txs;
  }

  method RunBlind(snap: ChainState, block: Block) returns (e: Option<BlockApplyError>)
    requires snap.Valid()
    modifies snap, snap.state, snap.exactRoots
    ensures snap.Valid() && snap.state == old(snap.state) && snap.exactRoots == old(snap.exactRoots)
    ensures e.Some? ==> ApplyDelta(old(LedgerOf(snap)), block) == Err(e.value)
    ensures e.None? ==> ApplyDelta(old(LedgerOf(snap)), block) == Ok(LedgerOf(snap))
    ensures e.None? ==> snap.utxoRoot == StateRoot(snap.Slots(), snap.state.logSlots)
  {
    var txs, header := block.transactions, block.header;
    var distinct := ValidateBlockSlotConflicts(txs);
    if !distinct {
      return Some(SlotConflict);
    }
    if PageStream(txs, V1).Err? {
      return Some(InvalidPagedSpend);
    }
    var txRoot := TryComputeTxRoot(txs);
    if txRoot.Err? {
      return Some(InvalidPagedSpend);
    }
    if header.txRoot != txRoot.value {
      return Some(HeaderTxRootMismatch);
    }
    ExpandClone(snap, header.logSlots);
    StreamMints(txs);
    e := BlindDelta(snap, txs, header);
  }

  /** Batch every write, then compare counters, depth and root with the header. */
  method BlindDelta(snap: ChainState, txs: seq<Body>, header: Header) returns (e: Option<BlockApplyError>)
    requires snap.Valid() && Mints(BlockOps(txs)) > 0
    modifies snap, snap.state, snap.exactRoots
    ensures snap.Valid() && snap.state == old(snap.state) && snap.exactRoots == old(snap.exactRoots)
    ensures e.Some? ==> DeltaOnto(old(LedgerOf(snap)), txs, header) == Err(e.value)
    ensures e.None? ==> DeltaOnto(old(LedgerOf(snap)), txs, header) == Ok(LedgerOf(snap))
    ensures e.None? ==> snap.utxoRoot == StateRoot(snap.Slots(), snap.state.logSlots)
  {
    var counters := Counters(snap.activeSlotCount, snap.allocCounter, snap.circulatingSupply);
    var blind, writes := BlindAll(counters, txs, header.height);
    if blind.Err? {
      return Some(Tx(blind.error));
    }
    var ok := snap.ApplyDelta(writes);
    if !ok {
      return Some(Tx(SlotOutOfRange));
    }
    BlindSupplyFits(counters, BlockOps(txs));
    e := BlindHeader(snap, header, blind.value);
  }

  /** The blind interpreter's header checks, in its order. */
  method BlindHeader(snap: ChainState, header: Header, c: Counters) returns (e: Option<BlockApplyError>)
    requires snap.Valid() && c.supply < U128_LIMIT
    modifies snap, snap.state, snap.exactRoots
    ensures snap.Valid() && snap.state == old(snap.state) && snap.exactRoots == old(snap.exactRoots)
    ensures e == BlindHeaderError(old(LedgerOf(snap)), header, c)
    ensures e.None? ==> LedgerOf(snap) == old(LedgerOf(snap)).(active := c.active, alloc := c.alloc, supply := c.supply)
    ensures e.None? ==> snap.utxoRoot == StateRoot(snap.Slots(), snap.state.logSlots)
  {
    if header.activeSlotCount != c.active {
      return Some(HeaderActiveSlotCountMismatch);
    }
    if header.allocCounter != c.alloc {
      return Some(HeaderAllocCounterMismatch);
    }
    snap.activeSlotCount, snap.allocCounter, snap.circulatingSupply := c.active, c.alloc, c.supply;
    if header.logSlots != snap.state.logSlots {
      return Some(HeaderLogSlotsMismatch);
    }
    var root := snap.TryStateRoot();
    if root.Some? && header.stateRoot != root.value {
      return Some(HeaderStateRootMismatch);
    }
    e := None;
  }

  lemma {:induction false} BlindSupplyFits(c: Counters, ops: seq<Op>)
    requires c.supply < U128_LIMIT && BlindCounters(c, ops).Ok?
    ensures BlindCounters(c, ops).value.supply < U128_LIMIT
  {
    if |ops| == 0 {
    } else {
      BlindSupplyFits(c, ops[..|ops| - 1]);
    }
  }

  /** `apply_state_delta`: the same atomicity, without reading a slot. */
  method ApplyStateDeltaTo(s: ChainState, block: Block) returns (r: Result<Digest, BlockApplyError>)
    requires s.Valid()
    modifies s
    ensures s.Valid()
    ensures r.Err? ==> ApplyDelta(old(LedgerOf(s)), block) == Err(r.error) && unchanged(s)
    ensures r.Ok? ==> ApplyDelta(old(LedgerOf(s)), block) == Ok(LedgerOf(s))
    ensures r.Ok? ==> r.value == s.utxoRoot == StateRoot(s.Slots(), s.state.logSlots) == block.header.stateRoot
  {
    var snap := new ChainState.Clone(s);
    var e := RunBlind(snap, block);
    assert unchanged(s) && unchanged(s.state) && unchanged(s.exactRoots);
    if e.Some? {
      return Err(e.value);
    }
    Replace(s, snap);
    r := Ok(s.utxoRoot);
  }

  /** `apply_genesis_block`: accepts exactly the empty block that commits to the state it is given. */
  method ApplyGenesisBlock(s: ChainState, block: Block) returns (r: Result<Digest, BlockApplyError>)
    requires s.Valid() && block.header.height == 0
    modifies s`utxoRoot, s`sealed, s.state`exactDirty, s.exactRoots
    ensures s.Valid() && LedgerOf(s) == old(LedgerOf(s))
    ensures r.Ok? <==>
            && block.transactions == [] && block.header.txRoot == ZeroDigest
            && block.header.stateRoot == StateRoot(s.Slots(), s.state.logSlots)
            && block.header.activeSlotCount == 0 && block.header.allocCounter == 0
    ensures r.Ok? ==> r.value == block.header.stateRoot
  {
    if |block.transactions| > BLOCK_MAX_TXS {
      return Err(TooManyTransactions);
    }
    if |block.transactions| != 0 {
      return Err(GenesisHasTransactions);
    }
    if block.header.txRoot != ZeroDigest {
      return Err(HeaderTxRootMismatch);
    }
    var root := s.TryStateRoot();
    if root.Some? && block.header.stateRoot != root.value {
      return Err(HeaderStateRootMismatch);
    }
    if block.header.activeSlotCount != 0 || block.header.allocCounter != 0 {
      return Err(HeaderActiveSlotCountMismatch);
    }
    r := Ok(block.header.stateRoot);
  }
}
