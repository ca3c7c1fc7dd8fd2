/** Witness preparation: the exact-state frontier of a block, recomputed without applying it, and its
    agreement with the block interpreter. */
module HistoryStepWitness {
  import opened Powers
  import opened Types
  import opened Merkle
  import opened ExactState
  import opened SlotVector
  import opened Frontier
  import opened FrontierPlan
  import opened FrontierSoundness
  import opened ChainEngine
  import opened Transactions
  import opened Ledger
  import opened BlockLedger
  import opened ChainRuns
  import opened ChainMoney
  import opened TxInterpreter
  import opened StateDelta

  datatype WitnessError =
    | StateDeltaFailed(delta: StateDeltaError)
    | EmptyExactStateSurface
    | InvalidStateDepthTransition
    | FrontierFailed(frontier: ExactFrontierError)
    | PlanFailed(plan: SparseMerkleError)
    | ParentStateRootMismatch
    | ChildStateRootMismatch
    | StateCounterOverflow
    | ActiveSlotCountMismatch
    | AllocCounterMismatch

  datatype FrontierInputs = FrontierInputs(
    touched: seq<nat>, activeDepth: nat, oldSlots: seq<SlotValue>, newSlots: seq<SlotValue>, siblings: seq<Digest>,
    oldCombines: seq<Digest>, newCombines: seq<Digest>, oldRoot: Digest, newRoot: Digest)

  function LeafHashes(slots: seq<SlotValue>): seq<Digest> {
    seq(|slots|, i requires 0 <= i < |slots| => SlotLeaf(slots[i]))
  }

  /** `after` is `before` with exactly the touched slots replaced by `values`. */
  predicate ReplacesExactly(before: seq<SlotValue>, after: seq<SlotValue>, touched: seq<nat>, values: seq<SlotValue>) {
    && |before| == |after| && |touched| == |values|
    && (forall j :: 0 <= j < |touched| ==> touched[j] < |after| && after[touched[j]] == values[j])
    && (forall i :: 0 <= i < |after| && i !in touched ==> after[i] == before[i])
  }

  /** Whoever supplied the siblings: a plan that meets the parent root on the old leaves was fed the
      parent's own slots, and on the new leaves it computes the root of the parent with exactly the
      touched slots replaced. */
  lemma {:induction false} TransitionSound(slots: seq<SlotValue>, after: seq<SlotValue>, depth: nat, touched: seq<nat>,
      oldSlots: seq<SlotValue>, newSlots: seq<SlotValue>, siblings: seq<Digest>,
      plan: Plan, cells: seq<Position>, oldRun: seq<Digest>, newRun: seq<Digest>)
    requires |slots| == Pow2(depth) && CanonicalIndices(touched, depth) && |oldSlots| == |touched|
    requires WellFormed(touched, depth, plan, cells) && plan.frontierPositions == FrontierFrom(touched, 0, depth)
    requires |siblings| == |plan.frontierPositions|
    requires Evaluates(plan, LeafHashes(oldSlots), siblings, oldRun)
             && Evaluates(plan, LeafHashes(newSlots), siblings, newRun)
    requires InPlan(plan.root, LeafHashes(oldSlots), siblings, oldRun)
    requires RefValue(plan.root, LeafHashes(oldSlots), siblings, oldRun) == StateRoot(slots, depth)
    requires ReplacesExactly(slots, after, touched, newSlots)
    ensures forall j :: 0 <= j < |touched| ==> oldSlots[j] == slots[touched[j]]
    ensures InPlan(plan.root, LeafHashes(newSlots), siblings, newRun)
    ensures RefValue(plan.root, LeafHashes(newSlots), siblings, newRun) == StateRoot(after, depth)
  {
    var w := Witness(touched, plan.frontierPositions, LeafHashes(oldSlots), siblings);
    var t, t' := SlotTree(slots), SlotTree(after);
    FrontierSound(w, depth, plan, cells, oldRun, t);
    forall j | 0 <= j < |touched|
      ensures oldSlots[j] == slots[touched[j]]
    {
      SlotTreeLeaf(slots, touched[j]);
      assert w.leaves[j] == t.Leaf(touched[j]);
    }
    WitnessShaped(w, depth);
    ReplacedLeaves(slots, after, touched, newSlots);
    SiblingsSurviveUpdate(w, depth, t, t', LeafHashes(newSlots));
    FrontierComplete(t', touched, depth, plan, cells, LeafHashes(newSlots), siblings, newRun);
  }

  lemma {:induction false} ReplacedLeaves(slots: seq<SlotValue>, after: seq<SlotValue>, touched: seq<nat>,
                                          newSlots: seq<SlotValue>)
    requires ReplacesExactly(slots, after, touched, newSlots)
    ensures forall j :: 0 <= j < |touched| ==> SlotTree(after).Leaf(touched[j]) == LeafHashes(newSlots)[j]
    ensures forall i: nat :: i !in touched ==> SlotTree(after).Leaf(i) == SlotTree(slots).Leaf(i)
  {
  }

  // What the builder accepts.

  /** The child slots of a block, from the expanded parent and the batch of writes. */
  function ChildSlots(parent: Ledger, block: Block): seq<SlotValue>
    requires Surfaceable(parent.slots, parent.alloc, BlockOps(block.transactions))
    requires parent.alloc + Mints(BlockOps(block.transactions)) < COINBASE_TAG
  {
    var ops := BlockOps(block.transactions);
    SurfaceInRange(parent.slots, parent.alloc, ops, block.header.height);
    WriteAll(parent.slots, OpWrites(parent.alloc, ops, block.header.height))
  }

  /** The one depth step a block may take, within the sparse tree's depth limit. */
  predicate DepthOk(l: Ledger, target: nat) {
    l.logSlots <= target <= l.logSlots + 1 && target <= MAX_DEPTH
  }

  /** Acceptance of the frontier builder, stated on the parent ledger. */
  predicate FrontierAccepts(l: Ledger, block: Block) {
    var header, ops := block.header, BlockOps(block.transactions);
    var parent := ExpandTo(l, header.logSlots);
    && DepthOk(l, header.logSlots)
    && Surfaceable(parent.slots, parent.alloc, ops) && parent.alloc + Mints(ops) < COINBASE_TAG
    && header.stateRoot == StateRoot(ChildSlots(parent, block), header.logSlots)
    && CountersMatch(l.active, l.alloc, header, ops)
  }

  /** The aggregate counters: spends subtracted first, then mints added. */
  predicate CountersMatch(active: nat, alloc: nat, header: Header, ops: seq<Op>) {
    && Spends(ops) <= active && header.activeSlotCount == active - Spends(ops) + Mints(ops)
    && header.allocCounter == alloc + Mints(ops)
  }

  lemma {:induction false} TouchedIsCanonical(x: ExactSurface, slots: seq<SlotValue>, after: seq<SlotValue>,
                                              ops: seq<Op>, depth: nat)
    requires SortedSurface(x, slots, after, ops) && |slots| == |after| == Pow2(depth) && |ops| > 0
    ensures CanonicalIndices(x.touched, depth) <==> depth <= MAX_DEPTH
    ensures |x.touched| > 0
  {
    assert OpSlots(ops)[0] in x.touched;
  }

  lemma {:induction false} SurfaceReplaces(x: ExactSurface, parent: Ledger, block: Block)
    requires Surfaceable(parent.slots, parent.alloc, BlockOps(block.transactions))
    requires parent.alloc + Mints(BlockOps(block.transactions)) < COINBASE_TAG
    requires SortedSurface(x, parent.slots, ChildSlots(parent, block), BlockOps(block.transactions))
    ensures ReplacesExactly(parent.slots, ChildSlots(parent, block), x.touched, x.newSlots)
  {
    var after, ops := ChildSlots(parent, block), BlockOps(block.transactions);
    var writes := OpWrites(parent.alloc, ops, block.header.height);
    SurfaceInRange(parent.slots, parent.alloc, ops, block.header.height);
    forall i | 0 <= i < |after| && i !in x.touched
      ensures after[i] == parent.slots[i]
    {
      forall k | 0 <= k < |writes|
        ensures writes[k].slot != i
      {
        assert OpSlots(ops)[k] in OpSlots(ops);
      }
      WriteAllElsewhere(parent.slots, writes, i);
    }
  }

  // The agreement.

  lemma {:induction false} SpendsPrefix(ops: seq<Op>, k: nat)
    requires k <= |ops|
    ensures Spends(ops[..k]) <= Spends(ops)
    decreases |ops| - k
  {
    if k < |ops| {
      SpendsPrefix(ops, k + 1);
      assert ops[..k + 1][..k] == ops[..k];
    } else {
      assert ops[..k] == ops;
    }
  }

  lemma {:induction false} AggregateNeverDry(active: nat, ops: seq<Op>)
    requires Spends(ops) <= active
    ensures NeverDry(active, ops)
  {
    forall n | 0 <= n <= |ops|
      ensures Spends(ops[..n]) <= active + Mints(ops[..n])
    {
      SpendsPrefix(ops, n);
    }
  }

  /** Everything else the witness path validates before it builds the frontier. */
  predicate BodyValid(block: Block) {
    && |block.transactions| <= BLOCK_MAX_TXS && PageStream(block.transactions, V1).Ok?
    && SystemCanonical(block.transactions, UserStart(block.transactions))
    && BlockTxRoot(block.transactions) == Ok(block.header.txRoot)
  }

  lemma {:induction false} SurfaceRuns(parent: Ledger, ops: seq<Op>, height: u64)
    requires Inv(parent) && Spends(ops) <= parent.active
    ensures Run(parent, ops, height).Some? && Distinct(OpSlots(ops)) <==>
            Surfaceable(parent.slots, parent.alloc, ops) && parent.alloc + Mints(ops) < COINBASE_TAG
    ensures Run(parent, ops, height).Some? && Distinct(OpSlots(ops)) ==> Batched(parent, ops, height)
  {
    AggregateNeverDry(parent.active, ops);
    if Distinct(OpSlots(ops)) {
      SimultaneousRuns(parent, ops, height);
    }
  }

  predicate HeaderStates(header: Header, m: Ledger) {
    && header.stateRoot == StateRoot(m.slots, m.logSlots) && header.logSlots == m.logSlots
    && header.activeSlotCount == m.active && header.allocCounter == m.alloc
  }

  /** For a valid body, acceptance is distinct slots, a run to the end, and a header that states it. */
  lemma {:induction false} AcceptsMeans(l: Ledger, block: Block)
    requires BodyValid(block)
    ensures Accepts(l, block) <==>
            && Distinct(BlockSlots(block.transactions))
            && Run(ExpandTo(l, block.header.logSlots), BlockOps(block.transactions), block.header.height).Some?
            && HeaderStates(block.header,
                            Run(ExpandTo(l, block.header.logSlots), BlockOps(block.transactions),
                                block.header.height).value)
  {
  }

  /** The aggregate header conditions are those of the ledger the operations run to. */
  lemma {:induction false} RunStates(l: Ledger, block: Block)
    requires Inv(l) && DepthOk(l, block.header.logSlots) && Spends(BlockOps(block.transactions)) <= l.active
    requires Distinct(OpSlots(BlockOps(block.transactions)))
    requires Run(ExpandTo(l, block.header.logSlots), BlockOps(block.transactions), block.header.height).Some?
    ensures FrontierAccepts(l, block) <==>
            HeaderStates(block.header,
                         Run(ExpandTo(l, block.header.logSlots), BlockOps(block.transactions),
                             block.header.height).value)
    ensures FrontierAccepts(l, block) ==>
              ChildSlots(ExpandTo(l, block.header.logSlots), block)
              == Run(ExpandTo(l, block.header.logSlots), BlockOps(block.transactions), block.header.height).value.slots
  {
    var ops, height := BlockOps(block.transactions), block.header.height;
    var parent := ExpandTo(l, block.header.logSlots);
    ExpandToKeeps(l, block.header.logSlots);
    SurfaceRuns(parent, ops, height);
    RunInv(parent, ops, height);
  }

  /** The witness builder accepts exactly the blocks the interpreter commits whose depth is one the
      sparse tree supports and whose spends do not exceed the parent's counter. */
  lemma {:induction false} WitnessAgrees(l: Ledger, block: Block)
    requires Inv(l) && BodyValid(block)
    ensures FrontierAccepts(l, block) <==>
            && ApplyBlock(l, block).Ok? && DepthOk(l, block.header.logSlots)
            && Spends(BlockOps(block.transactions)) <= l.active
    ensures FrontierAccepts(l, block) ==>
              ApplyBlock(l, block).value.slots == ChildSlots(ExpandTo(l, block.header.logSlots), block)
  {
    if DepthOk(l, block.header.logSlots) && Spends(BlockOps(block.transactions)) <= l.active {
      AgreeInRange(l, block);
    }
  }

  lemma {:induction false} AgreeInRange(l: Ledger, block: Block)
    requires Inv(l) && BodyValid(block) && Spends(BlockOps(block.transactions)) <= l.active
    requires DepthOk(l, block.header.logSlots)
    ensures FrontierAccepts(l, block) <==> ApplyBlock(l, block).Ok?
    ensures FrontierAccepts(l, block) ==>
              ApplyBlock(l, block).value.slots == ChildSlots(ExpandTo(l, block.header.logSlots), block)
  {
    var ops, height := BlockOps(block.transactions), block.header.height;
    var parent := ExpandTo(l, block.header.logSlots);
    BlockIsRun(l, block);
    AcceptsMeans(l, block);
    BlockOpSlots(block.transactions);
    ExpandToKeeps(l, block.header.logSlots);
    SurfaceRuns(parent, ops, height);
    if Run(parent, ops, height).Some? && Distinct(OpSlots(ops)) {
      RunStates(l, block);
    }
  }

  /** The interpreter commits a valid body and the builder refuses it. */
  predicate Splits(l: Ledger, block: Block) {
    BodyValid(block) && ApplyBlock(l, block).Ok? && !FrontierAccepts(l, block)
  }

  lemma {:induction false} SpendSlotsLive(slots: seq<SlotValue>, ops: seq<Op>)
    requires Distinct(OpSlots(ops)) && AllExpected(slots, ops) && Phantoms(ops) == 0
    ensures Spends(ops) <= Total(LiveSlots, slots)
    decreases |ops|
  {
    if |ops| == 0 {
    } else {
      var front, op := ops[..|ops| - 1], ops[|ops| - 1];
      FrontDistinct(ops);
      assert Expects(slots, op);
      assert forall k :: 0 <= k < |front| ==> front[k] == ops[k];
      if op.Spend? {
        var rest := slots[op.slot := EMPTY];
        SpendsElsewhere(slots, front, op, ops);
        SpendSlotsLive(rest, front);
        TotalUpdate(LiveSlots, slots, op.slot, EMPTY);
      } else {
        SpendSlotsLive(slots, front);
      }
    }
  }

  lemma {:induction false} SpendsElsewhere(slots: seq<SlotValue>, front: seq<Op>, op: Op, ops: seq<Op>)
    requires ops == front + [op] && Distinct(OpSlots(ops)) && AllExpected(slots, ops)
    ensures op.slot < |slots| && AllExpected(slots[op.slot := EMPTY], front)
  {
    assert Expects(slots, ops[|front|]);
    var names := OpSlots(ops);
    forall k | 0 <= k < |front|
      ensures Expects(slots[op.slot := EMPTY], front[k])
    {
      assert Expects(slots, ops[k]) && names[k] != names[|front|];
    }
  }

  /** On a state whose counter is exact, a phantom-free block that either side accepts never
      underflows the aggregate subtraction: every spend was live in the parent. */
  lemma {:induction false} AggregateIsSafe(l: Ledger, block: Block)
    requires Inv(l) && l.active == Total(LiveSlots, l.slots) && PhantomFree(block.transactions)
    requires ApplyBlock(l, block).Ok?
    ensures Spends(BlockOps(block.transactions)) <= l.active
  {
    var ops, parent := BlockOps(block.transactions), ExpandTo(l, block.header.logSlots);
    ExpandToKeeps(l, block.header.logSlots);
    BlockIsRun(l, block);
    BlockOpSlots(block.transactions);
    SimultaneousRuns(parent, ops, block.header.height);
    BlockPhantoms(block.transactions);
    SpendSlotsLive(parent.slots, ops);
  }

  /** On every run without empty claims the two sides accept the same next block, as long as that
      block makes no empty claim either and takes a depth step the sparse tree supports. */
  lemma {:induction false} WitnessAgreesOnRuns(logSlots: nat, blocks: seq<Block>, block: Block)
    requires Execute(logSlots, blocks).Some? && PhantomFreeRun(blocks) && PhantomFree(block.transactions)
    requires BodyValid(block) && DepthOk(Execute(logSlots, blocks).value, block.header.logSlots)
    ensures FrontierAccepts(Execute(logSlots, blocks).value, block) <==>
            ApplyBlock(Execute(logSlots, blocks).value, block).Ok?
  {
    var l := Execute(logSlots, blocks).value;
    ChainInvariant(logSlots, blocks);
    ActiveCountExact(logSlots, blocks);
    WitnessAgrees(l, block);
    if ApplyBlock(l, block).Ok? {
      AggregateIsSafe(l, block);
    }
  }

  /** Aggregate counters are the stepwise ones. */
  lemma {:induction false} AggregateCounters(l: Ledger, block: Block)
    requires Inv(l) && ApplyBlock(l, block).Ok?
    ensures var ops, m := BlockOps(block.transactions), ApplyBlock(l, block).value;
            m.active == l.active - Spends(ops) + Mints(ops) && m.alloc == l.alloc + Mints(ops)
  {
    ExpandToKeeps(l, block.header.logSlots);
    BlockIsRun(l, block);
    RunInv(ExpandTo(l, block.header.logSlots), BlockOps(block.transactions), block.header.height);
  }

  // The builder.

  /** The exact surface of a block at the header's depth. */
  method ExactSurfaceAt(parent: ChainState, block: Block) returns (r: Result<ExactSurface, StateDeltaError>)
    requires parent.Valid() && Mints(BlockOps(block.transactions)) > 0
    ensures r.Ok? ==> block.header.logSlots in {parent.state.logSlots, parent.state.logSlots + 1}
    ensures r.Ok? <==>
            var full := ExpandTo(LedgerOf(parent), block.header.logSlots);
            && parent.state.logSlots <= block.header.logSlots <= parent.state.logSlots + 1
            && Surfaceable(full.slots, full.alloc, BlockOps(block.transactions))
    ensures r.Ok? ==>
            var full := ExpandTo(LedgerOf(parent), block.header.logSlots);
            && full.alloc + Mints(BlockOps(block.transactions)) < COINBASE_TAG
            && SortedSurface(r.value, full.slots, ChildSlots(full, block), BlockOps(block.transactions))
  {
    var target := block.header.logSlots;
    if target != parent.state.logSlots && target != parent.state.logSlots + 1 {
      return Err(InvalidSlotDomain);
    }
    ghost var full := ExpandTo(LedgerOf(parent), target);
    ExpandOneLevel(LedgerOf(parent), target);
    var built := BuildActionSurface(parent, Pow2(target), full.slots, block.transactions, parent.allocCounter,
                                    block.header.height);
    if built.Err? {
      return Err(built.error);
    }
    var sorted := SortSurface(built.value, full.slots, BlockOps(block.transactions), full.alloc, block.header.height);
    r := Ok(sorted);
  }

  lemma {:induction false} ExpandOneLevel(l: Ledger, target: nat)
    requires |l.slots| == Pow2(l.logSlots) && l.logSlots <= target <= l.logSlots + 1
    ensures |ExpandTo(l, target).slots| == Pow2(target)
    ensures ExpandTo(l, target).slots == if target == l.logSlots then l.slots else Expand(l.slots)
    ensures forall i: nat :: SlotAt(ExpandTo(l, target).slots, i) == SlotAt(l.slots, i)
  {
    if target > l.logSlots {
      var m := l.(slots := Expand(l.slots), logSlots := l.logSlots + 1);
      assert ExpandTo(m, target) == m;
    }
  }

  /** Siblings and root of the parent, expanded on a private clone when the header asks for it. */
  method ParentFrontier(parent: ChainState, touched: seq<nat>, target: nat)
    returns (r: Result<(seq<Digest>, Digest), ExactFrontierError>)
    requires parent.Valid() && parent.state.logSlots <= target <= parent.state.logSlots + 1
    ensures r.Ok? <==> parent.state.exactDirty == {} && CanonicalIndices(touched, target)
    ensures r.Ok? ==>
            var full := ExpandTo(LedgerOf(parent), target).slots;
            && r.value.1 == StateRoot(full, target)
            && |r.value.0| == |FrontierFrom(touched, 0, target)|
            && forall k :: 0 <= k < |r.value.0| ==>
                 var p := FrontierFrom(touched, 0, target)[k];
                 r.value.0[k] == SlotTree(full).At(p.level, p.nodeIndex)
  {
    ExpandOneLevel(LedgerOf(parent), target);
    if target == parent.state.logSlots {
      var siblings := parent.ExactFrontierSiblings(touched, target);
      if siblings.Err? {
        return Err(siblings.error);
      }
      NothingDirty(parent.sealed, parent.Slots(), parent.state.effectiveLogSeg);
      return Ok((siblings.value, parent.utxoRoot));
    }
    var expanded := new ChainState.Clone(parent);
    expanded.ExpandOne();
    var siblings := expanded.ExactFrontierSiblings(touched, target);
    if siblings.Err? {
      return Err(siblings.error);
    }
    NothingDirty(expanded.sealed, expanded.Slots(), expanded.state.effectiveLogSeg);
    r := Ok((siblings.value, expanded.utxoRoot));
  }

  /** `hashes` are the nodes of `t` at the cells, in order. */
  ghost predicate Lists(t: Tree, cells: seq<Position>, hashes: seq<Digest>) {
    |hashes| == |cells| && forall c :: 0 <= c < |cells| ==> hashes[c] == t.At(cells[c].level, cells[c].nodeIndex)
  }

  /** What the returned inputs are: at every touched slot the value before and after, the shared siblings
      of the untouched rest, and on each side every node above a touched slot, up to the root. */
  ghost predicate Witnesses(w: FrontierInputs, before: seq<SlotValue>, after: seq<SlotValue>, depth: nat) {
    && w.activeDepth == depth && w.oldRoot == StateRoot(before, depth) && w.newRoot == StateRoot(after, depth)
    && |w.oldSlots| == |w.newSlots| == |w.touched| && |before| == |after|
    && (forall j :: 0 <= j < |w.touched| ==>
          && w.touched[j] < |before| && w.oldSlots[j] == before[w.touched[j]] && w.newSlots[j] == after[w.touched[j]])
    && Lists(SlotTree(before), FrontierFrom(w.touched, 0, depth), w.siblings)
    && Lists(SlotTree(after), FrontierFrom(w.touched, 0, depth), w.siblings)
    && Lists(SlotTree(before), CellsFrom(w.touched, 0, depth), w.oldCombines)
    && Lists(SlotTree(after), CellsFrom(w.touched, 0, depth), w.newCombines)
  }

  /** Evaluate one side of the transition. */
  method EvaluateSide(plan: Plan, slots: seq<SlotValue>, siblings: seq<Digest>, ghost touched: seq<nat>,
                      ghost depth: nat,
                      ghost cells: seq<Position>, ghost t: Tree)
    returns (r: Result<Evaluation, SparseMerkleError>)
    requires WellFormed(touched, depth, plan, cells) && plan.touchedLeafCount == |touched|
    requires t.tag == ExactStateNode && Matches(t, touched, plan.frontierPositions, LeafHashes(slots), siblings)
    ensures r.Ok? && r.value.root == t.At(depth, 0)
    ensures Evaluates(plan, LeafHashes(slots), siblings, r.value.combines)
    ensures Lists(t, cells, r.value.combines)
  {
    var leaves: seq<Digest> := [];
    for k := 0 to |slots|
      invariant leaves == LeafHashes(slots[..k])
    {
      leaves := leaves + [SlotLeaf(slots[k])];
    }
    assert slots[..|slots|] == slots;
    r := EvaluateStructuralFrontier(plan, leaves, siblings, touched, depth, cells);
    FrontierComplete(t, touched, depth, plan, cells, leaves, siblings, r.value.combines);
    CombinesMatch(t, touched, plan.frontierPositions, plan.combines, cells, leaves, siblings, r.value.combines,
                  |r.value.combines|);
  }

  lemma {:induction false} SidesMatch(slots: seq<SlotValue>, after: seq<SlotValue>, x: ExactSurface, ops: seq<Op>,
                                      depth: nat,
                                      siblings: seq<Digest>)
    requires |slots| == Pow2(depth) && SortedSurface(x, slots, after, ops) && CanonicalIndices(x.touched, depth)
    requires ReplacesExactly(slots, after, x.touched, x.newSlots)
    requires |siblings| == |FrontierFrom(x.touched, 0, depth)|
    requires forall k :: 0 <= k < |siblings| ==>
               var p := FrontierFrom(x.touched, 0, depth)[k];
               siblings[k] == SlotTree(slots).At(p.level, p.nodeIndex)
    ensures Matches(SlotTree(slots), x.touched, FrontierFrom(x.touched, 0, depth), LeafHashes(x.oldSlots), siblings)
    ensures Matches(SlotTree(after), x.touched, FrontierFrom(x.touched, 0, depth), LeafHashes(x.newSlots), siblings)
  {
    var positions := FrontierFrom(x.touched, 0, depth);
    assert forall j :: 0 <= j < |x.touched| ==> LeafHashes(x.oldSlots)[j] == SlotTree(slots).Leaf(x.touched[j]);
    var w := Witness(x.touched, positions, LeafHashes(x.oldSlots), siblings);
    WitnessShaped(w, depth);
    ReplacedLeaves(slots, after, x.touched, x.newSlots);
    SiblingsSurviveUpdate(w, depth, SlotTree(slots), SlotTree(after), LeafHashes(x.newSlots));
  }

  /** The aggregate counters against the header. */
  method CheckCounters(parent: ChainState, header: Header, spends: nat, mints: nat) returns (e: Option<WitnessError>)
    ensures e in {None, Some(StateCounterOverflow), Some(ActiveSlotCountMismatch), Some(AllocCounterMismatch)}
    ensures e.None? <==>
            && spends <= parent.activeSlotCount && header.activeSlotCount == parent.activeSlotCount - spends + mints
            && header.allocCounter == parent.allocCounter + mints
    ensures spends > parent.activeSlotCount ==> e == Some(StateCounterOverflow)
    ensures spends <= parent.activeSlotCount && parent.activeSlotCount - spends + mints < U64_LIMIT
            && header.activeSlotCount != parent.activeSlotCount - spends + mints ==>
              e == Some(ActiveSlotCountMismatch)
    ensures spends <= parent.activeSlotCount && header.activeSlotCount == parent.activeSlotCount - spends + mints
            && parent.allocCounter + mints < U64_LIMIT && header.allocCounter != parent.allocCounter + mints ==>
              e == Some(AllocCounterMismatch)
  {
    if parent.activeSlotCount < spends || parent.activeSlotCount - spends + mints >= U64_LIMIT {
      return Some(StateCounterOverflow);
    }
    if parent.activeSlotCount - spends + mints != header.activeSlotCount {
      return Some(ActiveSlotCountMismatch);
    }
    if parent.allocCounter + mints >= U64_LIMIT {
      return Some(StateCounterOverflow);
    }
    if parent.allocCounter + mints != header.allocCounter {
      return Some(AllocCounterMismatch);
    }
    e := None;
  }

  /** Both evaluations of the frontier against the two roots. */
  method EvaluateTransition(x: ExactSurface, depth: nat, siblings: seq<Digest>, expectedOld: Digest,
                            expectedNew: Digest,
                            ghost slots: seq<SlotValue>, ghost after: seq<SlotValue>, ghost ops: seq<Op>)
    returns (r: Result<FrontierInputs, WitnessError>)
    requires |slots| == Pow2(depth) && SortedSurface(x, slots, after, ops) && CanonicalIndices(x.touched, depth)
    requires ReplacesExactly(slots, after, x.touched, x.newSlots) && expectedOld == StateRoot(slots, depth)
    requires |siblings| == |FrontierFrom(x.touched, 0, depth)|
    requires forall k :: 0 <= k < |siblings| ==>
               var p := FrontierFrom(x.touched, 0, depth)[k];
               siblings[k] == SlotTree(slots).At(p.level, p.nodeIndex)
    ensures r.Ok? <==> expectedNew == StateRoot(after, depth)
    ensures r.Err? ==> r.error == ChildStateRootMismatch
    ensures r.Ok? ==> r.value.touched == x.touched && Witnesses(r.value, slots, after, depth)
  {
    var plan, cells := DeriveStructuralFrontierPlan(x.touched, depth);
    match plan
    case Err(error) =>
      r := Err(PlanFailed(error));
    case Ok(p) =>
      SidesMatch(slots, after, x, ops, depth, siblings);
      var oldSide := EvaluateSide(p, x.oldSlots, siblings, x.touched, depth, cells, SlotTree(slots));
      if oldSide.value.root != expectedOld {
        return Err(ParentStateRootMismatch);
      }
      var newSide := EvaluateSide(p, x.newSlots, siblings, x.touched, depth, cells, SlotTree(after));
      if newSide.value.root != expectedNew {
        return Err(ChildStateRootMismatch);
      }
      r := Ok(FrontierInputs(x.touched, depth, x.oldSlots, x.newSlots, siblings,
                             oldSide.value.combines, newSide.value.combines, expectedOld, expectedNew));
  }

  /** What the sorted surface says about the expanded parent. */
  lemma {:induction false} SurfaceFacts(l: Ledger, block: Block, x: ExactSurface)
    requires |l.slots| == Pow2(l.logSlots) && l.logSlots <= block.header.logSlots <= l.logSlots + 1
    requires Mints(BlockOps(block.transactions)) > 0
    requires Surfaceable(ExpandTo(l, block.header.logSlots).slots, l.alloc, BlockOps(block.transactions))
    requires l.alloc + Mints(BlockOps(block.transactions)) < COINBASE_TAG
    requires var full := ExpandTo(l, block.header.logSlots);
             SortedSurface(x, full.slots, ChildSlots(full, block), BlockOps(block.transactions))
    ensures var full := ExpandTo(l, block.header.logSlots);
            && |full.slots| == Pow2(block.header.logSlots) && |x.touched| > 0
            && (CanonicalIndices(x.touched, block.header.logSlots) <==> block.header.logSlots <= MAX_DEPTH)
            && ReplacesExactly(full.slots, ChildSlots(full, block), x.touched, x.newSlots)
  {
    var full, ops := ExpandTo(l, block.header.logSlots), BlockOps(block.transactions);
    ExpandOneLevel(l, block.header.logSlots);
    TouchedIsCanonical(x, full.slots, ChildSlots(full, block), ops, block.header.logSlots);
    SurfaceReplaces(x, full, block);
  }

  /** The frontier of a prepared surface: siblings, both roots, then the counters. */
  method FrontierOfSurface(parent: ChainState, header: Header, x: ExactSurface, ghost full: seq<SlotValue>,
                           ghost after: seq<SlotValue>,
                           ghost ops: seq<Op>)
    returns (r: Result<FrontierInputs, WitnessError>)
    requires parent.Valid() && parent.state.logSlots <= header.logSlots <= parent.state.logSlots + 1
    requires full == ExpandTo(LedgerOf(parent), header.logSlots).slots && |full| == Pow2(header.logSlots)
    requires SortedSurface(x, full, after, ops) && ReplacesExactly(full, after, x.touched, x.newSlots)
    requires |x.touched| > 0 && (CanonicalIndices(x.touched, header.logSlots) <==> header.logSlots <= MAX_DEPTH)
    ensures r.Ok? <==>
            && parent.state.exactDirty == {} && header.logSlots <= MAX_DEPTH
            && header.stateRoot == StateRoot(after, header.logSlots)
            && CountersMatch(parent.activeSlotCount, parent.allocCounter, header, ops)
    ensures r.Ok? ==> r.value.touched == x.touched && Witnesses(r.value, full, after, header.logSlots)
    ensures parent.state.exactDirty != {} || header.logSlots > MAX_DEPTH ==> r.Err? && r.error.FrontierFailed?
    ensures parent.state.exactDirty == {} && header.logSlots <= MAX_DEPTH ==>
              && (header.stateRoot != StateRoot(after, header.logSlots) ==> r == Err(ChildStateRootMismatch))
              && (header.stateRoot == StateRoot(after, header.logSlots) && r.Err? ==>
                  && r.error in {StateCounterOverflow, ActiveSlotCountMismatch, AllocCounterMismatch}
                  && (Spends(ops) > parent.activeSlotCount ==> r.error == StateCounterOverflow))
  {
    if |x.touched| == 0 {
      return Err(EmptyExactStateSurface);
    }
    var frontier := ParentFrontier(parent, x.touched, header.logSlots);
    if frontier.Err? {
      return Err(FrontierFailed(frontier.error));
    }
    r := EvaluateTransition(x, header.logSlots, frontier.value.0, frontier.value.1, header.stateRoot, full, after, ops);
    if r.Err? {
      return;
    }
    var counters := CheckCounters(parent, header, x.spends, x.mints);
    if counters.Some? {
      r := Err(counters.value);
    }
  }

  /** Why the builder refuses: the actions do not fit the parent, or the parent is not sealed or too deep,
      or the child root is wrong, or the counters are, in this order. */
  predicate Refuses(l: Ledger, block: Block, sealed: bool, error: WitnessError) {
    var header, ops, full := block.header, BlockOps(block.transactions), ExpandTo(l, block.header.logSlots);
    if header.logSlots < l.logSlots || header.logSlots > l.logSlots + 1 || full.alloc + Mints(ops) >= COINBASE_TAG
       || !Surfaceable(full.slots, full.alloc, ops) then error.StateDeltaFailed?
    else if !sealed || header.logSlots > MAX_DEPTH then error.FrontierFailed?
    else if header.stateRoot != StateRoot(ChildSlots(full, block), header.logSlots) then error == ChildStateRootMismatch
    else error in {StateCounterOverflow, ActiveSlotCountMismatch, AllocCounterMismatch}
         && (Spends(ops) > l.active ==> error == StateCounterOverflow)
  }

  /** `build_exact_state_frontier`: succeeds on a sealed parent exactly when the ledger-level
      acceptance holds. */
  method BuildExactStateFrontier(parent: ChainState, block: Block) returns (r: Result<FrontierInputs, WitnessError>)
    requires parent.Valid() && PageStream(block.transactions, V1).Ok?
    ensures r.Ok? <==> parent.state.exactDirty == {} && FrontierAccepts(LedgerOf(parent), block)
    ensures r.Ok? ==> Sorted(r.value.touched) && r.value.newRoot == block.header.stateRoot
    ensures r.Ok? ==> forall i :: i in r.value.touched <==> i in BlockSlots(block.transactions)
    ensures r.Err? ==> Refuses(LedgerOf(parent), block, parent.state.exactDirty == {}, r.error)
    ensures r.Ok? ==> var full := ExpandTo(LedgerOf(parent), block.header.logSlots);
                      Witnesses(r.value, full.slots, ChildSlots(full, block), block.header.logSlots)
  {
    StreamMints(block.transactions);
    BlockOpSlots(block.transactions);
    var surface := ExactSurfaceAt(parent, block);
    if surface.Err? {
      return Err(StateDeltaFailed(surface.error));
    }
    SurfaceFacts(LedgerOf(parent), block, surface.value);
    ghost var full := ExpandTo(LedgerOf(parent), block.header.logSlots);
    r := FrontierOfSurface(parent, block.header, surface.value, full.slots, ChildSlots(full, block),
                           BlockOps(block.transactions));
  }
}
