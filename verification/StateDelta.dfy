/** The ordered action surface of a block: every live action checked against the parent through an
    overlay, without changing the state, and its sorted old/new form. */
module StateDelta {
  import opened Powers
  import opened Types
  import opened ExactState
  import opened SlotVector
  import opened Frontier
  import opened ChainEngine
  import opened Transactions
  import opened Ledger
  import opened TxOperations
  import opened BlockLedger
  import opened TxInterpreter

  datatype StateDeltaError =
    | InputMismatch
    | OutputSlotOccupied
    | DuplicateInputSlot
    | DuplicateOutputSlot
    | InputOutputSlotOverlap
    | BlockSlotConflict
    | SlotOutOfRange
    | InvalidSlotDomain
    | AllocationCounterOverflow

  datatype SlotAction = SlotAction(slot: u32, pre: SlotValue, post: SlotValue, kind: ActionKind)

  datatype ActionKind = SpendAction | MintAction

  datatype ActionSurface = ActionSurface(actions: seq<SlotAction>, spends: nat, mints: nat)

  /** The operations touch distinct slots, each holding what its operation expects, and the
      allocator stays below the coinbase tag. */
  predicate Surfaceable(slots: seq<SlotValue>, alloc: nat, ops: seq<Op>) {
    Distinct(OpSlots(ops)) && AllExpected(slots, ops) && (Mints(ops) > 0 ==> alloc + Mints(ops) < COINBASE_TAG)
  }

  lemma {:induction false} MintsPrefix(ops: seq<Op>, k: nat)
    requires k <= |ops|
    ensures Mints(ops[..k]) <= Mints(ops)
    decreases |ops| - k
  {
    if k < |ops| {
      MintsPrefix(ops, k + 1);
      assert ops[..k + 1][..k] == ops[..k];
    } else {
      assert ops[..k] == ops;
    }
  }

  lemma {:induction false} SurfaceablePrefix(slots: seq<SlotValue>, alloc: nat, ops: seq<Op>, k: nat)
    requires k <= |ops| && Surfaceable(slots, alloc, ops)
    ensures Surfaceable(slots, alloc, ops[..k])
  {
    MintsPrefix(ops, k);
    var all, front := OpSlots(ops), OpSlots(ops[..k]);
    forall i, j | 0 <= i < j < |front|
      ensures front[i] != front[j]
    {
      assert all[i] == front[i] && all[j] == front[j];
    }
    forall j | 0 <= j < k
      ensures Expects(slots, ops[..k][j])
    {
      assert Expects(slots, ops[j]);
    }
  }

  lemma {:induction false} DistinctSnoc(ops: seq<Op>, op: Op)
    requires Distinct(OpSlots(ops))
    ensures Distinct(OpSlots(ops + [op])) <==> op.slot !in OpSlots(ops)
  {
    var all := OpSlots(ops + [op]);
    assert all == OpSlots(ops) + [op.slot];
    if op.slot in OpSlots(ops) {
      var i :| 0 <= i < |ops| && OpSlots(ops)[i] == op.slot;
      assert all[i] == all[|ops|];
    }
  }

  lemma {:induction false} SurfaceableSnoc(slots: seq<SlotValue>, alloc: nat, ops: seq<Op>, op: Op)
    requires Surfaceable(slots, alloc, ops)
    ensures Surfaceable(slots, alloc, ops + [op]) <==>
            && op.slot !in OpSlots(ops) && Expects(slots, op)
            && (op.Mint? ==> alloc + Mints(ops) + 1 < COINBASE_TAG)
  {
    DistinctSnoc(ops, op);
    assert (ops + [op])[..|ops|] == ops;
    assert Mints(ops + [op]) == Mints(ops) + if op.Mint? then 1 else 0;
    if AllExpected(slots, ops + [op]) {
      assert Expects(slots, (ops + [op])[|ops|]);
    }
  }

  /** The action an operation becomes when the allocator stands at `alloc`. */
  function ActionOf(op: Op, alloc: nat, height: u64): SlotAction
    requires op.Mint? ==> alloc + 1 < COINBASE_TAG
  {
    if op.Spend? then SlotAction(op.slot, op.claim, EMPTY, SpendAction)
    else SlotAction(op.slot, EMPTY, OpWrite(alloc, op, height).value, MintAction)
  }

  function ActionsOf(ops: seq<Op>, alloc: nat, height: u64): (actions: seq<SlotAction>)
    requires Mints(ops) > 0 ==> alloc + Mints(ops) < COINBASE_TAG
    ensures |actions| == |ops|
  {
    if |ops| == 0 then []
    else
      var front := ops[..|ops| - 1];
      ActionsOf(front, alloc, height) + [ActionOf(ops[|ops| - 1], alloc + Mints(front), height)]
  }

  function SurfaceOf(ops: seq<Op>, alloc: nat, height: u64): ActionSurface
    requires Mints(ops) > 0 ==> alloc + Mints(ops) < COINBASE_TAG
  {
    ActionSurface(ActionsOf(ops, alloc, height), Spends(ops), Mints(ops))
  }

  lemma {:induction false} SurfaceSnoc(ops: seq<Op>, op: Op, alloc: nat, height: u64)
    requires Mints(ops + [op]) > 0 ==> alloc + Mints(ops + [op]) < COINBASE_TAG
    ensures Mints(ops) > 0 ==> alloc + Mints(ops) < COINBASE_TAG
    ensures op.Mint? ==> alloc + Mints(ops) + 1 < COINBASE_TAG
    ensures SurfaceOf(ops + [op], alloc, height)
         == ActionSurface(ActionsOf(ops, alloc, height) + [ActionOf(op, alloc + Mints(ops), height)],
                          Spends(ops) + (if op.Spend? then 1 else 0), Mints(ops) + (if op.Mint? then 1 else 0))
  {
    assert (ops + [op])[..|ops|] == ops;
  }

  /** Builder state: the surface so far, the overlay of written values, the touched set. */
  ghost predicate BuilderAt(slots: seq<SlotValue>, alloc: nat, height: u64, done: seq<Op>, surface: ActionSurface,
                            overlay: map<u32, SlotValue>, touched: set<nat>)
  {
    && Surfaceable(slots, alloc, done)
    && surface == SurfaceOf(done, alloc, height)
    && touched == (set s | s in OpSlots(done)) && (forall s :: s in overlay <==> s in touched)
  }

  /** An earlier write in the block is visible before the parent's value. */
  function PrefixRead(overlay: map<u32, SlotValue>, slot: u32, stored: SlotValue): SlotValue {
    if slot in overlay then overlay[slot] else stored
  }

  /** One live action: range, block-wide uniqueness, prefix read, allocator. */
  method AddAction(s: ChainState, domain: nat, ghost slots: seq<SlotValue>, alloc: nat, height: u64,
                   ghost done: seq<Op>, op: Op,
                   surface: ActionSurface, overlay: map<u32, SlotValue>, touched: set<nat>)
    returns (e: Option<StateDeltaError>, surface': ActionSurface, overlay': map<u32, SlotValue>, touched': set<nat>)
    requires s.Valid() && |slots| == domain && (forall i: nat :: SlotAt(slots, i) == SlotAt(s.Slots(), i))
    requires BuilderAt(slots, alloc, height, done, surface, overlay, touched)
    ensures e.None? <==> Surfaceable(slots, alloc, done + [op])
    ensures e.None? ==> BuilderAt(slots, alloc, height, done + [op], surface', overlay', touched')
  {
    SurfaceableSnoc(slots, alloc, done, op);
    surface', overlay', touched' := surface, overlay, touched;
    if op.slot >= domain {
      return Some(StateDeltaError.SlotOutOfRange), surface', overlay', touched';
    }
    if op.slot in touched {
      return Some(BlockSlotConflict), surface', overlay', touched';
    }
    var stored := EMPTY;
    if op.slot < Pow2(s.state.logSlots) {
      stored := s.state.Slot(op.slot);
    }
    var pre := PrefixRead(overlay, op.slot, stored);
    assert pre == SlotAt(slots, op.slot);
    if pre != (if op.Spend? then op.claim else EMPTY) {
      return Some(if op.Spend? then InputMismatch else OutputSlotOccupied), surface', overlay', touched';
    }
    if op.Mint? && alloc + surface.mints + 1 >= COINBASE_TAG {
      return Some(AllocationCounterOverflow), surface', overlay', touched';
    }
    SurfaceSnoc(done, op, alloc, height);
    var action := ActionOf(op, alloc + surface.mints, height);
    surface' := ActionSurface(surface.actions + [action],
                              surface.spends + (if op.Spend? then 1 else 0),
                              surface.mints + (if op.Mint? then 1 else 0));
    overlay' := overlay[op.slot := action.post];
    touched' := touched + {op.slot};
    e := None;
    assert OpSlots(done + [op]) == OpSlots(done) + [op.slot];
  }

  /** `check_tx_slot_shape`: a body's own slots are pairwise distinct. */
  method CheckTxSlotShape(body: Body) returns (e: Option<StateDeltaError>)
    ensures e.None? <==> Distinct(BodySlots(body))
  {
    var scan := ScanRecords(LiveInputs(body), LiveOutputs(body));
    ActionDistinct(LiveAction(body));
    match scan
    case None => e := None;
    case Some(error) =>
      e := Some(if error == UnknownOrSpentInput then StateDeltaError.DuplicateInputSlot
                else if error == ApplyError.DuplicateOutputSlot then StateDeltaError.DuplicateOutputSlot
                else StateDeltaError.InputOutputSlotOverlap);
  }

  lemma {:induction false} PartDistinct(done: seq<Op>, body: Body)
    requires Distinct(OpSlots(done + TxOps(body)))
    ensures Distinct(BodySlots(body))
  {
    var ops := TxOps(body);
    ActionOpSlots(LiveAction(body));
    var all, part := OpSlots(done + ops), OpSlots(ops);
    forall i, j | 0 <= i < j < |part|
      ensures part[i] != part[j]
    {
      assert all[|done| + i] == part[i] && all[|done| + j] == part[j];
    }
  }

  lemma {:induction false} ShapeBlocks(slots: seq<SlotValue>, alloc: nat, done: seq<Op>, body: Body)
    requires !Distinct(BodySlots(body))
    ensures !Surfaceable(slots, alloc, done + TxOps(body))
  {
    if Surfaceable(slots, alloc, done + TxOps(body)) {
      PartDistinct(done, body);
    }
  }

  lemma {:induction false} StepBlocks(slots: seq<SlotValue>, alloc: nat, done: seq<Op>, ops: seq<Op>, k: nat)
    requires k <= |ops| && !Surfaceable(slots, alloc, done + ops[..k])
    ensures !Surfaceable(slots, alloc, done + ops)
  {
    PrefixBlocks(slots, alloc, done + ops, |done| + k);
    assert (done + ops)[..|done| + k] == done + ops[..k];
  }

  /** One body: its shape, then its live inputs, then its live outputs. */
  method AddTx(s: ChainState, domain: nat, ghost slots: seq<SlotValue>, alloc: nat, height: u64, ghost done: seq<Op>,
               body: Body,
               surface: ActionSurface, overlay: map<u32, SlotValue>, touched: set<nat>)
    returns (e: Option<StateDeltaError>, surface': ActionSurface, overlay': map<u32, SlotValue>, touched': set<nat>)
    requires s.Valid() && |slots| == domain && (forall i: nat :: SlotAt(slots, i) == SlotAt(s.Slots(), i))
    requires BuilderAt(slots, alloc, height, done, surface, overlay, touched)
    ensures e.None? <==> Surfaceable(slots, alloc, done + TxOps(body))
    ensures e.None? ==> BuilderAt(slots, alloc, height, done + TxOps(body), surface', overlay', touched')
  {
    var ops := TxOps(body);
    surface', overlay', touched' := surface, overlay, touched;
    e := CheckTxSlotShape(body);
    if e.Some? {
      ShapeBlocks(slots, alloc, done, body);
      return;
    }
    assert done + ops[..0] == done;
    for k := 0 to |ops|
      invariant e.None? && BuilderAt(slots, alloc, height, done + ops[..k], surface', overlay', touched')
    {
      assert done + ops[..k + 1] == done + ops[..k] + [ops[k]];
      e, surface', overlay', touched' :=
        AddAction(s, domain, slots, alloc, height, done + ops[..k], ops[k], surface', overlay', touched');
      if e.Some? {
        StepBlocks(slots, alloc, done, ops, k + 1);
        return;
      }
    }
    assert ops[..|ops|] == ops;
  }

  lemma {:induction false} PrefixBlocks(slots: seq<SlotValue>, alloc: nat, ops: seq<Op>, k: nat)
    requires k <= |ops|
    ensures Surfaceable(slots, alloc, ops) ==> Surfaceable(slots, alloc, ops[..k])
  {
    if Surfaceable(slots, alloc, ops) {
      SurfaceablePrefix(slots, alloc, ops, k);
    }
  }

  /** `build_state_delta_action_surface_in_domain`. */
  method BuildActionSurface(s: ChainState, domain: nat, ghost slots: seq<SlotValue>, txs: seq<Body>, alloc: nat,
                            height: u64)
    returns (r: Result<ActionSurface, StateDeltaError>)
    requires s.Valid() && |slots| == domain && (forall i: nat :: SlotAt(slots, i) == SlotAt(s.Slots(), i))
    ensures r.Ok? <==> Surfaceable(slots, alloc, BlockOps(txs))
    ensures r.Ok? ==> r.value == SurfaceOf(BlockOps(txs), alloc, height)
    ensures r.Ok? && Mints(BlockOps(txs)) > 0 ==>
              && InRange(OpWrites(alloc, BlockOps(txs), height), |slots|)
              && Describes(r.value, slots, WriteAll(slots, OpWrites(alloc, BlockOps(txs), height)), BlockOps(txs))
  {
    var surface, overlay: map<u32, SlotValue>, touched: set<nat> := ActionSurface([], 0, 0), map[], {};
    for k := 0 to |txs|
      invariant BuilderAt(slots, alloc, height, BlockOps(txs[..k]), surface, overlay, touched)
    {
      var e: Option<StateDeltaError>;
      assert txs[..k + 1][..k] == txs[..k];
      assert BlockOps(txs[..k + 1]) == BlockOps(txs[..k]) + TxOps(txs[k]);
      e, surface, overlay, touched :=
        AddTx(s, domain, slots, alloc, height, BlockOps(txs[..k]), txs[k], surface, overlay, touched);
      if e.Some? {
        BlockOpsPrefix(txs, k + 1);
        PrefixBlocks(slots, alloc, BlockOps(txs), |BlockOps(txs[..k + 1])|);
        return Err(e.value);
      }
    }
    assert txs[..|txs|] == txs;
    if Mints(BlockOps(txs)) > 0 {
      SurfaceDescribes(slots, alloc, BlockOps(txs), height);
    }
    r := Ok(surface);
  }

  /** One action per operation, in order: its slot, the value the parent holds there, the value the child
      will hold, and whether it spends or mints; and how many there are of each. */
  predicate Describes(surface: ActionSurface, slots: seq<SlotValue>, after: seq<SlotValue>, ops: seq<Op>) {
    && |surface.actions| == |ops| && surface.spends == Spends(ops) && surface.mints == Mints(ops)
    && forall k :: 0 <= k < |ops| ==>
         var action := surface.actions[k];
         && action.slot == ops[k].slot && action.pre == SlotAt(slots, action.slot)
         && action.post == SlotAt(after, action.slot) && (action.kind == SpendAction <==> ops[k].Spend?)
  }

  lemma {:induction false} SurfaceDescribes(slots: seq<SlotValue>, alloc: nat, ops: seq<Op>, height: u64)
    requires Surfaceable(slots, alloc, ops) && Mints(ops) > 0
    ensures InRange(OpWrites(alloc, ops, height), |slots|)
    ensures Describes(SurfaceOf(ops, alloc, height), slots, WriteAll(slots, OpWrites(alloc, ops, height)), ops)
  {
    SurfaceInRange(slots, alloc, ops, height);
    forall k | 0 <= k < |ops|
      ensures var action := ActionsOf(ops, alloc, height)[k];
              && action.slot == ops[k].slot && action.pre == SlotAt(slots, action.slot)
              && action.post == SlotAt(WriteAll(slots, OpWrites(alloc, ops, height)), action.slot)
              && (action.kind == SpendAction <==> ops[k].Spend?)
    {
      ActionsMatchSlots(slots, alloc, ops, height, k);
    }
  }

  // The sorted form.

  datatype ExactSurface = ExactSurface(
    touched: seq<nat>, oldSlots: seq<SlotValue>, newSlots: seq<SlotValue>, spends: nat, mints: nat)

  /** Index-aligned and sorted: the touched slots, what the parent holds there, what the child will. */
  ghost predicate SortedSurface(x: ExactSurface, slots: seq<SlotValue>, after: seq<SlotValue>, ops: seq<Op>) {
    && Sorted(x.touched) && |x.oldSlots| == |x.newSlots| == |x.touched|
    && (forall i :: i in x.touched <==> i in OpSlots(ops))
    && (forall j :: 0 <= j < |x.touched| ==>
         x.touched[j] < |slots| && x.oldSlots[j] == slots[x.touched[j]] && x.newSlots[j] == SlotAt(after, x.touched[j]))
    && x.spends == Spends(ops) && x.mints == Mints(ops)
  }

  lemma {:induction false} ActionsAt(ops: seq<Op>, alloc: nat, height: u64, k: nat)
    requires alloc + Mints(ops) < COINBASE_TAG && k < |ops|
    ensures var action := ActionsOf(ops, alloc, height)[k];
            && action.slot == ops[k].slot && action.pre == (if ops[k].Spend? then ops[k].claim else EMPTY)
            && action.post == OpWrites(alloc, ops, height)[k].value
            && (action.kind == SpendAction <==> ops[k].Spend?)
  {
    var front := ops[..|ops| - 1];
    if k >= |front| {
    } else {
      ActionsAt(front, alloc, height, k);
    }
  }

  /** With distinct slots, every write is the last one to its slot. */
  lemma {:induction false} WriteAllAt(slots: seq<SlotValue>, writes: seq<Write>, k: nat)
    requires InRange(writes, |slots|) && k < |writes|
    requires forall i, j :: 0 <= i < j < |writes| ==> writes[i].slot != writes[j].slot
    ensures WriteAll(slots, writes)[writes[k].slot] == writes[k].value
  {
    if k >= |writes| - 1 {
    } else {
      WriteAllAt(slots, writes[..|writes| - 1], k);
    }
  }

  lemma {:induction false} SurfaceInRange(slots: seq<SlotValue>, alloc: nat, ops: seq<Op>, height: u64)
    requires Surfaceable(slots, alloc, ops) && alloc + Mints(ops) < COINBASE_TAG
    ensures InRange(OpWrites(alloc, ops, height), |slots|)
  {
    forall k | 0 <= k < |ops|
      ensures ops[k].slot < |slots|
    {
      assert Expects(slots, ops[k]);
    }
  }

  lemma {:induction false} ActionsMatchSlots(slots: seq<SlotValue>, alloc: nat, ops: seq<Op>, height: u64, k: nat)
    requires Surfaceable(slots, alloc, ops) && alloc + Mints(ops) < COINBASE_TAG && k < |ops|
    ensures InRange(OpWrites(alloc, ops, height), |slots|)
    ensures var action := ActionsOf(ops, alloc, height)[k];
            && action.slot == ops[k].slot < |slots| && action.pre == slots[action.slot]
            && action.post == WriteAll(slots, OpWrites(alloc, ops, height))[action.slot]
            && (action.kind == SpendAction <==> ops[k].Spend?)
  {
    SurfaceInRange(slots, alloc, ops, height);
    ActionsAt(ops, alloc, height, k);
    assert Expects(slots, ops[k]);
    var names, writes := OpSlots(ops), OpWrites(alloc, ops, height);
    forall i, j | 0 <= i < j < |writes|
      ensures writes[i].slot != writes[j].slot
    {
      assert names[i] != names[j];
    }
    WriteAllAt(slots, writes, k);
  }

  /** `exact_action_surface_from_surface`: group by slot, then read off in slot order. */
  method SortSurface(surface: ActionSurface, ghost slots: seq<SlotValue>, ghost ops: seq<Op>, ghost alloc: nat,
                     ghost height: u64)
    returns (x: ExactSurface)
    requires Surfaceable(slots, alloc, ops) && alloc + Mints(ops) < COINBASE_TAG
    requires surface == SurfaceOf(ops, alloc, height)
    ensures InRange(OpWrites(alloc, ops, height), |slots|)
    ensures SortedSurface(x, slots, WriteAll(slots, OpWrites(alloc, ops, height)), ops)
  {
    SurfaceInRange(slots, alloc, ops, height);
    ghost var after := WriteAll(slots, OpWrites(alloc, ops, height));
    var pre, post := GroupBySlot(surface.actions, slots, after, ops, alloc, height);
    var touched := SortedElements(pre.Keys);
    var oldSlots := ReadOff(touched, pre);
    var newSlots := ReadOff(touched, post);
    x := ExactSurface(touched, oldSlots, newSlots, surface.spends, surface.mints);
    forall j | 0 <= j < |touched|
      ensures touched[j] < |slots| && oldSlots[j] == slots[touched[j]] && newSlots[j] == SlotAt(after, touched[j])
    {
      assert touched[j] in touched;
    }
  }

  method ReadOff(keys: seq<nat>, values: map<nat, SlotValue>) returns (r: seq<SlotValue>)
    requires forall k :: k in keys ==> k in values
    ensures |r| == |keys| && forall j :: 0 <= j < |keys| ==> r[j] == values[keys[j]]
  {
    r := [];
    for k := 0 to |keys|
      invariant |r| == k && forall j :: 0 <= j < k ==> r[j] == values[keys[j]]
    {
      r := r + [values[keys[k]]];
    }
  }

  method GroupBySlot(actions: seq<SlotAction>, ghost slots: seq<SlotValue>, ghost after: seq<SlotValue>,
                     ghost ops: seq<Op>,
                     ghost alloc: nat, ghost height: u64)
    returns (pre: map<nat, SlotValue>, post: map<nat, SlotValue>)
    requires Surfaceable(slots, alloc, ops) && alloc + Mints(ops) < COINBASE_TAG
    requires actions == ActionsOf(ops, alloc, height)
    requires InRange(OpWrites(alloc, ops, height), |slots|) && after == WriteAll(slots, OpWrites(alloc, ops, height))
    ensures forall i :: i in pre <==> i in OpSlots(ops)
    ensures pre.Keys == post.Keys
    ensures forall i :: i in pre ==> i < |slots| && pre[i] == slots[i] && post[i] == after[i]
  {
    pre, post := map[], map[];
    for k := 0 to |actions|
      invariant forall i :: i in pre <==> i in OpSlots(ops)[..k]
      invariant pre.Keys == post.Keys
      invariant forall i :: i in pre ==> i < |slots| && pre[i] == slots[i] && post[i] == after[i]
    {
      ActionsMatchSlots(slots, alloc, ops, height, k);
      var action := actions[k];
      if action.slot !in pre {
        pre := pre[action.slot as nat := action.pre];
      }
      post := post[action.slot as nat := action.post];
      assert OpSlots(ops)[..k + 1] == OpSlots(ops)[..k] + [OpSlots(ops)[k]];
    }
    assert OpSlots(ops)[..|ops|] == OpSlots(ops);
  }
}
