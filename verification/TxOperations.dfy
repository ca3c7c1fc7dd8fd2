/** A transaction is its operations: the checked step accepts a body exactly when its operations
    run one after another, and reaches the same ledger. */
module TxOperations {
  import opened Types
  import opened SlotVector
  import opened Transactions
  import opened Ledger

  function SpendOps(owner: Address, inputs: seq<TxInput>): seq<Op> {
    seq(|inputs|, k requires 0 <= k < |inputs| => Spend(inputs[k].slotIndex, Claim(owner, inputs[k])))
  }

  function MintOps(primary: bool, outputs: seq<TxOutput>): seq<Op> {
    seq(|outputs|, k requires 0 <= k < |outputs| =>
      Mint(outputs[k].slotIndex, outputs[k].amount, outputs[k].owner, primary))
  }

  /** Spends first, then mints. */
  function ActionOps(a: Action): seq<Op> {
    SpendOps(a.owner, a.inputs) + MintOps(a.primary, a.outputs)
  }

  function ActionSlots(a: Action): seq<nat> {
    InputSlots(a.inputs) + OutputSlots(a.outputs)
  }

  lemma {:induction false} ActionOpSlots(a: Action)
    ensures OpSlots(ActionOps(a)) == ActionSlots(a)
  {
  }

  lemma {:induction false} ActionExpected(slots: seq<SlotValue>, a: Action)
    ensures AllExpected(slots, ActionOps(a)) <==>
            FirstInputError(slots, a.owner, a.inputs).None? && FirstOutputError(slots, a.outputs).None?
  {
    var n, ops := |a.inputs|, ActionOps(a);
    InputsInRange(slots, a.owner, a.inputs);
    OutputsInRange(slots, a.outputs);
    if AllExpected(slots, ops) {
      forall k | 0 <= k < n
        ensures a.inputs[k].slotIndex < |slots| && slots[a.inputs[k].slotIndex] == Claim(a.owner, a.inputs[k])
      {
        assert Expects(slots, ops[k]);
      }
      forall k | 0 <= k < |a.outputs|
        ensures a.outputs[k].slotIndex < |slots| && slots[a.outputs[k].slotIndex] == EMPTY
      {
        assert Expects(slots, ops[n + k]);
      }
    }
  }

  /** The two duplicate scans together say that the slots are pairwise distinct. */
  lemma {:induction false} NoClash(inputs: seq<TxInput>, outputs: seq<TxOutput>, k: nat)
    requires k <= |outputs| && Distinct(InputSlots(inputs) + OutputSlots(outputs[..k]))
    ensures FirstOutputClash(inputs, outputs, k).None? <==> Distinct(InputSlots(inputs) + OutputSlots(outputs))
    decreases |outputs| - k
  {
    var all := InputSlots(inputs) + OutputSlots(outputs);
    var here := InputSlots(inputs) + OutputSlots(outputs[..k]);
    if k == |outputs| {
      assert outputs[..k] == outputs;
    } else {
      var slot := outputs[k].slotIndex;
      assert here == all[..|here|] && all[|here|] == slot;
      assert slot in here <==> slot in InputSlots(inputs) || slot in OutputSlots(outputs[..k]);
      assert OutputSlots(outputs[..k + 1]) == OutputSlots(outputs[..k]) + [slot];
      if slot in here {
        var i :| 0 <= i < |here| && here[i] == slot;
        assert all[i] == all[|here|];
      } else {
        assert InputSlots(inputs) + OutputSlots(outputs[..k + 1]) == here + [slot];
        NoClash(inputs, outputs, k + 1);
      }
    }
  }

  lemma {:induction false} DistinctPrefix(a: seq<nat>, b: seq<nat>)
    requires Distinct(a + b)
    ensures Distinct(a)
  {
    forall i, j | 0 <= i < j < |a|
      ensures a[i] != a[j]
    {
      assert (a + b)[i] == a[i] && (a + b)[j] == a[j];
    }
  }

  lemma {:induction false} ActionDistinct(a: Action)
    ensures Distinct(ActionSlots(a)) <==>
            Distinct(InputSlots(a.inputs)) && FirstOutputClash(a.inputs, a.outputs, 0).None?
  {
    assert InputSlots(a.inputs) + OutputSlots(a.outputs[..0]) == InputSlots(a.inputs);
    if Distinct(InputSlots(a.inputs)) {
      NoClash(a.inputs, a.outputs, 0);
    } else if Distinct(ActionSlots(a)) {
      DistinctPrefix(InputSlots(a.inputs), OutputSlots(a.outputs));
    }
  }

  function Min(a: nat, b: nat): nat { if a < b then a else b }

  /** Counting along an action: its spends come first. */
  lemma {:induction false} ActionCounts(a: Action, n: nat)
    requires n <= |ActionOps(a)|
    ensures Spends(ActionOps(a)[..n]) == Min(n, |a.inputs|)
    ensures Mints(ActionOps(a)[..n]) == n - Min(n, |a.inputs|)
  {
    if n == 0 {
    } else {
      ActionCounts(a, n - 1);
      assert ActionOps(a)[..n][..n - 1] == ActionOps(a)[..n - 1];
    }
  }

  lemma {:induction false} ActionTotals(a: Action)
    ensures Spends(ActionOps(a)) == |a.inputs| && Mints(ActionOps(a)) == |a.outputs|
  {
    ActionCounts(a, |ActionOps(a)|);
    assert ActionOps(a)[..|ActionOps(a)|] == ActionOps(a);
  }

  lemma {:induction false} ActionNeverDry(active: nat, a: Action)
    ensures NeverDry(active, ActionOps(a)) <==> |a.inputs| <= active
  {
    var ops := ActionOps(a);
    forall n | 0 <= n <= |ops|
      ensures Spends(ops[..n]) == Min(n, |a.inputs|) && Mints(ops[..n]) == n - Min(n, |a.inputs|)
    {
      ActionCounts(a, n);
    }
    if NeverDry(active, ops) {
      assert Spends(ops[..|a.inputs|]) <= active + Mints(ops[..|a.inputs|]);
    }
  }

  lemma {:induction false} OpWritesAt(alloc: nat, ops: seq<Op>, height: u64, k: nat)
    requires alloc + Mints(ops) < COINBASE_TAG && k < |ops|
    ensures ops[k].Mint? ==> alloc + Mints(ops[..k]) + 1 < COINBASE_TAG
    ensures OpWrites(alloc, ops, height)[k] == OpWrite(alloc + Mints(ops[..k]), ops[k], height)
  {
    var front := ops[..|ops| - 1];
    if k < |front| {
      OpWritesAt(alloc, front, height, k);
      assert front[..k] == ops[..k];
    } else {
      assert ops[..k] == front;
    }
  }

  lemma {:induction false} ActionWritesAreOpWrites(alloc: nat, a: Action, height: u64)
    requires alloc + |a.outputs| < COINBASE_TAG
    ensures alloc + Mints(ActionOps(a)) < COINBASE_TAG
    ensures ActionWrites(alloc, a, height) == OpWrites(alloc, ActionOps(a), height)
  {
    ActionTotals(a);
    var ops, writes := ActionOps(a), ActionWrites(alloc, a, height);
    forall k | 0 <= k < |ops|
      ensures writes[k] == OpWrites(alloc, ops, height)[k]
    {
      OpWritesAt(alloc, ops, height, k);
      ActionCounts(a, k);
    }
  }

  /** Occupancy is bounded by the slots an index can name, so its counter cannot overflow. */
  lemma {:induction false} ActiveBounded(l: Ledger)
    requires Inv(l)
    ensures l.active <= U32_LIMIT
  {
    TotalBound(LiveSlots, l.slots);
  }

  /** Records fail no check exactly when their slots are distinct and their operations runnable. */
  lemma {:induction false} ActionErrorExact(l: Ledger, a: Action)
    requires Inv(l) && |a.outputs| <= U32_LIMIT
    ensures ActionError(l, a).None? <==> Distinct(ActionSlots(a)) && Runnable(l, ActionOps(a))
    ensures ActionError(l, a) != Some(ActiveSlotCountOverflow)
  {
    ActionDistinct(a);
    ActionExpected(l.slots, a);
    ActionNeverDry(l.active, a);
    ActionTotals(a);
    ActiveBounded(l);
  }

  lemma {:induction false} ActionSupply(l: Ledger, a: Action, height: u64)
    requires Inv(l) && ActionError(l, a).None?
    ensures ApplyAction(l, a, height).Ok? && InRange(ActionWrites(l.alloc, a, height), |l.slots|)
    ensures var slots := WriteAll(l.slots, ActionWrites(l.alloc, a, height));
            ApplyAction(l, a, height).value
            == Ledger(slots, l.logSlots, l.active - |a.inputs| + |a.outputs|, l.alloc + |a.outputs|,
                      Total(Money, slots))
  {
    ActionWritesInRange(l, a, height);
    SupplyExact(l, ActionWrites(l.alloc, a, height));
  }

  lemma {:induction false} RunnableAction(l: Ledger, a: Action, height: u64)
    requires Inv(l) && ActionError(l, a).None? && Batched(l, ActionOps(a), height)
    ensures ApplyAction(l, a, height).Ok? && ApplyAction(l, a, height).value == Run(l, ActionOps(a), height).value
  {
    ActionSupply(l, a, height);
    ActionWritesAreOpWrites(l.alloc, a, height);
    RunInv(l, ActionOps(a), height);
    ActionTotals(a);
  }

  lemma {:induction false} ActionIsRun(l: Ledger, a: Action, height: u64)
    requires Inv(l) && |a.outputs| <= U32_LIMIT
    ensures ApplyAction(l, a, height).Ok? <==> Distinct(ActionSlots(a)) && Run(l, ActionOps(a), height).Some?
    ensures ApplyAction(l, a, height).Ok? ==> ApplyAction(l, a, height).value == Run(l, ActionOps(a), height).value
    ensures ApplyAction(l, a, height) != Err(CirculatingSupplyInvariant)
    ensures ApplyAction(l, a, height) != Err(ActiveSlotCountOverflow)
  {
    ActionErrorExact(l, a);
    ActionOpSlots(a);
    if Distinct(ActionSlots(a)) {
      SimultaneousRuns(l, ActionOps(a), height);
      if Runnable(l, ActionOps(a)) {
        RunnableAction(l, a, height);
      }
    }
  }

  function TxOps(body: Body): seq<Op> {
    ActionOps(LiveAction(body))
  }

  /** The checked step and the operation run agree, in both directions, and the two counter errors
      the code guards against never arise from a state that satisfies the invariant. */
  lemma {:induction false} TxIsRun(l: Ledger, body: Body, height: u64)
    requires Inv(l)
    ensures ApplyTx(l, body, Some(height)).Ok? <==> Distinct(BodySlots(body)) && Run(l, TxOps(body), height).Some?
    ensures ApplyTx(l, body, Some(height)).Ok? ==>
              ApplyTx(l, body, Some(height)).value == Run(l, TxOps(body), height).value
    ensures ApplyTx(l, body, Some(height)) != Err(CirculatingSupplyInvariant)
    ensures ApplyTx(l, body, Some(height)) != Err(ActiveSlotCountOverflow)
  {
    LiveCounts(body, 0);
    ActionIsRun(l, LiveAction(body), height);
  }
}
