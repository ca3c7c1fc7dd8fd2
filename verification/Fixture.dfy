/** The honest fixture chain: its output-slot allocator, the transactions it builds, and how many
    spendable coins each step leaves for the next. */
module Fixture {
  import opened Powers
  import opened Types
  import opened Transactions
  import opened Ledger

  /** A coin the fixture can spend: where it is, and the seed of the wallet that owns it. */
  datatype Spendable = Spendable(slot: u32, seed: nat)

  /** What a child is built on: the parent's ledger, the tracked coins, the output cursor, the height. */
  datatype Checkpoint = Checkpoint(ledger: Ledger, coins: seq<Spendable>, cursor: u32, height: nat)

  /** `SlotReadOutOfRange` is a read outside the slot vector, where the program stops. */
  datatype FixtureError =
    | NotEnoughSpendables
    | InputNotLive
    | OwnerMismatch
    | SlotReadOutOfRange
    | OutputSlotOverflow
    | FeeNotCovered

  /** Wallet addresses, seeds and fees, by contract only. Seeds depend on the nonce domain of the child,
      fees on the body, the occupancy and the depth. */
  datatype Wallet = Wallet(
    address: nat -> Address,
    outputSeed: (nat, nat, nat) -> nat,
    minerSeed: (nat, nat) -> nat,
    fee: (TxBody<Digest>, nat, nat) -> u64)

  predicate Free(slots: seq<SlotValue>, reserved: set<nat>, i: nat) {
    i < |slots| && i < U32_LIMIT && slots[i] == EMPTY && i !in reserved
  }

  /** The cursor search: the first free slot at or after the cursor. Without one it runs off the vector,
      or off the 32-bit index range where the vector covers it. */
  method FindSlot(slots: seq<SlotValue>, cursor: u32, reserved: set<nat>) returns (r: Result<u32, FixtureError>)
    ensures r.Ok? <==> exists i :: cursor <= i && Free(slots, reserved, i)
    ensures r.Ok? ==> cursor <= r.value && Free(slots, reserved, r.value)
    ensures r.Ok? ==> forall i :: cursor <= i < r.value ==> !Free(slots, reserved, i)
    ensures r.Err? ==> r.error == if |slots| < U32_LIMIT then SlotReadOutOfRange else OutputSlotOverflow
  {
    var i: u32 := cursor;
    while true
      invariant cursor <= i && forall k :: cursor <= k < i ==> !Free(slots, reserved, k)
      decreases U32_LIMIT - i
    {
      if i >= |slots| {
        return Err(SlotReadOutOfRange);
      }
      if slots[i] == EMPTY && i !in reserved {
        assert Free(slots, reserved, i);
        return Ok(i);
      }
      if i + 1 == U32_LIMIT {
        return Err(OutputSlotOverflow);
      }
      i := i + 1;
    }
  }

  /** The bit pattern of a one-input, two-output, one-page spend. */
  const SPEND_BITMAP: nat := 0xF01

  function SpendBody(anchor: Digest, owner: Address, input: TxInput, a: TxOutput, b: TxOutput, fee: u64): Body {
    TxBody(anchor, fee, owner, seq(TX_INPUTS, i => if i == 0 then input else DUMMY_INPUT), [a, b], SPEND_BITMAP, false)
  }

  lemma {:induction false} SpendBits()
    ensures Bit(SPEND_BITMAP, 0) && Bit(SPEND_BITMAP, 8) && Bit(SPEND_BITMAP, 9)
    ensures Bit(SPEND_BITMAP, START_BIT) && Bit(SPEND_BITMAP, END_BIT)
    ensures forall i :: 0 < i < 8 ==> !Bit(SPEND_BITMAP, i)
  {
    assert Shr(0xF01, 0) == 0xF01;
    assert Shr(0xF01, 1) == 0x780;
    assert Shr(0xF01, 2) == 0x3C0;
    assert Shr(0xF01, 3) == 0x1E0;
    assert Shr(0xF01, 4) == 0xF0;
    assert Shr(0xF01, 5) == 0x78;
    assert Shr(0xF01, 6) == 0x3C;
    assert Shr(0xF01, 7) == 0x1E;
    assert Shr(0xF01, 8) == 0xF;
    assert Shr(0xF01, 9) == 7;
    assert Shr(0xF01, 10) == 3;
    assert Shr(0xF01, 11) == 1;
  }

  lemma {:induction false} SpendRecords(anchor: Digest, owner: Address, input: TxInput, a: TxOutput, b: TxOutput,
                                        fee: u64)
    ensures LiveInputs(SpendBody(anchor, owner, input, a, b, fee)) == [input]
    ensures LiveOutputs(SpendBody(anchor, owner, input, a, b, fee)) == [a, b]
    ensures DeadRecordsZero(SpendBody(anchor, owner, input, a, b, fee))
  {
    var body := SpendBody(anchor, owner, input, a, b, fee);
    SpendBits();
    DeadInputs(body, 1);
    assert LiveOutputsFrom(body, 2) == [];
    assert LiveOutputsFrom(body, 1) == [b];
    assert [a] + [b] == [a, b];
  }

  /** What the fixture needs of one page, without its layout. */
  predicate IsSpend(body: Body, input: TxInput, a: TxOutput, b: TxOutput) {
    && body.validityBitmap == SPEND_BITMAP && !body.isCoinbase && DeadRecordsZero(body)
    && LiveInputs(body) == [input] && LiveOutputs(body) == [a, b]
  }

  lemma {:induction false} SpendFlags(body: Body)
    requires body.validityBitmap == SPEND_BITMAP
    ensures Dense(LiveInputFlags([body])) && Dense(LiveOutputFlags([body]))
  {
    SpendBits();
    var pages := [body];
    assert |LiveInputFlags(pages[1..])| == 0 && |LiveOutputFlags(pages[1..])| == 0;
    var ins, outs := LiveInputFlags(pages), LiveOutputFlags(pages);
    assert forall i :: 0 < i < |ins| ==> !ins[i];
    assert forall i :: 0 <= i < |outs| ==> outs[i];
  }

  lemma {:induction false} SpendSums(body: Body, input: TxInput, a: TxOutput, b: TxOutput)
    requires IsSpend(body, input, a, b)
    ensures PageInputs([body]) == [input] && PageOutputs([body]) == [a, b]
    ensures InputSum([input]) == input.amount && OutputSum([a, b]) == a.amount + b.amount
  {
    assert [body][1..] == [] && [input][1..] == [] && [a, b][1..] == [b] && [b][1..] == [];
    assert OutputSum([b]) == b.amount;
  }

  /** A balanced spend on three distinct slots is a complete one-page group. */
  lemma {:induction false} SpendIsGroup(body: Body, input: TxInput, a: TxOutput, b: TxOutput)
    requires IsSpend(body, input, a, b) && input.amount == a.amount + b.amount + body.fee
    requires Distinct([input.slotIndex, a.slotIndex, b.slotIndex])
    ensures PagedSpendOk([body])
  {
    SpendBits();
    SpendFlags(body);
    SpendSums(body, input, a, b);
    assert InputSlots([input]) + OutputSlots([a, b]) == [input.slotIndex, a.slotIndex, b.slotIndex];
  }

  // Building a child's user transactions.

  /** What the builder finds wrong with a tracked coin. */
  function InputError(wallet: Wallet, slots: seq<SlotValue>, coin: Spendable): Option<FixtureError> {
    if coin.slot >= |slots| then Some(SlotReadOutOfRange)
    else
      var slot := slots[coin.slot];
      if slot == EMPTY then Some(InputNotLive)
      else if Word256(slot.ownerHi, slot.ownerLo) != wallet.address(coin.seed) then Some(OwnerMismatch)
      else None
  }

  predicate Owned(wallet: Wallet, slots: seq<SlotValue>, coin: Spendable) {
    && coin.slot < |slots| && slots[coin.slot] != EMPTY
    && Word256(slots[coin.slot].ownerHi, slots[coin.slot].ownerLo) == wallet.address(coin.seed)
  }

  /** The wallet seed of output `o` of transaction `t` under a nonce domain. */
  function OutputOwner(wallet: Wallet, domain: nat, t: nat, o: nat): Address {
    wallet.address(wallet.outputSeed(domain, t, o))
  }

  /** One transaction spends one tracked coin into two fresh slots of the parent. */
  predicate SpendsCoin(wallet: Wallet, slots: seq<SlotValue>, coin: Spendable, body: Body, first: u32, second: u32,
                       domain: nat, t: nat)
  {
    && Owned(wallet, slots, coin)
    && PagedSpendOk([body]) && |LiveInputs(body)| == 1 && |LiveOutputs(body)| == 2
    && LiveInputs(body)[0].slotIndex == coin.slot && Claim(body.inputOwner, LiveInputs(body)[0]) == slots[coin.slot]
    && LiveOutputs(body)[0].slotIndex == first && LiveOutputs(body)[0].owner == OutputOwner(wallet, domain, t, 0)
    && LiveOutputs(body)[1].slotIndex == second && LiveOutputs(body)[1].owner == OutputOwner(wallet, domain, t, 1)
  }

  /** The slots handed out, in order: strictly increasing, all free in the parent. */
  predicate Allocated(slots: seq<SlotValue>, out: seq<u32>, from: u32, cursor: u32) {
    && (forall i, j :: 0 <= i < j < |out| ==> out[i] < out[j])
    && (forall i :: 0 <= i < |out| ==> from <= out[i] < cursor && out[i] < |slots| && slots[out[i]] == EMPTY)
  }

  lemma {:induction false} ClaimMatches(slot: SlotValue)
    ensures Claim(Word256(slot.ownerHi, slot.ownerLo), TxInput(0, slot.Amount(), slot.CreationId())) == slot
  {
  }

  /** The body the fee is asked for: outputs of one unit and no fee yet. */
  function Draft(body: Body): Body {
    body.(fee := 0, outputs := [body.outputs[0].(amount := 1), body.outputs[1].(amount := 1)])
  }

  /** The body binds the anchor, pays the fee its draft is charged at the parent's occupancy and depth, and
      splits the rest in two, the odd unit to the second output. */
  predicate Priced(wallet: Wallet, l: Ledger, anchor: Digest, body: Body) {
    && body.epochAnchor == anchor && body.fee == wallet.fee(Draft(body), l.active, l.logSlots)
    && |LiveInputs(body)| == 1 && LiveInputs(body)[0].amount >= body.fee
    && var rest := LiveInputs(body)[0].amount - body.fee;
       body.outputs[0].amount == rest / 2 && body.outputs[1].amount == rest - rest / 2
  }

  /** Split what the fee leaves between two outputs. */
  method BuildSpend(wallet: Wallet, l: Ledger, coin: Spendable, anchor: Digest, first: u32, second: u32,
                    domain: nat, index: nat)
    returns (r: Result<Body, FixtureError>)
    requires Owned(wallet, l.slots, coin) && first < second
    requires first < |l.slots| && l.slots[first] == EMPTY && second < |l.slots| && l.slots[second] == EMPTY
    ensures r.Ok? ==> SpendsCoin(wallet, l.slots, coin, r.value, first, second, domain, index)
    ensures r.Ok? ==> Priced(wallet, l, anchor, r.value)
    ensures r.Err? ==> r.error == FeeNotCovered
  {
    var slot, owner := l.slots[coin.slot], wallet.address(coin.seed);
    var input := TxInput(coin.slot, slot.Amount(), slot.CreationId());
    var ownerA, ownerB := OutputOwner(wallet, domain, index, 0), OutputOwner(wallet, domain, index, 1);
    var draft := SpendBody(anchor, owner, input, TxOutput(first, 1, ownerA), TxOutput(second, 1, ownerB), 0);
    var fee := wallet.fee(draft, l.active, l.logSlots);
    if slot.Amount() < fee {
      return Err(FeeNotCovered);
    }
    var spendable := slot.Amount() - fee;
    var a, b := TxOutput(first, spendable / 2, ownerA), TxOutput(second, spendable - spendable / 2, ownerB);
    var body := SpendBody(anchor, owner, input, a, b, fee);
    SpendRecords(anchor, owner, input, a, b, fee);
    ClaimMatches(slot);
    SpendIsGroup(body, input, a, b);
    assert Draft(body) == draft;
    r := Ok(body);
  }

  /** Two output slots for one transaction. The cursor steps past each slot it hands out, and the
      step itself must not overflow a 32-bit index. It fails only with fewer than two free slots left. */
  method AllocatePair(slots: seq<SlotValue>, cursor: u32, reserved: set<nat>)
    returns (r: Result<(u32, u32), FixtureError>, reserved': set<nat>)
    ensures r.Ok? ==> cursor <= r.value.0 < r.value.1 && r.value.1 as nat + 1 < U32_LIMIT
    ensures r.Ok? ==> Free(slots, reserved, r.value.0) && Free(slots, reserved, r.value.1)
    ensures r.Ok? ==> reserved' == reserved + {r.value.0 as nat, r.value.1 as nat}
    ensures r.Err? ==> r.error in {SlotReadOutOfRange, OutputSlotOverflow}
    ensures r.Err? ==> forall i, j :: cursor <= i < j && j + 1 < U32_LIMIT && Free(slots, reserved, i) ==>
                         !Free(slots, reserved, j)
  {
    reserved' := reserved;
    var first := FindSlot(slots, cursor, reserved');
    if first.Err? {
      return Err(first.error), reserved';
    }
    if first.value as nat + 1 == U32_LIMIT {
      return Err(OutputSlotOverflow), reserved';
    }
    reserved' := reserved' + {first.value as nat};
    var second := FindSlot(slots, first.value + 1, reserved');
    if second.Err? {
      assert forall j :: first.value < j && Free(slots, reserved, j) ==> Free(slots, reserved', j);
      return Err(second.error), reserved';
    }
    if second.value as nat + 1 == U32_LIMIT {
      assert forall j :: first.value < j && Free(slots, reserved, j) ==> Free(slots, reserved', j);
      return Err(OutputSlotOverflow), reserved';
    }
    reserved' := reserved' + {second.value as nat};
    r := Ok((first.value, second.value));
  }

  datatype ChildUsers = ChildUsers(
    transactions: seq<Body>, outputs: seq<u32>, spendables: seq<Spendable>, cursor: u32)

  /** Users of a child block: transaction `t` spends coin `t` into slots `2t` and `2t + 1` of the
      allocation, and both become spendable under their own wallet seeds. */
  predicate UsersOk(wallet: Wallet, cp: Checkpoint, domain: nat, n: nat, users: ChildUsers) {
    && n <= |cp.coins| && |users.transactions| == n && |users.outputs| == |users.spendables| == 2 * n
    && cp.cursor <= users.cursor && Allocated(cp.ledger.slots, users.outputs, cp.cursor, users.cursor)
    && (forall t :: 0 <= t < n ==> UserSpends(wallet, cp, domain, users, t))
    && (forall t :: 0 <= t < n ==> NewCoins(wallet, domain, users, t))
  }

  predicate UserSpends(wallet: Wallet, cp: Checkpoint, domain: nat, users: ChildUsers, t: nat)
    requires t < |cp.coins| && t < |users.transactions| && 2 * t + 1 < |users.outputs|
  {
    SpendsCoin(wallet, cp.ledger.slots, cp.coins[t], users.transactions[t],
               users.outputs[2 * t], users.outputs[2 * t + 1], domain, t)
  }

  predicate NewCoins(wallet: Wallet, domain: nat, users: ChildUsers, t: nat)
    requires 2 * t + 1 < |users.outputs| == |users.spendables|
  {
    && users.spendables[2 * t] == Spendable(users.outputs[2 * t], wallet.outputSeed(domain, t, 0))
    && users.spendables[2 * t + 1] == Spendable(users.outputs[2 * t + 1], wallet.outputSeed(domain, t, 1))
  }

  lemma {:induction false} AllocateTwo(slots: seq<SlotValue>, out: seq<u32>, from: u32, cursor: u32,
                                       first: u32, second: u32)
    requires Allocated(slots, out, from, cursor) && from <= cursor <= first < second && second as nat + 1 < U32_LIMIT
    requires first < |slots| && slots[first] == EMPTY && second < |slots| && slots[second] == EMPTY
    ensures Allocated(slots, out + [first, second], from, second + 1)
  {
  }

  /** One more transaction, its two slots and its two coins. */
  function WithUser(wallet: Wallet, domain: nat, users: ChildUsers, body: Body, first: u32, second: u32): ChildUsers
    requires second as nat + 1 < U32_LIMIT
  {
    var t := |users.transactions|;
    var a, b := Spendable(first, wallet.outputSeed(domain, t, 0)), Spendable(second, wallet.outputSeed(domain, t, 1));
    ChildUsers(users.transactions + [body], users.outputs + [first, second], users.spendables + [a, b], second + 1)
  }

  lemma {:induction false} AddUser(wallet: Wallet, cp: Checkpoint, domain: nat, n: nat, users: ChildUsers,
                                   body: Body, first: u32, second: u32)
    requires UsersOk(wallet, cp, domain, n, users) && n < |cp.coins|
    requires users.cursor <= first < second && second as nat + 1 < U32_LIMIT
    requires first < |cp.ledger.slots| && cp.ledger.slots[first] == EMPTY
    requires second < |cp.ledger.slots| && cp.ledger.slots[second] == EMPTY
    requires SpendsCoin(wallet, cp.ledger.slots, cp.coins[n], body, first, second, domain, n)
    ensures UsersOk(wallet, cp, domain, n + 1, WithUser(wallet, domain, users, body, first, second))
  {
    AllocateTwo(cp.ledger.slots, users.outputs, cp.cursor, users.cursor, first, second);
    var more := WithUser(wallet, domain, users, body, first, second);
    forall t | 0 <= t < n + 1
      ensures UserSpends(wallet, cp, domain, more, t) && NewCoins(wallet, domain, more, t)
    {
      if t < n {
        assert UserSpends(wallet, cp, domain, users, t) && NewCoins(wallet, domain, users, t);
      }
    }
  }

  /** The builder stops at coin `t` with `error`: every earlier coin was fine, and either this one is
      not, or its output slots or its fee cannot be had. */
  predicate StopsAt(wallet: Wallet, cp: Checkpoint, t: nat, error: FixtureError) {
    && t < |cp.coins| && (forall s :: 0 <= s < t ==> InputError(wallet, cp.ledger.slots, cp.coins[s]).None?)
    && match InputError(wallet, cp.ledger.slots, cp.coins[t])
       case Some(e) => error == e
       case None => error in {SlotReadOutOfRange, OutputSlotOverflow, FeeNotCovered}
  }

  /** One turn of the loop: check the coin, find its two slots, split its amount. */
  method OneUser(wallet: Wallet, cp: Checkpoint, anchor: Digest, domain: nat, t: nat, users: ChildUsers,
                 reserved: set<nat>)
    returns (r: Result<ChildUsers, FixtureError>, reserved': set<nat>)
    requires UsersOk(wallet, cp, domain, t, users) && t < |cp.coins|
    ensures r.Ok? ==> InputError(wallet, cp.ledger.slots, cp.coins[t]).None?
    ensures r.Ok? ==> UsersOk(wallet, cp, domain, t + 1, r.value)
    ensures r.Ok? ==> r.value.transactions[..t] == users.transactions
                      && Priced(wallet, cp.ledger, anchor, r.value.transactions[t])
    ensures r.Err? ==> match InputError(wallet, cp.ledger.slots, cp.coins[t])
                       case Some(e) => r.error == e
                       case None => r.error in {SlotReadOutOfRange, OutputSlotOverflow, FeeNotCovered}
  {
    reserved' := reserved;
    var bad := InputError(wallet, cp.ledger.slots, cp.coins[t]);
    if bad.Some? {
      return Err(bad.value), reserved';
    }
    var pair;
    pair, reserved' := AllocatePair(cp.ledger.slots, users.cursor, reserved');
    if pair.Err? {
      return Err(pair.error), reserved';
    }
    var (first, second) := pair.value;
    var body := BuildSpend(wallet, cp.ledger, cp.coins[t], anchor, first, second, domain, t);
    if body.Err? {
      return Err(body.error), reserved';
    }
    AddUser(wallet, cp, domain, t, users, body.value, first, second);
    r := Ok(WithUser(wallet, domain, users, body.value, first, second));
  }

  /** `child_user_transactions`. */
  method ChildUserTransactions(wallet: Wallet, cp: Checkpoint, anchor: Digest, domain: nat, userCount: nat)
    returns (r: Result<ChildUsers, FixtureError>)
    ensures r.Ok? ==> UsersOk(wallet, cp, domain, userCount, r.value)
    ensures r.Ok? ==> forall t :: 0 <= t < userCount ==> Priced(wallet, cp.ledger, anchor, r.value.transactions[t])
    ensures r == Err(NotEnoughSpendables) <==> |cp.coins| < userCount
    ensures r.Err? && |cp.coins| >= userCount ==> exists t :: 0 <= t < userCount && StopsAt(wallet, cp, t, r.error)
  {
    if |cp.coins| < userCount {
      return Err(NotEnoughSpendables);
    }
    var users := ChildUsers([], [], [], cp.cursor);
    var reserved: set<nat> := {};
    for t := 0 to userCount
      invariant UsersOk(wallet, cp, domain, t, users)
      invariant forall s :: 0 <= s < t ==> InputError(wallet, cp.ledger.slots, cp.coins[s]).None?
      invariant forall s :: 0 <= s < t ==> Priced(wallet, cp.ledger, anchor, users.transactions[s])
    {
      var next;
      next, reserved := OneUser(wallet, cp, anchor, domain, t, users, reserved);
      if next.Err? {
        assert StopsAt(wallet, cp, t, next.error);
        return Err(next.error);
      }
      assert forall s :: 0 <= s < t ==> next.value.transactions[s] == next.value.transactions[..t][s];
      users := next.value;
    }
    r := Ok(users);
  }

  // Across steps.

  /** The coins carried over: unspent ones, the new coinbase, then the new outputs. */
  function NextSpendables(coins: seq<Spendable>, userCount: nat, coinbase: Spendable, minted: seq<Spendable>)
    : seq<Spendable>
    requires userCount <= |coins|
  {
    coins[userCount..] + [coinbase] + minted
  }

  /** The users per block of the backbone for a small tier `k`. */
  function BackboneUsers(k: nat): seq<nat> {
    [0, 1, 3, 7, 15, k, k + 1]
  }

  /** Spendables before step `i`, starting from none, when each step of `u` users adds `u + 1`. */
  function Available(users: seq<nat>, i: nat): nat
    requires i <= |users|
  {
    if i == 0 then 0 else Available(users, i - 1) + users[i - 1] + 1
  }

  lemma {:induction false} AvailableAlong(k: nat)
    ensures var u := BackboneUsers(k);
            && Available(u, 0) == 0 && Available(u, 1) == 1 && Available(u, 2) == 3 && Available(u, 3) == 7
            && Available(u, 4) == 15 && Available(u, 5) == 31 && Available(u, 6) == 32 + k
            && Available(u, 7) == 34 + 2 * k
  {
    var u := BackboneUsers(k);
    assert Available(u, 1) == 1;
    assert Available(u, 2) == 3;
    assert Available(u, 3) == 7;
    assert Available(u, 4) == 15;
    assert Available(u, 5) == 31;
    assert Available(u, 6) == 32 + k;
  }

  /** Only the step that fills the small tier can run short, and it does exactly for tiers above 31. */
  lemma {:induction false} ShortExactly(k: nat, i: nat)
    requires i < |BackboneUsers(k)|
    ensures Available(BackboneUsers(k), i) < BackboneUsers(k)[i] <==> i == 5 && k > 31
  {
    AvailableAlong(k);
  }
}
