/** The fixture's tracked coins across a block: everything carried over is live, owned and distinct. */
module FixtureRuns {
  import opened Powers
  import opened Types
  import opened ExactState
  import opened Transactions
  import opened Ledger
  import opened TxOperations
  import opened BlockLedger
  import opened BlockEffect
  import opened Fixture

  /** Tracked coins sit in distinct slots, each live and owned by its wallet. */
  predicate Tracked(wallet: Wallet, slots: seq<SlotValue>, coins: seq<Spendable>) {
    && (forall i :: 0 <= i < |coins| ==> Owned(wallet, slots, coins[i]))
    && (forall i, j :: 0 <= i < j < |coins| ==> coins[i].slot != coins[j].slot)
  }

  // One fixture block.

  /** The transactions after the system records are the built users, in whatever order the template
      sorted them. */
  predicate HoldsUsers(txs: seq<Body>, users: ChildUsers) {
    UserStart(txs) <= |txs| && multiset(txs[UserStart(txs)..]) == multiset(users.transactions)
  }

  lemma {:induction false} UserPlace(txs: seq<Body>, users: ChildUsers, u: nat) returns (t: nat)
    requires HoldsUsers(txs, users) && u < |users.transactions|
    ensures 0 < t < |txs| && txs[t] == users.transactions[u]
  {
    var tail := txs[UserStart(txs)..];
    assert users.transactions[u] in multiset(users.transactions);
    var k :| 0 <= k < |tail| && tail[k] == users.transactions[u];
    t := UserStart(txs) + k;
  }

  lemma {:induction false} UserOrigin(txs: seq<Body>, users: ChildUsers, t: nat) returns (u: nat)
    requires HoldsUsers(txs, users) && UserStart(txs) <= t < |txs|
    ensures u < |users.transactions| && users.transactions[u] == txs[t]
  {
    var tail := txs[UserStart(txs)..];
    assert tail[t - UserStart(txs)] in multiset(tail);
    u :| 0 <= u < |users.transactions| && users.transactions[u] == txs[t];
  }

  /** A block of these users whose operations run on the checkpoint's own ledger. */
  predicate Built(wallet: Wallet, cp: Checkpoint, domain: nat, n: nat, users: ChildUsers, txs: seq<Body>, height: u64) {
    && Inv(cp.ledger) && Tracked(wallet, cp.ledger.slots, cp.coins) && UsersOk(wallet, cp, domain, n, users)
    && PageStream(txs, V1).Ok? && HoldsUsers(txs, users) && Ran(cp.ledger, txs, height)
  }

  predicate Ran(l: Ledger, txs: seq<Body>, height: u64) {
    Distinct(OpSlots(BlockOps(txs))) && Run(l, BlockOps(txs), height).Some?
  }

  function After(l: Ledger, txs: seq<Body>, height: u64): seq<SlotValue>
    requires Ran(l, txs, height)
  {
    Run(l, BlockOps(txs), height).value.slots
  }

  /** Whatever the block spends is one of the coins the users were built from. */
  lemma {:induction false} SpendOrigin(wallet: Wallet, cp: Checkpoint, domain: nat, n: nat, users: ChildUsers,
                                       txs: seq<Body>, k: nat) returns (u: nat)
    requires UsersOk(wallet, cp, domain, n, users) && PageStream(txs, V1).Ok? && HoldsUsers(txs, users)
    requires k < |BlockOps(txs)| && BlockOps(txs)[k].Spend?
    ensures u < n && BlockOps(txs)[k].slot == cp.coins[u].slot
  {
    var t, j := OpOrigin(txs, k);
    SystemSpendsNothing(txs, t, j);
    u := UserOrigin(txs, users, t);
    assert UserSpends(wallet, cp, domain, users, u);
    OneInputSpend(txs[t], j);
  }

  lemma {:induction false} SystemSpendsNothing(txs: seq<Body>, t: nat, j: nat)
    requires PageStream(txs, V1).Ok? && t < |txs| && j < |TxOps(txs[t])| && TxOps(txs[t])[j].Spend?
    ensures UserStart(txs) <= t
  {
    if t < UserStart(txs) {
      PrimaryShape(txs[t]);
    }
  }

  lemma {:induction false} OneInputSpend(body: Body, j: nat)
    requires |LiveInputs(body)| == 1 && j < |TxOps(body)| && TxOps(body)[j].Spend?
    ensures TxOps(body)[j].slot == LiveInputs(body)[0].slotIndex
  {
  }

  /** A coin the block does not spend is named by none of its operations. */
  lemma {:induction false} KeptCoinUnnamed(wallet: Wallet, cp: Checkpoint, domain: nat, n: nat, users: ChildUsers,
                                           txs: seq<Body>, i: nat, k: nat)
    requires Tracked(wallet, cp.ledger.slots, cp.coins) && UsersOk(wallet, cp, domain, n, users)
    requires PageStream(txs, V1).Ok? && HoldsUsers(txs, users) && AllExpected(cp.ledger.slots, BlockOps(txs))
    requires n <= i < |cp.coins| && k < |BlockOps(txs)|
    ensures BlockOps(txs)[k].slot != cp.coins[i].slot
  {
    var op := BlockOps(txs)[k];
    assert Expects(cp.ledger.slots, op) && Owned(wallet, cp.ledger.slots, cp.coins[i]);
    if op.Spend? {
      var u := SpendOrigin(wallet, cp, domain, n, users, txs, k);
    }
  }

  lemma {:induction false} KeptCoinOwned(wallet: Wallet, cp: Checkpoint, domain: nat, n: nat, users: ChildUsers,
                                         txs: seq<Body>, height: u64, i: nat)
    requires Built(wallet, cp, domain, n, users, txs, height) && n <= i < |cp.coins|
    ensures Owned(wallet, After(cp.ledger, txs, height), cp.coins[i])
  {
    SimultaneousRuns(cp.ledger, BlockOps(txs), height);
    forall k | 0 <= k < |BlockOps(txs)|
      ensures BlockOps(txs)[k].slot != cp.coins[i].slot
    {
      KeptCoinUnnamed(wallet, cp, domain, n, users, txs, i, k);
    }
    assert Owned(wallet, cp.ledger.slots, cp.coins[i]);
    UnnamedSlot(cp.ledger, BlockOps(txs), height, cp.coins[i].slot);
  }

  lemma {:induction false} NewCoinOwned(wallet: Wallet, l: Ledger, txs: seq<Body>, height: u64, t: nat, o: nat,
                                        coin: Spendable)
    requires Inv(l) && Ran(l, txs, height) && t < |txs| && o < |LiveOutputs(txs[t])|
    requires coin.slot == LiveOutputs(txs[t])[o].slotIndex
    requires wallet.address(coin.seed) == LiveOutputs(txs[t])[o].owner
    ensures Owned(wallet, After(l, txs, height), coin)
    ensures coin.slot < |l.slots| && l.slots[coin.slot] == EMPTY
  {
    var k := OutputOp(txs, t, o);
    MintedSlot(l, BlockOps(txs), height, k);
    SimultaneousRuns(l, BlockOps(txs), height);
    assert Expects(l.slots, BlockOps(txs)[k]);
  }

  lemma {:induction false} UserFactsAt(wallet: Wallet, cp: Checkpoint, domain: nat, n: nat, users: ChildUsers,
                                       t: nat, o: nat)
    requires UsersOk(wallet, cp, domain, n, users) && t < n && o < 2
    ensures |LiveOutputs(users.transactions[t])| == 2 && 2 * t + o < |users.spendables|
    ensures var output, coin := LiveOutputs(users.transactions[t])[o], users.spendables[2 * t + o];
            && output.slotIndex == coin.slot == users.outputs[2 * t + o]
            && output.owner == wallet.address(coin.seed)
  {
    assert NewCoins(wallet, domain, users, t) && UserSpends(wallet, cp, domain, users, t);
  }

  /** What one user coin is: an output of its transaction, under its own seed. */
  lemma {:induction false} UserFacts(wallet: Wallet, cp: Checkpoint, domain: nat, n: nat, users: ChildUsers, i: nat)
    requires UsersOk(wallet, cp, domain, n, users) && i < 2 * n
    ensures i / 2 < |users.transactions| && |LiveOutputs(users.transactions[i / 2])| == 2 && i < |users.spendables|
    ensures var output := LiveOutputs(users.transactions[i / 2])[i % 2];
            && output.slotIndex == users.spendables[i].slot == users.outputs[i]
            && output.owner == wallet.address(users.spendables[i].seed)
  {
    var t, o := i / 2, i % 2;
    assert i == 2 * t + o;
    UserFactsAt(wallet, cp, domain, n, users, t, o);
  }

  /** A user coin is owned after the block, was empty before it, and is not the coinbase's slot. */
  lemma {:induction false} UserCoinOwned(wallet: Wallet, cp: Checkpoint, domain: nat, n: nat, users: ChildUsers,
                                         txs: seq<Body>, height: u64, i: nat)
    requires Built(wallet, cp, domain, n, users, txs, height) && i < 2 * n && |LiveOutputs(txs[0])| > 0
    ensures i < |users.spendables| && Owned(wallet, After(cp.ledger, txs, height), users.spendables[i])
    ensures SlotAt(cp.ledger.slots, users.spendables[i].slot) == EMPTY
    ensures LiveOutputs(txs[0])[0].slotIndex != users.spendables[i].slot
  {
    UserFacts(wallet, cp, domain, n, users, i);
    var t := UserPlace(txs, users, i / 2);
    NewCoinOwned(wallet, cp.ledger, txs, height, t, i % 2, users.spendables[i]);
    TwoOutputsApart(txs, t, i % 2);
  }

  lemma {:induction false} TwoOutputsApart(txs: seq<Body>, t: nat, o: nat)
    requires 0 < t < |txs| && |LiveOutputs(txs[0])| > 0 && o < |LiveOutputs(txs[t])|
    requires Distinct(OpSlots(BlockOps(txs)))
    ensures LiveOutputs(txs[0])[0].slotIndex != LiveOutputs(txs[t])[o].slotIndex
  {
    var front := txs[..|txs| - 1];
    var names := OpSlots(BlockOps(txs));
    if t < |front| {
      BlockOpSlots(txs);
      BlockOpSlots(front);
      DistinctParts(txs);
      TwoOutputsApart(front, t, o);
    } else {
      var k := OutputOp(front, 0, 0);
      var k' := |BlockOps(front)| + |LiveInputs(txs[t])| + o;
      assert names[k] != names[k'];
    }
  }

  lemma {:induction false} PartsOwned(wallet: Wallet, slots: seq<SlotValue>, coins: seq<Spendable>, n: nat,
                                      reward: Spendable, minted: seq<Spendable>)
    requires n <= |coins| && (forall i :: n <= i < |coins| ==> Owned(wallet, slots, coins[i]))
    requires Owned(wallet, slots, reward) && forall i :: 0 <= i < |minted| ==> Owned(wallet, slots, minted[i])
    ensures var next := NextSpendables(coins, n, reward, minted);
            forall i :: 0 <= i < |next| ==> Owned(wallet, slots, next[i])
  {
  }

  /** Old coins are live in the parent, new ones empty there, so nothing collides. */
  lemma {:induction false} PartsDistinct(slots: seq<SlotValue>, coins: seq<Spendable>, n: nat, reward: Spendable,
                                         minted: seq<Spendable>)
    requires n <= |coins| && forall i, j :: 0 <= i < j < |coins| ==> coins[i].slot != coins[j].slot
    requires forall i :: n <= i < |coins| ==> SlotAt(slots, coins[i].slot) != EMPTY
    requires SlotAt(slots, reward.slot) == EMPTY
    requires forall i :: 0 <= i < |minted| ==> SlotAt(slots, minted[i].slot) == EMPTY && minted[i].slot != reward.slot
    requires forall i, j :: 0 <= i < j < |minted| ==> minted[i].slot < minted[j].slot
    ensures var next := NextSpendables(coins, n, reward, minted);
            forall i, j :: 0 <= i < j < |next| ==> next[i].slot != next[j].slot
  {
  }

  lemma {:induction false} MintedIncrease(wallet: Wallet, cp: Checkpoint, domain: nat, n: nat, users: ChildUsers)
    requires UsersOk(wallet, cp, domain, n, users)
    ensures |users.spendables| == 2 * n
    ensures forall i, j :: 0 <= i < j < |users.spendables| ==> users.spendables[i].slot < users.spendables[j].slot
  {
    MintedSlots(wallet, cp, domain, n, users);
  }

  /** The coins carried over a block that ran on the checkpoint's ledger. */
  lemma {:induction false} CarriedTracked(wallet: Wallet, cp: Checkpoint, domain: nat, n: nat, users: ChildUsers,
                                          txs: seq<Body>, height: u64, reward: Spendable)
    requires Built(wallet, cp, domain, n, users, txs, height) && |LiveOutputs(txs[0])| > 0
    requires reward.slot == LiveOutputs(txs[0])[0].slotIndex
    requires wallet.address(reward.seed) == LiveOutputs(txs[0])[0].owner
    ensures Tracked(wallet, After(cp.ledger, txs, height), NextSpendables(cp.coins, n, reward, users.spendables))
  {
    var slots := After(cp.ledger, txs, height);
    MintedIncrease(wallet, cp, domain, n, users);
    NewCoinOwned(wallet, cp.ledger, txs, height, 0, 0, reward);
    forall i | n <= i < |cp.coins|
      ensures Owned(wallet, slots, cp.coins[i]) && SlotAt(cp.ledger.slots, cp.coins[i].slot) != EMPTY
    {
      KeptCoinOwned(wallet, cp, domain, n, users, txs, height, i);
      assert Owned(wallet, cp.ledger.slots, cp.coins[i]);
    }
    forall i | 0 <= i < |users.spendables|
      ensures Owned(wallet, slots, users.spendables[i])
      ensures SlotAt(cp.ledger.slots, users.spendables[i].slot) == EMPTY && users.spendables[i].slot != reward.slot
    {
      UserCoinOwned(wallet, cp, domain, n, users, txs, height, i);
    }
    PartsOwned(wallet, slots, cp.coins, n, reward, users.spendables);
    PartsDistinct(cp.ledger.slots, cp.coins, n, reward, users.spendables);
  }

  // Expansion under a checkpoint.

  predicate Extends(small: seq<SlotValue>, large: seq<SlotValue>) {
    |small| <= |large| && forall i :: 0 <= i < |small| ==> large[i] == small[i]
  }

  lemma {:induction false} ExpandExtends(l: Ledger, target: nat)
    requires Inv(l)
    ensures Inv(ExpandTo(l, target)) && Extends(l.slots, ExpandTo(l, target).slots)
  {
    ExpandToKeeps(l, target);
    var m := ExpandTo(l, target);
    Pow2Monotone(l.logSlots, m.logSlots);
    forall i | 0 <= i < |l.slots|
      ensures m.slots[i] == l.slots[i]
    {
      assert SlotAt(m.slots, i) == SlotAt(l.slots, i);
    }
  }

  lemma {:induction false} ExtendedUsers(wallet: Wallet, cp: Checkpoint, domain: nat, n: nat, users: ChildUsers,
                                         m: Ledger)
    requires UsersOk(wallet, cp, domain, n, users) && Tracked(wallet, cp.ledger.slots, cp.coins)
    requires Extends(cp.ledger.slots, m.slots)
    ensures UsersOk(wallet, cp.(ledger := m), domain, n, users) && Tracked(wallet, m.slots, cp.coins)
  {
    forall i | 0 <= i < |cp.coins|
      ensures Owned(wallet, m.slots, cp.coins[i])
    {
      assert Owned(wallet, cp.ledger.slots, cp.coins[i]);
    }
    forall t | 0 <= t < n
      ensures UserSpends(wallet, cp.(ledger := m), domain, users, t)
    {
      assert UserSpends(wallet, cp, domain, users, t);
    }
  }

  // The next checkpoint.

  /** The template pays the primary coinbase to the miner seed of the child. */
  predicate PaysMiner(wallet: Wallet, cp: Checkpoint, domain: nat, block: Block) {
    && |block.transactions| > 0 && |LiveOutputs(block.transactions[0])| > 0
    && LiveOutputs(block.transactions[0])[0].owner == wallet.address(wallet.minerSeed(domain, cp.height))
  }

  /** A fixture block: the built users behind the system records, the reward to the miner. */
  predicate FixtureBlock(wallet: Wallet, cp: Checkpoint, domain: nat, users: ChildUsers, block: Block) {
    HoldsUsers(block.transactions, users) && PaysMiner(wallet, cp, domain, block)
  }

  /** The checkpoint after a fixture block commits. */
  function NextCheckpoint(wallet: Wallet, cp: Checkpoint, domain: nat, n: nat, users: ChildUsers, block: Block)
    : Checkpoint
    requires n <= |cp.coins| && FixtureBlock(wallet, cp, domain, users, block) && ApplyBlock(cp.ledger, block).Ok?
  {
    var reward := Spendable(LiveOutputs(block.transactions[0])[0].slotIndex, wallet.minerSeed(domain, cp.height));
    Checkpoint(ApplyBlock(cp.ledger, block).value, NextSpendables(cp.coins, n, reward, users.spendables), users.cursor,
               cp.height + 1)
  }

  /** A checkpoint children can be built on. */
  predicate Ready(wallet: Wallet, cp: Checkpoint) {
    Inv(cp.ledger) && Tracked(wallet, cp.ledger.slots, cp.coins)
  }

  /** A fixture block keeps its promise to the next one: the carried coins are live, owned and distinct,
      one more than there were plus one per user. */
  lemma {:induction false} TrackedStep(wallet: Wallet, cp: Checkpoint, domain: nat, n: nat, users: ChildUsers,
                                       block: Block)
    requires Ready(wallet, cp) && UsersOk(wallet, cp, domain, n, users)
    requires FixtureBlock(wallet, cp, domain, users, block) && ApplyBlock(cp.ledger, block).Ok?
    ensures Ready(wallet, NextCheckpoint(wallet, cp, domain, n, users, block))
    ensures |NextCheckpoint(wallet, cp, domain, n, users, block).coins| == |cp.coins| + n + 1
  {
    var txs, height := block.transactions, block.header.height;
    var m := ExpandTo(cp.ledger, block.header.logSlots);
    BlockIsRun(cp.ledger, block);
    BlockOpSlots(txs);
    ExpandExtends(cp.ledger, block.header.logSlots);
    RunInv(m, BlockOps(txs), height);
    ExtendedUsers(wallet, cp, domain, n, users, m);
    var reward := Spendable(LiveOutputs(txs[0])[0].slotIndex, wallet.minerSeed(domain, cp.height));
    CarriedTracked(wallet, cp.(ledger := m), domain, n, users, txs, height, reward);
  }

  /** The queue of coins: the unspent ones keep their order, the reward comes next, then the new outputs in
      the order of their slots, so the oldest coins are spent first. */
  lemma {:induction false} CoinsInOrder(wallet: Wallet, cp: Checkpoint, domain: nat, n: nat, users: ChildUsers,
                                        reward: Spendable)
    requires UsersOk(wallet, cp, domain, n, users)
    ensures var next, left := NextSpendables(cp.coins, n, reward, users.spendables), |cp.coins| - n;
            && |next| == left + 1 + 2 * n && next[left] == reward
            && (forall i :: 0 <= i < left ==> next[i] == cp.coins[n + i])
            && (forall i :: 0 <= i < 2 * n ==> next[left + 1 + i].slot == users.outputs[i])
  {
    MintedSlots(wallet, cp, domain, n, users);
  }

  lemma {:induction false} MintedSlots(wallet: Wallet, cp: Checkpoint, domain: nat, n: nat, users: ChildUsers)
    requires UsersOk(wallet, cp, domain, n, users)
    ensures forall i :: 0 <= i < 2 * n ==> users.spendables[i].slot == users.outputs[i]
  {
    forall i | 0 <= i < 2 * n
      ensures users.spendables[i].slot == users.outputs[i]
    {
      UserFacts(wallet, cp, domain, n, users, i);
    }
  }
}
