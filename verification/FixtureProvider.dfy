/** The fixture's walk from genesis: which coins it has before every step of its schedule, and the
    provider that takes the steps and keeps two parents to fork from. */
module FixtureProvider {
  import opened Types
  import opened Transactions
  import opened BlockLedger
  import opened ChainRuns
  import opened Fixture
  import opened FixtureRuns

  /** One accepted child: its built users and the sealed block that holds them. */
  datatype Child = Child(users: ChildUsers, block: Block)

  const BACKBONE_LENGTH: nat := 7

  function GenesisCheckpoint(logSlots: nat, cursor: u32): Checkpoint {
    Checkpoint(Genesis(logSlots), [], cursor, 0)
  }

  /** Step `i` of the walk: a child built for that step's users, committed on `cp`, leads to `next`. */
  predicate Steps(wallet: Wallet, k: nat, i: nat, cp: Checkpoint, child: Child, next: Checkpoint) {
    && i < BACKBONE_LENGTH && UsersOk(wallet, cp, i, BackboneUsers(k)[i], child.users)
    && FixtureBlock(wallet, cp, i, child.users, child.block) && ApplyBlock(cp.ledger, child.block).Ok?
    && next == NextCheckpoint(wallet, cp, i, BackboneUsers(k)[i], child.users, child.block)
  }

  predicate Unspent(wallet: Wallet, cp: Checkpoint) {
    Ready(wallet, cp) && cp.coins == [] && cp.height == 0
  }

  /** An accepted walk for a small tier `k`: its checkpoints and the children between them. */
  predicate Walked(wallet: Wallet, k: nat, trail: seq<Checkpoint>, children: seq<Child>) {
    && |trail| == |children| + 1 && |children| <= BACKBONE_LENGTH && Unspent(wallet, trail[0])
    && forall i :: 0 <= i < |children| ==> Steps(wallet, k, i, trail[i], children[i], trail[i + 1])
  }

  lemma {:induction false} GenesisUnspent(wallet: Wallet, logSlots: nat, cursor: u32)
    ensures Unspent(wallet, GenesisCheckpoint(logSlots, cursor))
  {
    GenesisTracks(logSlots);
  }

  lemma {:induction false} StepGrows(wallet: Wallet, k: nat, i: nat, cp: Checkpoint, child: Child, next: Checkpoint)
    requires Ready(wallet, cp) && Steps(wallet, k, i, cp, child, next)
    ensures Ready(wallet, next) && |next.coins| == |cp.coins| + BackboneUsers(k)[i] + 1 && next.height == cp.height + 1
    ensures cp.cursor <= next.cursor == child.users.cursor
    ensures forall o :: 0 <= o < |child.users.outputs| ==> cp.cursor <= child.users.outputs[o] < next.cursor
    ensures BackboneUsers(k)[i] <= |cp.coins|
  {
    TrackedStep(wallet, cp, i, BackboneUsers(k)[i], child.users, child.block);
  }

  /** Along every accepted walk the tracked coins are live, owned and distinct, and before step `i`
      there are as many as the schedule's users so far make. */
  lemma {:induction false} WalkCoins(wallet: Wallet, k: nat, trail: seq<Checkpoint>, children: seq<Child>, i: nat)
    requires Walked(wallet, k, trail, children) && i < |trail|
    ensures Ready(wallet, trail[i]) && trail[i].height == i
    ensures |trail[i].coins| == Available(BackboneUsers(k), i)
  {
    if i == 0 {
    } else {
      WalkCoins(wallet, k, trail, children, i - 1);
      assert Steps(wallet, k, i - 1, trail[i - 1], children[i - 1], trail[i - 1 + 1]);
      StepGrows(wallet, k, i - 1, trail[i - 1], children[i - 1], trail[i]);
    }
  }

  lemma {:induction false} CursorGrows(wallet: Wallet, k: nat, trail: seq<Checkpoint>, children: seq<Child>,
                                       i: nat, j: nat)
    requires Walked(wallet, k, trail, children) && i <= j < |trail|
    ensures trail[i].cursor <= trail[j].cursor
    decreases j
  {
    if i == j {
    } else {
      CursorGrows(wallet, k, trail, children, i, j - 1);
      WalkCoins(wallet, k, trail, children, j - 1);
      assert Steps(wallet, k, j - 1, trail[j - 1], children[j - 1], trail[j - 1 + 1]);
      StepGrows(wallet, k, j - 1, trail[j - 1], children[j - 1], trail[j]);
    }
  }

  /** The allocator never hands a slot out twice on a walk: whatever a later step takes lies beyond
      everything an earlier one took. */
  lemma {:induction false} OutputsNeverRepeat(wallet: Wallet, k: nat, trail: seq<Checkpoint>, children: seq<Child>,
                                              i: nat, j: nat, a: nat, b: nat)
    requires Walked(wallet, k, trail, children) && i < j < |children|
    requires a < |children[i].users.outputs| && b < |children[j].users.outputs|
    ensures children[i].users.outputs[a] < children[j].users.outputs[b]
  {
    WalkCoins(wallet, k, trail, children, i);
    WalkCoins(wallet, k, trail, children, j);
    assert Steps(wallet, k, i, trail[i], children[i], trail[i + 1]);
    assert Steps(wallet, k, j, trail[j], children[j], trail[j + 1]);
    StepGrows(wallet, k, i, trail[i], children[i], trail[i + 1]);
    StepGrows(wallet, k, j, trail[j], children[j], trail[j + 1]);
    CursorGrows(wallet, k, trail, children, i + 1, j);
  }

  /** No accepted walk is short of coins at any step, except that with a tier above 31 every walk is
      short when it comes to fill that tier. */
  lemma {:induction false} ScheduleNeverShort(wallet: Wallet, k: nat, trail: seq<Checkpoint>, children: seq<Child>,
                                              i: nat)
    requires Walked(wallet, k, trail, children) && i < |trail| && i < BACKBONE_LENGTH
    ensures |trail[i].coins| < BackboneUsers(k)[i] <==> i == 5 && k > 31
  {
    WalkCoins(wallet, k, trail, children, i);
    ShortExactly(k, i);
  }

  /** So a walk gets past its fifth block only for tiers up to 31. */
  lemma {:induction false} LongWalksAreSmall(wallet: Wallet, k: nat, trail: seq<Checkpoint>, children: seq<Child>)
    requires Walked(wallet, k, trail, children) && |children| > 5
    ensures k <= 31
  {
    ScheduleNeverShort(wallet, k, trail, children, 5);
    WalkCoins(wallet, k, trail, children, 5);
    assert Steps(wallet, k, 5, trail[5], children[5], trail[5 + 1]);
    StepGrows(wallet, k, 5, trail[5], children[5], trail[6]);
  }

  lemma {:induction false} ExtendWalk(wallet: Wallet, k: nat, trail: seq<Checkpoint>, children: seq<Child>,
                                      child: Child, next: Checkpoint)
    requires Walked(wallet, k, trail, children)
    requires Steps(wallet, k, |children|, trail[|children|], child, next)
    ensures Walked(wallet, k, trail + [next], children + [child])
  {
    var longer, more := trail + [next], children + [child];
    forall i | 0 <= i < |more|
      ensures Steps(wallet, k, i, longer[i], more[i], longer[i + 1])
    {
      if i < |children| {
        assert Steps(wallet, k, i, trail[i], children[i], trail[i + 1]);
      }
    }
  }

  // The provider.

  /** Template construction, mining and the consensus checks: the sealed block of built users under a
      nonce domain, when there is one. */
  type Seal = (Checkpoint, ChildUsers, nat) -> Option<Block>

  ghost predicate HonestSeal(wallet: Wallet, seal: Seal) {
    forall cp, users, domain :: seal(cp, users, domain).Some? ==>
      FixtureBlock(wallet, cp, domain, users, seal(cp, users, domain).value)
  }

  datatype StepError =
    | NoTier
    | ChildFailed(error: FixtureError)
    | SealFailed
    | BlockRejected(reason: BlockApplyError)
    | NoParent

  lemma {:induction false} OwnedIsFine(wallet: Wallet, cp: Checkpoint)
    requires Tracked(wallet, cp.ledger.slots, cp.coins)
    ensures forall t :: 0 <= t < |cp.coins| ==> InputError(wallet, cp.ledger.slots, cp.coins[t]).None?
  {
    forall t | 0 <= t < |cp.coins|
      ensures InputError(wallet, cp.ledger.slots, cp.coins[t]).None?
    {
      assert Owned(wallet, cp.ledger.slots, cp.coins[t]);
    }
  }

  /** `build_child_from`, up to the sealed block. On a ready checkpoint a tracked coin is never found
      spent or owned by someone else. */
  method BuildChild(wallet: Wallet, cp: Checkpoint, anchor: Digest, userCount: nat, domain: nat, seal: Seal)
    returns (r: Result<Child, StepError>)
    requires Ready(wallet, cp) && HonestSeal(wallet, seal)
    ensures r.Ok? ==> UsersOk(wallet, cp, domain, userCount, r.value.users)
    ensures r.Ok? ==> FixtureBlock(wallet, cp, domain, r.value.users, r.value.block)
    ensures r == Err(NoTier) <==> userCount > BLOCK_MAX_USER_PAGES
    ensures r == Err(ChildFailed(NotEnoughSpendables)) <==>
            userCount <= BLOCK_MAX_USER_PAGES && |cp.coins| < userCount
    ensures r.Err? ==> r.error in {NoTier, SealFailed, ChildFailed(NotEnoughSpendables),
                                   ChildFailed(SlotReadOutOfRange), ChildFailed(OutputSlotOverflow),
                                   ChildFailed(FeeNotCovered)}
  {
    if userCount > BLOCK_MAX_USER_PAGES {
      return Err(NoTier);
    }
    OwnedIsFine(wallet, cp);
    var users := ChildUserTransactions(wallet, cp, anchor, domain, userCount);
    if users.Err? {
      return Err(ChildFailed(users.error));
    }
    var block := seal(cp, users.value, domain);
    if block.None? {
      return Err(SealFailed);
    }
    r := Ok(Child(users.value, block.value));
  }

  /** Apply a built child to its parent. */
  method TakeStep(wallet: Wallet, k: nat, step: nat, cp: Checkpoint, child: Child)
    returns (r: Result<Checkpoint, StepError>)
    requires step < BACKBONE_LENGTH && UsersOk(wallet, cp, step, BackboneUsers(k)[step], child.users)
    requires FixtureBlock(wallet, cp, step, child.users, child.block)
    ensures r.Ok? <==> ApplyBlock(cp.ledger, child.block).Ok?
    ensures r.Ok? ==> Steps(wallet, k, step, cp, child, r.value)
    ensures r.Err? ==> r.error.BlockRejected?
  {
    var applied := ApplyBlock(cp.ledger, child.block);
    if applied.Err? {
      return Err(BlockRejected(applied.error));
    }
    r := Ok(NextCheckpoint(wallet, cp, step, BackboneUsers(k)[step], child.users, child.block));
  }

  /** Build and take step `|children|` of an accepted walk that stands at `live`. */
  method ExtendOnce(wallet: Wallet, anchor: Digest, k: nat, step: nat, live: Checkpoint, seal: Seal,
                    ghost trail: seq<Checkpoint>, ghost children: seq<Child>)
    returns (r: Result<(Child, Checkpoint), StepError>)
    requires Walked(wallet, k, trail, children) && HonestSeal(wallet, seal)
    requires |children| == step < BACKBONE_LENGTH && live == trail[step]
    ensures r.Ok? ==> Walked(wallet, k, trail + [r.value.1], children + [r.value.0])
    ensures r == Err(ChildFailed(NotEnoughSpendables)) <==> step == 5 && 31 < k <= 255
    ensures r == Err(NoTier) <==> step == 5 && k > 255
    ensures r != Err(ChildFailed(InputNotLive)) && r != Err(ChildFailed(OwnerMismatch))
  {
    WalkCoins(wallet, k, trail, children, step);
    ScheduleNeverShort(wallet, k, trail, children, step);
    if step == 6 {
      LongWalksAreSmall(wallet, k, trail, children);
    }
    var child := BuildChild(wallet, live, anchor, BackboneUsers(k)[step], step, seal);
    if child.Err? {
      return Err(child.error);
    }
    var next := TakeStep(wallet, k, step, live, child.value);
    if next.Err? {
      return Err(next.error);
    }
    ExtendWalk(wallet, k, trail, children, child.value, next.value);
    r := Ok((child.value, next.value));
  }

  class HonestHistoryStepFixtureProvider {
    const wallet: Wallet
    const anchor: Digest
    const small: nat
    const start: Checkpoint
    var backboneIndex: nat
    var live: Checkpoint
    var parents: seq<Option<Checkpoint>>
    ghost var trail: seq<Checkpoint>
    ghost var children: seq<Child>

    /** The provider stands at the end of an accepted walk; parent `p` is the checkpoint after block
        `6 + p`, once that block has been taken. */
    ghost predicate Valid()
      reads this
    {
      && Unspent(wallet, start) && Walked(wallet, small, trail, children) && trail[0] == start
      && |children| == backboneIndex && live == trail[backboneIndex] && |parents| == 2
      && (forall p :: 0 <= p < 2 ==> parents[p] == if backboneIndex < 6 + p then None else Some(trail[6 + p]))
    }

    constructor (wallet: Wallet, anchor: Digest, small: nat, logSlots: nat, cursor: u32)
      ensures Valid() && backboneIndex == 0 && this.small == small && live == GenesisCheckpoint(logSlots, cursor)
    {
      this.wallet := wallet;
      this.anchor := anchor;
      this.small := small;
      start := GenesisCheckpoint(logSlots, cursor);
      backboneIndex := 0;
      live := GenesisCheckpoint(logSlots, cursor);
      parents := [None, None];
      trail := [GenesisCheckpoint(logSlots, cursor)];
      children := [];
      GenesisUnspent(wallet, logSlots, cursor);
    }

    /** Start a fresh pass at genesis; every parent is dropped. */
    method ResetBackbone()
      requires Valid()
      modifies this
      ensures Valid() && backboneIndex == 0 && live == start
    {
      backboneIndex := 0;
      live := start;
      parents := [None, None];
      trail := [start];
      children := [];
    }

    /** Take the next step of the schedule. `Ok(false)` is the end of the walk; an error changes
        nothing; the coins run out exactly at the sixth step of a tier between 32 and 255. */
    method NextBackbone(seal: Seal) returns (r: Result<bool, StepError>)
      requires Valid() && HonestSeal(wallet, seal)
      modifies this
      ensures Valid()
      ensures r == Ok(false) <==> old(backboneIndex) == BACKBONE_LENGTH
      ensures r == Err(ChildFailed(NotEnoughSpendables)) <==> old(backboneIndex) == 5 && 31 < small <= 255
      ensures r == Err(NoTier) <==> old(backboneIndex) == 5 && small > 255
      ensures r != Err(ChildFailed(InputNotLive)) && r != Err(ChildFailed(OwnerMismatch))
      ensures r == Ok(true) ==> backboneIndex == old(backboneIndex) + 1
      ensures r == Ok(true) ==> trail[..|trail| - 1] == old(trail) && children[..|children| - 1] == old(children)
      ensures r != Ok(true) ==> unchanged(this)
    {
      if backboneIndex == BACKBONE_LENGTH {
        return Ok(false);
      }
      var step := backboneIndex;
      var taken := ExtendOnce(wallet, anchor, small, step, live, seal, trail, children);
      if taken.Err? {
        return Err(taken.error);
      }
      live, backboneIndex := taken.value.1, backboneIndex + 1;
      trail, children := trail + [live], children + [taken.value.0];
      if step == 5 {
        parents := parents[0 := Some(live)];
      } else if step == 6 {
        parents := parents[1 := Some(live)];
      }
      r := Ok(true);
    }

    /** Fork a child of either tier from a kept parent: the coins always suffice. */
    method Fork(parent: nat, userCount: nat, domain: nat, seal: Seal) returns (r: Result<Child, StepError>)
      requires Valid() && HonestSeal(wallet, seal) && parent < 2 && userCount in {0, small, small + 1}
      ensures r == Err(NoParent) <==> parents[parent].None?
      ensures r != Err(ChildFailed(NotEnoughSpendables)) && r != Err(NoTier)
      ensures r.Ok? ==> parents[parent].Some?
                        && UsersOk(wallet, parents[parent].value, domain, userCount, r.value.users)
    {
      if parents[parent].None? {
        return Err(NoParent);
      }
      WalkCoins(wallet, small, trail, children, 6 + parent);
      LongWalksAreSmall(wallet, small, trail, children);
      AvailableAlong(small);
      r := BuildChild(wallet, parents[parent].value, anchor, userCount, domain, seal);
    }
  }
}
