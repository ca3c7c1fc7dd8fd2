/** Whole runs of accepted blocks from genesis: what is minted, what is spent, what is live. */
module ChainRuns {
  import opened Powers
  import opened Types
  import opened ExactState
  import opened SlotVector
  import opened Ledger
  import opened BlockLedger

  /** One incarnation of a slot. */
  datatype Coin = Coin(slot: nat, value: SlotValue)

  function CoinAt(slot: nat, value: SlotValue): multiset<Coin> {
    if value.IsEmpty() then multiset{} else multiset{Coin(slot, value)}
  }

  function LiveCoins(slots: seq<SlotValue>): multiset<Coin> {
    if |slots| == 0 then multiset{}
    else LiveCoins(slots[..|slots| - 1]) + CoinAt(|slots| - 1, slots[|slots| - 1])
  }

  lemma {:induction false} Regroup(a: multiset<Coin>, b: multiset<Coin>, c: multiset<Coin>)
    ensures a + b + c == a + c + b
  {
  }

  lemma {:induction false} LiveCoinsUpdate(slots: seq<SlotValue>, i: nat, value: SlotValue)
    requires i < |slots|
    ensures LiveCoins(slots[i := value]) + CoinAt(i, slots[i]) == LiveCoins(slots) + CoinAt(i, value)
  {
    var last := |slots| - 1;
    if i < last {
      var front, tail := slots[..last], CoinAt(last, slots[last]);
      LiveCoinsUpdate(front, i, value);
      assert slots[i := value][..last] == front[i := value];
      Regroup(LiveCoins(front[i := value]), tail, CoinAt(i, slots[i]));
      Regroup(LiveCoins(front), tail, CoinAt(i, value));
    } else {
      assert slots[i := value][..last] == slots[..last];
      Regroup(LiveCoins(slots[..last]), CoinAt(i, value), CoinAt(i, slots[i]));
    }
  }

  lemma {:induction false} OneMoreEmpty(slots: seq<SlotValue>)
    ensures LiveCoins(slots + [EMPTY]) == LiveCoins(slots)
  {
    assert (slots + [EMPTY])[..|slots|] == slots;
    assert LiveCoins(slots) + multiset{} == LiveCoins(slots);
  }

  lemma {:induction false} EmptiesSnoc(slots: seq<SlotValue>, n: nat)
    requires n > 0
    ensures slots + Empties(n) == slots + Empties(n - 1) + [EMPTY]
  {
  }

  lemma {:induction false} LiveCoinsEmptyTail(slots: seq<SlotValue>, n: nat)
    ensures LiveCoins(slots + Empties(n)) == LiveCoins(slots)
  {
    if n == 0 {
      assert slots + Empties(0) == slots;
    } else {
      LiveCoinsEmptyTail(slots, n - 1);
      OneMoreEmpty(slots + Empties(n - 1));
      EmptiesSnoc(slots, n);
    }
  }

  lemma {:induction false} LiveCoinIsThere(slots: seq<SlotValue>, i: nat)
    requires i < |slots| && slots[i] != EMPTY
    ensures Coin(i, slots[i]) in LiveCoins(slots)
  {
    if i >= |slots| - 1 {
    } else {
      LiveCoinIsThere(slots[..|slots| - 1], i);
    }
  }

  lemma {:induction false} ExpandToCoins(l: Ledger, target: nat)
    ensures LiveCoins(ExpandTo(l, target).slots) == LiveCoins(l.slots)
    decreases target - l.logSlots
  {
    if target <= l.logSlots {
    } else {
      LiveCoinsEmptyTail(l.slots, |l.slots|);
      ExpandToCoins(l.(slots := Expand(l.slots), logSlots := l.logSlots + 1), target);
    }
  }

  /** Everything a run has done. */
  datatype History = History(minted: seq<Coin>, spent: seq<Coin>, phantoms: nat)

  const NOTHING := History([], [], 0)

  function Record(h: History, alloc: nat, op: Op, height: u64): History
    requires op.Mint? ==> alloc + 1 < COINBASE_TAG
  {
    if op.Mint? then
      h.(minted := h.minted + [Coin(op.slot, MintValue(alloc, op.amount, op.owner, op.primary, height))])
    else if IsPhantom(op) then h.(phantoms := h.phantoms + 1)
    else h.(spent := h.spent + [Coin(op.slot, op.claim)])
  }

  function Id(coin: Coin): nat { coin.value.CreationId() }

  /** Allocator ids count the mints; tagged ids are mint heights, each later than the one before. */
  predicate IdsInOrder(minted: seq<Coin>, height: nat) {
    && (forall k :: 0 <= k < |minted| ==> Id(minted[k]) < COINBASE_TAG ==> Id(minted[k]) == k + 1)
    && (forall k :: 0 <= k < |minted| ==> Id(minted[k]) >= COINBASE_TAG ==> Id(minted[k]) <= COINBASE_TAG + height)
    && (forall i, j :: 0 <= i < j < |minted| && COINBASE_TAG <= Id(minted[i]) && COINBASE_TAG <= Id(minted[j]) ==>
         Id(minted[i]) < Id(minted[j]))
  }

  /** The ledger is the exact balance of its history. */
  predicate Tracks(l: Ledger, h: History, height: nat) {
    && Inv(l)
    && l.alloc == |h.minted|
    && l.active + h.phantoms == Total(LiveSlots, l.slots)
    && multiset(h.minted) == multiset(h.spent) + LiveCoins(l.slots)
    && IdsInOrder(h.minted, height)
  }

  /** The height whose tag the ids may already carry after an operation. */
  predicate MayMint(op: Op, before: nat, after: nat, height: u64) {
    if op.Mint? && op.primary then before < height == after else after == before
  }

  lemma {:induction false} MintedInOrder(minted: seq<Coin>, coin: Coin, before: nat, after: nat)
    requires IdsInOrder(minted, before) && before <= after
    requires Id(coin) == |minted| + 1 < COINBASE_TAG || (Id(coin) == COINBASE_TAG + after && before < after)
    ensures IdsInOrder(minted + [coin], after)
  {
  }

  lemma {:induction false} CoinsAfterSpend(slots: seq<SlotValue>, slot: nat, minted: multiset<Coin>,
                                           spent: multiset<Coin>)
    requires slot < |slots| && minted == spent + LiveCoins(slots)
    ensures minted == spent + CoinAt(slot, slots[slot]) + LiveCoins(slots[slot := EMPTY])
  {
    LiveCoinsUpdate(slots, slot, EMPTY);
    var live, here := LiveCoins(slots[slot := EMPTY]), CoinAt(slot, slots[slot]);
    assert LiveCoins(slots) == live + here by { assert LiveCoins(slots) + multiset{} == LiveCoins(slots); }
    assert spent + (live + here) == spent + here + live;
  }

  lemma {:induction false} CoinsAfterMint(slots: seq<SlotValue>, slot: nat, value: SlotValue, minted: multiset<Coin>,
                                          spent: multiset<Coin>)
    requires slot < |slots| && slots[slot] == EMPTY && value != EMPTY && minted == spent + LiveCoins(slots)
    ensures minted + multiset{Coin(slot, value)} == spent + LiveCoins(slots[slot := value])
  {
    LiveCoinsUpdate(slots, slot, value);
    var live := LiveCoins(slots[slot := value]);
    assert live == LiveCoins(slots) + CoinAt(slot, value) by { assert live + multiset{} == live; }
    assert spent + LiveCoins(slots) + CoinAt(slot, value) == spent + (LiveCoins(slots) + CoinAt(slot, value));
  }

  lemma {:induction false} TrackSpend(l: Ledger, h: History, op: Op, before: nat, height: u64)
    requires Tracks(l, h, before) && op.Spend? && Step(l, op, height).Some?
    ensures Tracks(Step(l, op, height).value, Record(h, l.alloc, op, height), before)
  {
    StepInv(l, op, height);
    CoinsAfterSpend(l.slots, op.slot, multiset(h.minted), multiset(h.spent));
  }

  lemma {:induction false} TrackMint(l: Ledger, h: History, op: Op, before: nat, after: nat, height: u64)
    requires Tracks(l, h, before) && op.Mint? && Step(l, op, height).Some?
    requires MayMint(op, before, after, height) && (op.primary ==> height < COINBASE_TAG)
    ensures Tracks(Step(l, op, height).value, Record(h, l.alloc, op, height), after)
  {
    StepInv(l, op, height);
    var value := MintValue(l.alloc, op.amount, op.owner, op.primary, height);
    CoinsAfterMint(l.slots, op.slot, value, multiset(h.minted), multiset(h.spent));
    MintedInOrder(h.minted, Coin(op.slot, value), before, after);
  }

  function RecordAll(h: History, alloc: nat, ops: seq<Op>, height: u64): History
    requires alloc + Mints(ops) < COINBASE_TAG
  {
    if |ops| == 0 then h
    else
      var front := ops[..|ops| - 1];
      Record(RecordAll(h, alloc, front, height), alloc + Mints(front), ops[|ops| - 1], height)
  }

  lemma {:induction false} TrackFirst(l: Ledger, h: History, op: Op, height: u64)
    requires op.Mint? && op.primary && 0 < height < COINBASE_TAG
    requires Tracks(l, h, height - 1) && Run(l, [op], height).Some?
    ensures l.alloc + Mints([op]) < COINBASE_TAG
    ensures Tracks(Run(l, [op], height).value, RecordAll(h, l.alloc, [op], height), height)
  {
    assert [op][..0] == [];
    TrackMint(l, h, op, height - 1, height, height);
  }

  lemma {:induction false} RecordSnoc(h: History, alloc: nat, front: seq<Op>, op: Op, height: u64)
    requires alloc + Mints(front + [op]) < COINBASE_TAG
    ensures alloc + Mints(front) < COINBASE_TAG && (op.Mint? ==> alloc + Mints(front) + 1 < COINBASE_TAG)
    ensures RecordAll(h, alloc, front + [op], height)
         == Record(RecordAll(h, alloc, front, height), alloc + Mints(front), op, height)
  {
    assert (front + [op])[..|front|] == front;
  }

  lemma {:induction false} TrackSnoc(l: Ledger, h: History, front: seq<Op>, op: Op, height: u64)
    requires l.alloc < COINBASE_TAG && Run(l, front + [op], height).Some? && (op.Mint? ==> !op.primary)
    requires l.alloc + Mints(front) < COINBASE_TAG && Run(l, front, height).Some?
    requires Tracks(Run(l, front, height).value, RecordAll(h, l.alloc, front, height), height)
    ensures l.alloc + Mints(front + [op]) < COINBASE_TAG
    ensures Tracks(Run(l, front + [op], height).value, RecordAll(h, l.alloc, front + [op], height), height)
  {
    SnocParts(l, h, front, op, height);
    TrackOne(Run(l, front, height).value, RecordAll(h, l.alloc, front, height), op, height);
  }

  /** The run and the record, one operation longer. */
  lemma {:induction false} SnocParts(l: Ledger, h: History, front: seq<Op>, op: Op, height: u64)
    requires l.alloc < COINBASE_TAG && Run(l, front, height).Some? && Run(l, front + [op], height).Some?
    requires l.alloc + Mints(front) < COINBASE_TAG
    ensures l.alloc + Mints(front + [op]) < COINBASE_TAG
    ensures var m := Run(l, front, height).value;
            && Run(l, front + [op], height) == Step(m, op, height) && (op.Mint? ==> m.alloc + 1 < COINBASE_TAG)
            && RecordAll(h, l.alloc, front + [op], height)
               == Record(RecordAll(h, l.alloc, front, height), m.alloc, op, height)
  {
    RunAlloc(l, front, height);
    RunAlloc(l, front + [op], height);
    RunSnoc(l, front, op, height);
    RecordSnoc(h, l.alloc, front, op, height);
  }

  lemma {:induction false} RunOne(l: Ledger, op: Op, height: u64)
    ensures Run(l, [op], height) == Step(l, op, height)
  {
    assert [op][..0] == [];
  }

  lemma {:induction false} RunSnoc(l: Ledger, front: seq<Op>, op: Op, height: u64)
    requires Run(l, front, height).Some?
    ensures Run(l, front + [op], height) == Step(Run(l, front, height).value, op, height)
  {
    assert (front + [op])[..|front|] == front;
  }

  /** Tracking follows a block's operations to the end. */
  lemma {:induction false} TrackOps(l: Ledger, h: History, ops: seq<Op>, height: u64)
    requires OnePrimary(ops) && 0 < height < COINBASE_TAG
    requires Tracks(l, h, height - 1) && Run(l, ops, height).Some?
    ensures l.alloc + Mints(ops) < COINBASE_TAG
    ensures Tracks(Run(l, ops, height).value, RecordAll(h, l.alloc, ops, height), height)
  {
    var front, op := ops[..|ops| - 1], ops[|ops| - 1];
    if |ops| == 1 {
      assert ops == [op];
      TrackFirst(l, h, op, height);
    } else {
      TrackOps(l, h, front, height);
      assert ops == front + [op];
      TrackSnoc(l, h, front, op, height);
    }
  }

  lemma {:induction false} TrackOne(m: Ledger, h: History, op: Op, height: u64)
    requires Tracks(m, h, height) && Step(m, op, height).Some? && (op.Mint? ==> !op.primary)
    ensures Tracks(Step(m, op, height).value, Record(h, m.alloc, op, height), height)
  {
    if op.Spend? {
      TrackSpend(m, h, op, height, height);
    } else {
      TrackMint(m, h, op, height, height, height);
    }
  }

  // Runs.

  function Genesis(logSlots: nat): Ledger {
    Ledger(Empties(Pow2(logSlots)), logSlots, 0, 0, 0)
  }

  /** Blocks at heights 1, 2, 3, ... applied to genesis. */
  function Execute(logSlots: nat, blocks: seq<Block>): Option<Ledger> {
    if |blocks| == 0 then Some(Genesis(logSlots))
    else match Execute(logSlots, blocks[..|blocks| - 1])
      case None => None
      case Some(l) =>
        var block := blocks[|blocks| - 1];
        if block.header.height == |blocks| && ApplyBlock(l, block).Ok? then Some(ApplyBlock(l, block).value) else None
  }

  /** What the blocks minted and spent, read off their operations. */
  function HistoryOf(blocks: seq<Block>): (h: Option<History>)
  {
    if |blocks| == 0 then Some(NOTHING)
    else match HistoryOf(blocks[..|blocks| - 1])
      case None => None
      case Some(h) =>
        var block := blocks[|blocks| - 1];
        var ops := BlockOps(block.transactions);
        if |h.minted| + Mints(ops) < COINBASE_TAG then Some(RecordAll(h, |h.minted|, ops, block.header.height))
        else None
  }

  lemma {:induction false} GenesisTracks(logSlots: nat)
    ensures Tracks(Genesis(logSlots), NOTHING, 0)
  {
    assert [] + Empties(Pow2(logSlots)) == Empties(Pow2(logSlots));
    TotalEmptyTail(Money, [], Pow2(logSlots));
    TotalEmptyTail(LiveSlots, [], Pow2(logSlots));
    LiveCoinsEmptyTail([], Pow2(logSlots));
  }

  lemma {:induction false} ExpandedTracks(l: Ledger, h: History, height: nat, target: nat)
    requires Tracks(l, h, height)
    ensures Tracks(ExpandTo(l, target), h, height)
  {
    ExpandToKeeps(l, target);
    ExpandToCoins(l, target);
  }

  lemma {:induction false} TrackBlock(l: Ledger, h: History, block: Block)
    requires 0 < block.header.height <= l.alloc + 1
    requires Tracks(l, h, block.header.height - 1) && ApplyBlock(l, block).Ok?
    ensures l.alloc + Mints(BlockOps(block.transactions)) < COINBASE_TAG
    ensures Tracks(ApplyBlock(l, block).value,
                   RecordAll(h, l.alloc, BlockOps(block.transactions), block.header.height), block.header.height)
    ensures l.alloc < ApplyBlock(l, block).value.alloc
  {
    var header, ops := block.header, BlockOps(block.transactions);
    var parent := ExpandTo(l, header.logSlots);
    BlockIsRun(l, block);
    BlockHasOnePrimary(block.transactions);
    ExpandedTracks(l, h, header.height - 1, header.logSlots);
    RunAlloc(parent, ops, header.height);
    FirstMintCounts(ops);
    TrackOps(parent, h, ops, header.height);
  }

  /** On every run of accepted blocks, every counter, every id and every coin balances. */
  lemma {:induction false} ChainInvariant(logSlots: nat, blocks: seq<Block>)
    requires Execute(logSlots, blocks).Some?
    ensures HistoryOf(blocks).Some?
    ensures Tracks(Execute(logSlots, blocks).value, HistoryOf(blocks).value, |blocks|)
    ensures |blocks| <= Execute(logSlots, blocks).value.alloc
  {
    if |blocks| == 0 {
      GenesisTracks(logSlots);
    } else {
      var front, block := blocks[..|blocks| - 1], blocks[|blocks| - 1];
      ChainInvariant(logSlots, front);
      TrackBlock(Execute(logSlots, front).value, HistoryOf(front).value, block);
    }
  }

  /** No creation id is issued twice. */
  lemma {:induction false} IdsNeverRepeat(logSlots: nat, blocks: seq<Block>, i: nat, j: nat)
    requires Execute(logSlots, blocks).Some?
    ensures HistoryOf(blocks).Some?
    ensures i < j < |HistoryOf(blocks).value.minted| ==>
              Id(HistoryOf(blocks).value.minted[i]) != Id(HistoryOf(blocks).value.minted[j])
  {
    ChainInvariant(logSlots, blocks);
  }

  lemma {:induction false} TwiceMeansTwoPlaces(s: seq<Coin>, coin: Coin)
    requires multiset(s)[coin] >= 2
    ensures exists i, j :: 0 <= i < j < |s| && s[i] == s[j] == coin
  {
    var front, last := s[..|s| - 1], s[|s| - 1];
    assert s == front + [last];
    if multiset(front)[coin] >= 2 {
      TwiceMeansTwoPlaces(front, coin);
      var i, j :| 0 <= i < j < |front| && front[i] == front[j] == coin;
      assert s[i] == s[j] == coin;
    } else {
      assert last == coin && coin in front;
      var i :| 0 <= i < |front| && front[i] == coin;
      assert s[i] == s[|s| - 1] == coin;
    }
  }

  lemma {:induction false} MintedOnce(logSlots: nat, blocks: seq<Block>, coin: Coin)
    requires Execute(logSlots, blocks).Some?
    ensures HistoryOf(blocks).Some? && multiset(HistoryOf(blocks).value.minted)[coin] <= 1
  {
    ChainInvariant(logSlots, blocks);
    var minted := HistoryOf(blocks).value.minted;
    if multiset(minted)[coin] >= 2 {
      TwiceMeansTwoPlaces(minted, coin);
      var i, j :| 0 <= i < j < |minted| && minted[i] == minted[j] == coin;
      IdsNeverRepeat(logSlots, blocks, i, j);
    }
  }

  lemma {:induction false} TwoPlacesMeanTwice(s: seq<Coin>, i: nat, j: nat)
    requires i < j < |s| && s[i] == s[j]
    ensures multiset(s)[s[i]] >= 2
  {
    assert s == s[..j] + [s[j]] + s[j + 1..];
    assert s[i] in s[..j];
  }

  /** A coin is spent at most once, and once spent is never live again: a reused slot never holds
      an old incarnation. */
  lemma {:induction false} NoDoubleSpend(logSlots: nat, blocks: seq<Block>)
    requires Execute(logSlots, blocks).Some?
    ensures HistoryOf(blocks).Some?
    ensures var spent := HistoryOf(blocks).value.spent;
            forall i, j :: 0 <= i < j < |spent| ==> spent[i] != spent[j]
    ensures var spent, slots := HistoryOf(blocks).value.spent, Execute(logSlots, blocks).value.slots;
            forall i :: 0 <= i < |spent| ==> SlotAt(slots, spent[i].slot) != spent[i].value
  {
    ChainInvariant(logSlots, blocks);
    var h, slots := HistoryOf(blocks).value, Execute(logSlots, blocks).value.slots;
    forall i, j | 0 <= i < j < |h.spent|
      ensures h.spent[i] != h.spent[j]
    {
      if h.spent[i] == h.spent[j] {
        TwoPlacesMeanTwice(h.spent, i, j);
        MintedOnce(logSlots, blocks, h.spent[i]);
      }
    }
    forall i | 0 <= i < |h.spent|
      ensures SlotAt(slots, h.spent[i].slot) != h.spent[i].value
    {
      SpentIsGone(logSlots, blocks, i);
    }
  }

  lemma {:induction false} SpentIsGone(logSlots: nat, blocks: seq<Block>, i: nat)
    requires Execute(logSlots, blocks).Some?
    ensures HistoryOf(blocks).Some?
    ensures i < |HistoryOf(blocks).value.spent| ==>
              var coin := HistoryOf(blocks).value.spent[i];
              SlotAt(Execute(logSlots, blocks).value.slots, coin.slot) != coin.value
  {
    ChainInvariant(logSlots, blocks);
    var h, slots := HistoryOf(blocks).value, Execute(logSlots, blocks).value.slots;
    if i < |h.spent| {
      var coin := h.spent[i];
      MintedOnce(logSlots, blocks, coin);
      assert coin in multiset(h.spent);
      assert coin !in LiveCoins(slots);
      SpentNotEmpty(blocks, i);
      if coin.slot < |slots| && slots[coin.slot] == coin.value {
        LiveCoinIsThere(slots, coin.slot);
      }
    }
  }

  lemma {:induction false} RecordKeepsSpent(h: History, alloc: nat, ops: seq<Op>, height: u64)
    requires alloc + Mints(ops) < COINBASE_TAG
    requires forall i :: 0 <= i < |h.spent| ==> h.spent[i].value != EMPTY
    ensures forall i :: 0 <= i < |RecordAll(h, alloc, ops, height).spent| ==>
              RecordAll(h, alloc, ops, height).spent[i].value != EMPTY
  {
    if |ops| == 0 {
    } else {
      RecordKeepsSpent(h, alloc, ops[..|ops| - 1], height);
    }
  }

  lemma {:induction false} SpentNotEmpty(blocks: seq<Block>, i: nat)
    requires HistoryOf(blocks).Some? && i < |HistoryOf(blocks).value.spent|
    ensures HistoryOf(blocks).value.spent[i].value != EMPTY
  {
    AllSpentNotEmpty(blocks);
  }

  lemma {:induction false} AllSpentNotEmpty(blocks: seq<Block>)
    requires HistoryOf(blocks).Some?
    ensures forall i :: 0 <= i < |HistoryOf(blocks).value.spent| ==> HistoryOf(blocks).value.spent[i].value != EMPTY
  {
    if |blocks| == 0 {
    } else {
      var front, block := blocks[..|blocks| - 1], blocks[|blocks| - 1];
      AllSpentNotEmpty(front);
      var h := HistoryOf(front).value;
      RecordKeepsSpent(h, |h.minted|, BlockOps(block.transactions), block.header.height);
    }
  }
}
