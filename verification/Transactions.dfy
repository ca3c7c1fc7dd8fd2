/** Fixed 8-input, 2-output transaction bodies: liveness, canonical form, paged spends and the page
    stream of a block. */
module Transactions {
  import opened Powers
  import opened Types
  import opened TxHash

  predicate Bit(bitmap: nat, i: nat) {
    Shr(bitmap, i) % 2 == 1
  }

  const PRIMARY_BITMAP: nat := 0x100
  const PAYOUT_BITMAP: nat := 0x300
  const START_BIT: nat := 10
  const END_BIT: nat := 11
  const TX_BITMAP_LIMIT: nat := 0x400
  const PAGE_BITMAP_LIMIT: nat := 0x1000

  predicate InputIsLive<D>(body: TxBody<D>, i: nat) {
    i < TX_INPUTS && Bit(body.validityBitmap, i)
  }

  predicate OutputIsLive<D>(body: TxBody<D>, i: nat) {
    i < TX_OUTPUTS && Bit(body.validityBitmap, TX_INPUTS + i)
  }

  function LiveInputsFrom<D>(body: TxBody<D>, i: nat): seq<TxInput>
    decreases |body.inputs| - i
  {
    if i >= |body.inputs| then []
    else (if InputIsLive(body, i) then [body.inputs[i]] else []) + LiveInputsFrom(body, i + 1)
  }

  function LiveOutputsFrom<D>(body: TxBody<D>, i: nat): seq<TxOutput>
    decreases |body.outputs| - i
  {
    if i >= |body.outputs| then []
    else (if OutputIsLive(body, i) then [body.outputs[i]] else []) + LiveOutputsFrom(body, i + 1)
  }

  function LiveInputs<D>(body: TxBody<D>): seq<TxInput> {
    LiveInputsFrom(body, 0)
  }

  function LiveOutputs<D>(body: TxBody<D>): seq<TxOutput> {
    LiveOutputsFrom(body, 0)
  }

  predicate IsPrimaryCoinbase<D>(body: TxBody<D>) {
    body.isCoinbase && body.validityBitmap == PRIMARY_BITMAP
  }

  predicate IsDevelopmentPayout<D>(body: TxBody<D>) {
    body.isCoinbase && body.validityBitmap == PAYOUT_BITMAP
  }

  predicate Distinct(s: seq<nat>) {
    forall i, j :: 0 <= i < j < |s| ==> s[i] != s[j]
  }

  function InputSlots(inputs: seq<TxInput>): seq<nat> {
    seq(|inputs|, i requires 0 <= i < |inputs| => inputs[i].slotIndex)
  }

  function OutputSlots(outputs: seq<TxOutput>): seq<nat> {
    seq(|outputs|, i requires 0 <= i < |outputs| => outputs[i].slotIndex)
  }

  /** The slots a body touches: its live inputs, then its live outputs. */
  function BodySlots<D>(body: TxBody<D>): seq<nat> {
    InputSlots(LiveInputs(body)) + OutputSlots(LiveOutputs(body))
  }

  function InputSum(inputs: seq<TxInput>): nat {
    if |inputs| == 0 then 0 else inputs[0].amount + InputSum(inputs[1..])
  }

  function OutputSum(outputs: seq<TxOutput>): nat {
    if |outputs| == 0 then 0 else outputs[0].amount + OutputSum(outputs[1..])
  }

  predicate DeadRecordsZero<D>(body: TxBody<D>) {
    && (forall i :: 0 <= i < |body.inputs| && !InputIsLive(body, i) ==> body.inputs[i] == DUMMY_INPUT)
    && (forall i :: 0 <= i < |body.outputs| && !OutputIsLive(body, i) ==> body.outputs[i] == DUMMY_OUTPUT)
  }

  /** `validate_body_semantics_no_hash`. */
  predicate CanonicalBody<D>(body: TxBody<D>) {
    && body.validityBitmap < TX_BITMAP_LIMIT
    && DeadRecordsZero(body)
    && Distinct(BodySlots(body))
    && if body.isCoinbase then
         body.inputOwner == ZERO_WORD && body.fee == 0 && (IsPrimaryCoinbase(body) || IsDevelopmentPayout(body))
       else
         |LiveInputs(body)| > 0 && InputSum(LiveInputs(body)) == OutputSum(LiveOutputs(body)) + body.fee
  }

  /** `validate_page_shape`. */
  predicate PageShape<D>(body: TxBody<D>) {
    body.validityBitmap < PAGE_BITMAP_LIMIT && !body.isCoinbase && DeadRecordsZero(body)
  }

  predicate IsStart<D>(body: TxBody<D>) { Bit(body.validityBitmap, START_BIT) }

  predicate IsEnd<D>(body: TxBody<D>) { Bit(body.validityBitmap, END_BIT) }

  // Paged spends: one atomic transaction over a run of pages.

  const MAX_PAGED_SPEND_PAGES: nat := 128
  const MAX_PAGED_SPEND_INPUTS: nat := 1020
  const MAX_PAGED_SPEND_OUTPUTS: nat := 256

  function PageInputs<D>(pages: seq<TxBody<D>>): seq<TxInput> {
    if |pages| == 0 then [] else LiveInputs(pages[0]) + PageInputs(pages[1..])
  }

  function PageOutputs<D>(pages: seq<TxBody<D>>): seq<TxOutput> {
    if |pages| == 0 then [] else LiveOutputs(pages[0]) + PageOutputs(pages[1..])
  }

  function LiveInputFlags<D>(pages: seq<TxBody<D>>): seq<bool> {
    if |pages| == 0 then []
    else seq(TX_INPUTS, i requires 0 <= i < TX_INPUTS => InputIsLive(pages[0], i)) + LiveInputFlags(pages[1..])
  }

  function LiveOutputFlags<D>(pages: seq<TxBody<D>>): seq<bool> {
    if |pages| == 0 then []
    else seq(TX_OUTPUTS, i requires 0 <= i < TX_OUTPUTS => OutputIsLive(pages[0], i)) + LiveOutputFlags(pages[1..])
  }

  /** No live record follows a dead one. */
  predicate Dense(flags: seq<bool>) {
    forall i, j :: 0 <= i < j < |flags| && flags[j] ==> flags[i]
  }

  function CeilDiv(n: nat, d: nat): nat
    requires d > 0
  {
    (n + d - 1) / d
  }

  function Max(a: nat, b: nat): nat { if a < b then b else a }

  /** `validate_paged_spend`, as a predicate. */
  predicate PagedSpendOk<D(==)>(pages: seq<TxBody<D>>) {
    && 1 <= |pages| <= MAX_PAGED_SPEND_PAGES
    && (forall p :: 0 <= p < |pages| ==> PageShape(pages[p]))
    && (forall p :: 0 <= p < |pages| ==> (IsStart(pages[p]) <==> p == 0))
    && (forall p :: 0 <= p < |pages| ==> (IsEnd(pages[p]) <==> p == |pages| - 1))
    && (forall p :: 0 <= p < |pages| ==> pages[p].inputOwner == pages[0].inputOwner)
    && (forall p :: 0 <= p < |pages| ==> pages[p].epochAnchor == pages[0].epochAnchor)
    && (forall p :: 0 < p < |pages| ==> pages[p].fee == 0)
    && Dense(LiveInputFlags(pages)) && Dense(LiveOutputFlags(pages))
    && 1 <= |PageInputs(pages)| <= MAX_PAGED_SPEND_INPUTS
    && |PageOutputs(pages)| <= MAX_PAGED_SPEND_OUTPUTS
    && Distinct(InputSlots(PageInputs(pages)) + OutputSlots(PageOutputs(pages)))
    && |pages| == Max(1, Max(CeilDiv(|PageInputs(pages)|, TX_INPUTS), CeilDiv(|PageOutputs(pages)|, TX_OUTPUTS)))
    && InputSum(PageInputs(pages)) == OutputSum(PageOutputs(pages)) + pages[0].fee
  }

  /** Length of the first `START..END` group of a stream. */
  function FirstGroup<D>(pages: seq<TxBody<D>>): (n: Option<nat>)
    ensures n.Some? ==> 1 <= n.value <= |pages|
  {
    if |pages| == 0 then None
    else if IsEnd(pages[0]) then Some(1)
    else match FirstGroup(pages[1..])
      case None => None
      case Some(n) => Some(n + 1)
  }

  /** The stream cut into valid groups, or nothing. */
  function Groups<D(==)>(pages: seq<TxBody<D>>): (groups: Option<seq<seq<TxBody<D>>>>)
    decreases |pages|
  {
    if |pages| == 0 then Some([])
    else match FirstGroup(pages)
      case None => None
      case Some(n) =>
        if !PagedSpendOk(pages[..n]) then None
        else match Groups(pages[n..])
          case None => None
          case Some(rest) => Some([pages[..n]] + rest)
  }

  function Flatten<T>(groups: seq<seq<T>>): seq<T> {
    if |groups| == 0 then [] else groups[0] + Flatten(groups[1..])
  }

  /** The groups are the stream: nothing dropped, nothing reordered. */
  lemma {:induction false} GroupsPartition<D>(pages: seq<TxBody<D>>)
    requires Groups(pages).Some?
    ensures Flatten(Groups(pages).value) == pages
    ensures forall g :: 0 <= g < |Groups(pages).value| ==> PagedSpendOk(Groups(pages).value[g])
    ensures |Groups(pages).value| <= |pages|
    decreases |pages|
  {
    if |pages| == 0 {
    } else {
      var n := FirstGroup(pages).value;
      GroupsPartition(pages[n..]);
      assert pages == pages[..n] + pages[n..];
      var groups, rest := Groups(pages).value, Groups(pages[n..]).value;
      assert groups[0] == pages[..n] && groups[1..] == rest;
    }
  }

  // The block's page stream.

  const BLOCK_MAX_TXS: nat := 256
  const BLOCK_MAX_USER_PAGES: nat := 255
  const BLOCK_MAX_LIVE_INPUTS: nat := 1020
  const BLOCK_MAX_USER_OUTPUTS: nat := 510

  datatype Generation = V1 | V1_3 | V1_5 | V1_6

  function SmallTier(generation: Generation): nat {
    if generation.V1? then 25 else 24
  }

  datatype ProofClass = B25 | B255

  function ClassFor(pages: nat, generation: Generation): Option<ProofClass> {
    if pages <= SmallTier(generation) then Some(B25)
    else if pages <= BLOCK_MAX_USER_PAGES then Some(B255)
    else None
  }

  function InputCapacity(proofClass: ProofClass, generation: Generation): nat {
    match proofClass
    case B25 => SmallTier(generation) * TX_INPUTS
    case B255 => BLOCK_MAX_LIVE_INPUTS
  }

  function OutputCapacity(proofClass: ProofClass, generation: Generation): nat {
    match proofClass
    case B25 => SmallTier(generation) * TX_OUTPUTS
    case B255 => BLOCK_MAX_USER_OUTPUTS
  }

  datatype PagedSpendStreamError =
    | BlockPageLimit(actual: nat, capacity: nat)
    | InvalidGroup
    | BlockInputLimit
    | BlockOutputLimit
    | SlotReuse

  datatype PageStreamError =
    | MissingCoinbase
    | CoinbaseNotFirst
    | InvalidPrimaryCoinbase
    | MultipleCoinbase
    | InvalidDevelopmentPayout
    | PagedSpend(error: PagedSpendStreamError)

  datatype StreamFacts = StreamFacts(
    proofClass: ProofClass,
    groups: seq<seq<TxBody<Digest>>>,
    pageCount: nat,
    liveInputs: nat,
    liveOutputs: nat,
    hasDevelopmentPayout: bool)
  {
    function SystemRecords(): nat { if hasDevelopmentPayout then 1 else 0 }
    function UserStart(): nat { 1 + SystemRecords() }
    function UserLogicalIndex(group: nat): nat { 1 + SystemRecords() + group }
    function LogicalCount(): nat { 1 + SystemRecords() + |groups| }
  }

  /** `validate_paged_spend_transaction_stream_in`: the groups of a user stream. */
  function UserStream(pages: seq<TxBody<Digest>>, generation: Generation)
    : Result<seq<seq<TxBody<Digest>>>, PagedSpendStreamError>
  {
    match ClassFor(|pages|, generation)
    case None => Err(BlockPageLimit(|pages|, BLOCK_MAX_USER_PAGES))
    case Some(proofClass) =>
      var groups := Groups(pages);
      if groups.None? then Err(InvalidGroup)
      else if |PageInputs(pages)| > InputCapacity(proofClass, generation) then Err(BlockInputLimit)
      else if |PageOutputs(pages)| > OutputCapacity(proofClass, generation) then Err(BlockOutputLimit)
      else if !Distinct(InputSlots(PageInputs(pages)) + OutputSlots(PageOutputs(pages))) then Err(SlotReuse)
      else Ok(groups.value)
  }

  predicate HasPayout(txs: seq<Body>) {
    |txs| > 1 && IsDevelopmentPayout(txs[1])
  }

  function UserStart(txs: seq<Body>): nat {
    if HasPayout(txs) then 2 else 1
  }

  /** `validate_block_page_stream_in`. */
  function PageStream(txs: seq<Body>, generation: Generation): Result<StreamFacts, PageStreamError> {
    if |txs| == 0 then Err(MissingCoinbase)
    else if !txs[0].isCoinbase then Err(CoinbaseNotFirst)
    else if !IsPrimaryCoinbase(txs[0]) then Err(InvalidPrimaryCoinbase)
    else if exists i :: UserStart(txs) <= i < |txs| && txs[i].isCoinbase then Err(MultipleCoinbase)
    else if |txs| > 1 && txs[1].isCoinbase && !IsDevelopmentPayout(txs[1]) then Err(InvalidDevelopmentPayout)
    else
      var pages := txs[UserStart(txs)..];
      match UserStream(pages, generation)
      case Err(error) => Err(PagedSpend(error))
      case Ok(groups) =>
        var effective := |pages| + UserStart(txs) - 1;
        match ClassFor(effective, generation)
        case None => Err(PagedSpend(BlockPageLimit(effective, BLOCK_MAX_USER_PAGES)))
        case Some(proofClass) =>
          Ok(StreamFacts(proofClass, groups, |pages|, |PageInputs(pages)|, |PageOutputs(pages)|, HasPayout(txs)))
  }

  lemma {:induction false} DeadInputs<D>(body: TxBody<D>, i: nat)
    requires |body.inputs| == TX_INPUTS && forall k :: i <= k < TX_INPUTS ==> !InputIsLive(body, k)
    ensures LiveInputsFrom(body, i) == []
    decreases TX_INPUTS - i
  {
    if i >= TX_INPUTS {
    } else {
      DeadInputs(body, i + 1);
    }
  }

  lemma {:induction false} LiveCounts<D>(body: TxBody<D>, i: nat)
    requires FixedShape(body)
    ensures i <= TX_INPUTS ==> |LiveInputsFrom(body, i)| <= TX_INPUTS - i
    ensures i <= TX_OUTPUTS ==> |LiveOutputsFrom(body, i)| <= TX_OUTPUTS - i
    decreases TX_INPUTS - i
  {
    if i >= TX_INPUTS {
    } else {
      LiveCounts(body, i + 1);
    }
  }

  /** Pages bound live records: eight inputs and two outputs each. */
  lemma {:induction false} PagesBoundRecords(pages: seq<Body>)
    ensures |PageInputs(pages)| <= TX_INPUTS * |pages|
    ensures |PageOutputs(pages)| <= TX_OUTPUTS * |pages|
  {
    if |pages| == 0 {
    } else {
      LiveCounts(pages[0], 0);
      PagesBoundRecords(pages[1..]);
    }
  }

  lemma {:induction false} UserStreamGenerations(pages: seq<Body>, a: Generation, b: Generation)
    ensures UserStream(pages, a) == UserStream(pages, b)
  {
    PagesBoundRecords(pages);
  }

  lemma {:induction false} ClassesDiffer(n: int, a: Generation, b: Generation)
    requires n >= 0
    ensures ClassFor(n, a).None? <==> ClassFor(n, b).None?
    ensures ClassFor(n, a) != ClassFor(n, b) ==> n == 25
  {
  }

  /** The pack generation changes no verdict, no error and no fact except the proof class; the
      classes differ only for a stream of exactly 25 effective pages. */
  lemma {:induction false} GenerationChangesOnlyTheClass(txs: seq<Body>, a: Generation, b: Generation)
    ensures PageStream(txs, a).Ok? <==> PageStream(txs, b).Ok?
    ensures PageStream(txs, a).Err? ==> PageStream(txs, a) == PageStream(txs, b)
    ensures PageStream(txs, a).Ok? ==>
              PageStream(txs, a).value == PageStream(txs, b).value.(proofClass := PageStream(txs, a).value.proofClass)
    ensures PageStream(txs, a).Ok? && PageStream(txs, a) != PageStream(txs, b) ==>
              PageStream(txs, a).value.pageCount + PageStream(txs, a).value.SystemRecords() == 25
  {
    if UserStart(txs) <= |txs| {
      UserStreamGenerations(txs[UserStart(txs)..], a, b);
      ClassesDiffer(|txs| - 1, a, b);
    }
  }

  /** A coinbase body in second place that is not a payout is already a second coinbase. */
  lemma {:induction false} PayoutErrorUnreachable(txs: seq<Body>, generation: Generation)
    ensures PageStream(txs, generation) != Err(InvalidDevelopmentPayout)
    ensures PageStream(txs, generation).Ok? ==> forall i :: UserStart(txs) <= i < |txs| ==> !txs[i].isCoinbase
  {
    if |txs| > 1 && txs[1].isCoinbase && !IsDevelopmentPayout(txs[1]) {
      assert UserStart(txs) <= 1 < |txs|;
    }
  }

  // Logical transaction ids.

  /** `try_compute_logical_txids`: system records first, then one id per group. */
  function LogicalTxids(txs: seq<Body>): Result<seq<Digest>, PageStreamError> {
    if |txs| == 0 then Ok([])
    else match PageStream(txs, V1)
      case Err(error) => Err(error)
      case Ok(facts) =>
        var groups := facts.groups;
        Ok([HashTxBody(txs[0])] + (if HasPayout(txs) then [HashTxBody(txs[1])] else [])
           + seq(|groups|, g requires 0 <= g < |groups| => HashPagedSpend(groups[g])))
  }

  /** The system records come first: the coinbase at position zero, the payout after it. */
  lemma {:induction false} SystemSitsFirst(txs: seq<Body>, k: nat)
    requires PageStream(txs, V1).Ok? && k < UserStart(txs)
    ensures LogicalTxids(txs).Ok? && k < |txs| && k < |LogicalTxids(txs).value|
    ensures LogicalTxids(txs).value[k] == HashTxBody(txs[k])
    ensures |LogicalTxids(txs).value| == UserStart(txs) + |PageStream(txs, V1).value.groups|
  {
  }

  /** Every group's id sits at its `user_logical_index`, and nothing else is listed. */
  lemma {:induction false} GroupSitsAtLogicalIndex(txs: seq<Body>, g: nat)
    requires PageStream(txs, V1).Ok? && g < |PageStream(txs, V1).value.groups|
    ensures LogicalTxids(txs).Ok?
    ensures var facts, ids := PageStream(txs, V1).value, LogicalTxids(txs).value;
            && |ids| == facts.LogicalCount()
            && ids[facts.UserLogicalIndex(g)] == HashPagedSpend(facts.groups[g])
  {
  }

  // Slot conflicts across a block.

  function BlockSlots(txs: seq<Body>): seq<nat> {
    if |txs| == 0 then []
    else BlockSlots(txs[..|txs| - 1]) + BodySlots(txs[|txs| - 1])
  }

  /** Insert the slots in order; fail on the first that is already there. */
  method InsertAll(slots: seq<nat>, touched: set<nat>, ghost before: seq<nat>) returns (ok: bool, after: set<nat>)
    requires Distinct(before) && touched == set s | s in before
    ensures ok <==> Distinct(before + slots)
    ensures ok ==> after == set s | s in before + slots
  {
    after := touched;
    for k := 0 to |slots|
      invariant Distinct(before + slots[..k])
      invariant after == set s | s in before + slots[..k]
    {
      var sofar := before + slots[..k];
      if slots[k] in after {
        ghost var i :| 0 <= i < |sofar| && sofar[i] == slots[k];
        assert (before + slots)[i] == (before + slots)[|before| + k];
        return false, after;
      }
      after := after + {slots[k]};
      assert before + slots[..k + 1] == sofar + [slots[k]];
    }
    assert before + slots[..|slots|] == before + slots;
    ok := true;
  }

  /** `validate_block_slot_conflicts`. */
  method ValidateBlockSlotConflicts(txs: seq<Body>) returns (ok: bool)
    ensures ok <==> Distinct(BlockSlots(txs))
  {
    var touched: set<nat> := {};
    for k := 0 to |txs|
      invariant Distinct(BlockSlots(txs[..k]))
      invariant touched == set s | s in BlockSlots(txs[..k])
    {
      assert txs[..k + 1][..k] == txs[..k];
      ok, touched := InsertAll(BodySlots(txs[k]), touched, BlockSlots(txs[..k]));
      if !ok {
        ConflictPersists(txs, k + 1);
        return;
      }
    }
    assert txs[..|txs|] == txs;
    ok := true;
  }

  lemma {:induction false} ConflictPersists(txs: seq<Body>, k: nat)
    requires k <= |txs| && !Distinct(BlockSlots(txs[..k]))
    ensures !Distinct(BlockSlots(txs))
    decreases |txs| - k
  {
    if k < |txs| {
      assert txs[..k + 1][..k] == txs[..k];
      var short, long := BlockSlots(txs[..k]), BlockSlots(txs[..k + 1]);
      var i, j :| 0 <= i < j < |short| && short[i] == short[j];
      assert long[i] == long[j];
      ConflictPersists(txs, k + 1);
    } else {
      assert txs[..k] == txs;
    }
  }
}
