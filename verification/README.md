# Jetsam chain state in Dafny

A Dafny 4.11 model of the chain-state core of Jetsam, a UTXO chain whose coins live in the numbered
slots of one vector, and proofs about it. `dafny verify dfyconfig.toml` checks the whole project.

What the system does, and which files say it:

- **Ledger.** A block spends and mints coins in slots. `Ledger` and `TxOperations` give the
  transaction step and its meaning as single-slot operations; `BlockLedger` gives the checked and the
  blind block interpreter on values; `TxInterpreter` and `BlockInterpreter` are the two interpreters
  as the code runs them, on a mutable `ChainState` cloned and replaced; `BlockEffect` reads a committed
  block's effect off its transactions; `Pagination` says what its body is. `ChainRuns`, `ChainMoney` and
  `PhantomSpend` are about whole runs from genesis.
- **Ids.** `HeaderHash` and `TxHash` list what the header and transaction hashes absorb and prove what
  each id binds.
- **Exact state root.** `Merkle`, `ExactState`, `StreamingRoot`, `SegmentRoots`, `SegmentedState` and
  `ChainEngine` build the header's state commitment: the streaming accumulator, the heap of segment
  roots, the segmented slot storage with its dirty marks, and domain expansion.
- **Witness.** `Frontier`, `FrontierPlan`, `FrontierSoundness`, `StateDelta` and `HistoryStepWitness`
  recompute the same transition from a sparse frontier of siblings and agree with the interpreter;
  `DeepExpansion` shows a block where they do not.
- **Commitments.** `TxTree` and `LogicalTree` are the count-bound transaction tree; `HeaderAnchor`
  and `EpochAnchor` the header chain and the transaction epochs.
- **Columns.** `FriState` and `Multilinear` are the raw column state and its multilinear evaluation;
  `SegmentCap` reduces the cap of a column commitment to a segment root.
- **Codecs.** `Wire`, `RecordWire`, `BlockWire`, `AcceptedBlockBundle` and `BlockCodec` are the
  header, body, block, terminal-prefix and bundle encodings, as functions and as buffer and cursor
  code.
- **Fixture chain.** `Fixture`, `FixtureRuns` and `FixtureProvider` are the slot allocator, the coin
  tracking and the seven-block walk of the benchmark chain.

Digests are free terms: two are equal exactly when the same hash was applied to equal inputs. On the
wire a digest is an opaque 256-bit word; where a terminal must carry the bytes of an id, the map from
digests to words is a parameter about which nothing is assumed. A sponge is a term over its tag and
the list of lanes it absorbs, a digest entering as two halves; that a header, body or paged-spend id
binds its fields is proved from those lists. Field arithmetic is any commutative ring of
characteristic two. Integers are unbounded, and every width, checked operation and saturation of the
code is written out. Epoch length, tree depth and activation heights are parameters.

## What the proofs found

- An input whose claim is the empty value (amount, id and owner all zero) matches an empty slot. The
  interpreter accepts it and decrements `active_slot_count`, although the documentation of the spend
  action says its old value is not empty (jetsam_chain/src/state_delta.rs:32). The counter is exact on
  a run if and only if the run has no such input (`ChainMoney.ActiveCountExact`). Interpreter and
  witness builder part exactly where the spends of a committed block exceed the parent counter or its
  depth step is not one the builder supports (`HistoryStepWitness.WitnessAgrees`); the first happens
  on the block of `PhantomSpend.PhantomBlockHasNoWitness`, and cannot happen on runs and blocks
  without empty claims (`HistoryStepWitness.WitnessAgreesOnRuns`); the second on every block more than
  one level deeper (`DeepExpansion.DeepBlockHasNoWitness`). Fee, epoch-anchor, expansion and
  authorization rules are checked outside `apply_block`; an authorization for the zero address would
  still have to be proved for such a page.
- The streaming root builder takes a leaf at position `2^depth`, one past its last slot: the range test
  is that of the gap before the leaf. Only the finish notices (`StreamingSparseRoot.PushLeaf`,
  `Finish`). A stream as a whole is still refused (`StreamingRoot.StreamRoot`), but not by the call
  whose error the storage layer reports as out of range.
- The lane for the older epoch anchor is right after a plain advance from the one-anchor relation
  only at an epoch edge or in the first epoch (`EpochAnchor.CrossingIsExactAtEdges`). The code starts
  the two-anchor recursion from a boundary read off canonical headers, where the closed form holds.
- `MAX_BLOCK_BYTES` counts no client objects, so a block of `n` transactions is refused exactly when its
  object section is longer than `323 * (256 - n)` bytes (`AcceptedBlockBundle.TooLargeExactly`), and a
  full block carries none.
- Two errors cannot be returned: the invalid development payout, because the duplicate-coinbase check
  comes first, and coinbase-has-inputs, because the stream fixes the shape of system records.
- The odd-layer pad of `cap_to_seg_root` copies a 17-byte label into 16 bytes, so the function completes
  exactly on a power of two of hashes (`SegmentCap.CompletesOnPowersOfTwo`). The 33 hashes its
  documentation describes have no root (`DocumentedCapStops`); the 64 hashes the commitment builds at
  every depth do (`BuiltCapsComplete`).
- The fixture schedule is short of coins exactly at its sixth step and exactly for small tiers above 31
  (`FixtureProvider.ScheduleNeverShort`); the tiers in use are 24 and 25.

Where comments and code differ, the model follows the code: the field table at the top of
jetsam_chain/src/consensus/pow.rs puts the nonce after the miner address, the schedule emits it first.

## Model

| member | source | states |
|---|---|---|
| `Ledger.SimultaneousRuns` | jetsam_chain/src/state.rs:1037-1124 | operations on pairwise distinct slots can be run one after another if and only if the parent already holds what each one expects and the counters allow it; the slots reached are then the parent with the batch of all writes |
| `Ledger.StepInv` | jetsam_chain/src/state.rs:1057-1124 | one spend or mint keeps supply = sum of live amounts and never lets the occupancy counter pass the number of live slots; the gap between the two grows by one exactly when the spend claimed an empty slot |
| `Ledger.SupplyExact` | jetsam_chain/src/state.rs:544-571 | while the supply is the sum of the live amounts, folding a batch slot by slot in slot order never fails and gives the sum of the live amounts after the batch |
| `TxOperations.TxIsRun` | jetsam_chain/src/state.rs:1031-1145 | the transaction step accepts a body if and only if its slots are distinct and its spends, then its mints, run one by one, and it reaches the same ledger; its supply and occupancy-overflow errors cannot arise from a state that satisfies the invariant |
| `TxInterpreter.SupplyAfterSlotUpdates` | jetsam_chain/src/state.rs:544-571 | the last write per slot, folded over an ordered map, computes the checked fold over all slot indices |
| `TxInterpreter.ScanRecords` | jetsam_chain/src/state.rs:1039-1056 | the two duplicate scans return the first violation in record order, or nothing exactly when no slot repeats |
| `TxInterpreter.MatchInputs` | jetsam_chain/src/state.rs:1058-1077 | returns the first out-of-range or mismatching input, and otherwise the clearing writes of all inputs in order |
| `TxInterpreter.PlaceOutputs` | jetsam_chain/src/state.rs:1098-1129 | returns the first out-of-range or occupied output slot, and otherwise the minting writes with consecutive allocator ids, or the height tag for a primary coinbase |
| `TxInterpreter.ApplyTxDeferredRoot` | jetsam_chain/src/state.rs:1031-1145 | on the mutable chain state: commits the ledger step, or returns its first error and changes nothing |
| `BlockLedger.BlockIsRun` | jetsam_chain/src/block.rs:175-249 | a block commits if and only if its size, stream, slot distinctness and system records are valid, its operations run on the expanded parent, and the header states the ledger they reach |
| `BlockLedger.BlindRefinesChecked` | jetsam_chain/src/block.rs:175-384 | whatever the checked interpreter commits, the blind one commits as well, to the same slots, counters, supply and root, although it reads no slot and batches every write |
| `BlockLedger.CheckedIsBlindWithClaims` | jetsam_chain/src/block.rs:175-384 | the converse: a block commits if and only if the blind interpreter commits it, the expanded parent holds every value its actions claim and its system records are canonical; nothing else is taken on trust |
| `BlockLedger.BlindFollows` | jetsam_chain/src/block.rs:302-353 | wherever the operations run, the blind counters take the same values at every step, checked arithmetic included |
| `BlockLedger.SystemInputsUnreachable` | jetsam_chain/src/block.rs:186-192 | the stream rules already fix the system records, so the interpreter cannot return its coinbase-has-inputs error |
| `BlockLedger.ExpandToKeeps` | jetsam_chain/src/block.rs:196-204 | expanding to the header depth keeps every slot and every total, and everything beyond the old vector is empty |
| `BlockEffect.InputIsSpent` | jetsam_chain/src/state.rs:1058-1077 | in a committed block every live input named a slot that held exactly its amount, creation id and owner, and leaves it empty |
| `BlockEffect.OutputIsMinted` | jetsam_chain/src/state.rs:1098-1129 | every live output named an empty slot and leaves there its amount, its owner, and as id the tagged height for the coinbase or the next allocator value in block order for any other |
| `BlockEffect.OthersAreKept` | jetsam_chain/src/block.rs:206-220 | every slot no live record names keeps its value |
| `BlockInterpreter.ApplyBlockTo` | jetsam_chain/src/block.rs:175-249 | on the mutable chain state: commits exactly the ledger the semantics commits and returns its root, or returns the same error with the state object unchanged |
| `BlockInterpreter.ApplyStateDeltaTo` | jetsam_chain/src/block.rs:271-384 | the same for the blind interpreter |
| `BlockInterpreter.ApplyGenesisBlock` | jetsam_chain/src/block.rs:394-429 | accepts exactly the empty block with a zero transaction root, zero counters and the root of the given state |
| `BlockInterpreter.TryComputeTxRoot` | jetsam_chain/src/block.rs:516-534 | computes the root of the logical ids or the stream error; a valid stream never has more than 256 ids |
| `ChainRuns.ChainInvariant` | jetsam_chain/src/block.rs:175-249 | on every run of accepted blocks from genesis: supply is the sum of live amounts, the allocator counts the mints ever made, the coins minted are the coins spent plus the coins live, allocator ids count mints and tagged ids are increasing heights, and the height never exceeds the allocator |
| `ChainRuns.IdsNeverRepeat` | jetsam_chain/src/consensus/params.rs:2040-2061 | no creation id is issued twice on any run: allocator ids and height-tagged ids are each unique and never meet |
| `ChainRuns.NoDoubleSpend` | jetsam_chain/src/block.rs:206-220 | on every run no coin is spent twice, and a slot never again holds a coin that was spent |
| `ChainMoney.ActiveCountExact` | jetsam_chain/src/block.rs:300-353 | the header occupancy equals the number of non-empty slots if and only if no live input of the run ever claimed the empty value; it is never larger |
| `PhantomSpend.PhantomInputBreaksCount` | jetsam_chain/src/state.rs:1058-1077 | a block is accepted from genesis after which one slot is live and the occupancy counter is zero: an input that claims amount, id and owner zero matches an empty slot |
| `PhantomSpend.PhantomBlockHasNoWitness` | jetsam_block/src/history_step_witness.rs:650-655 | from genesis, on the block of that coinbase and that page, the interpreter commits a valid body and the witness builder refuses it, because it subtracts all spends before adding mints |
| `ChainMoney.NoUnderflow` | jetsam_chain/src/state.rs:1079-1087 | with an exact counter and no empty claim, the occupancy subtraction cannot underflow |
| `ChainMoney.BlockMovesMoney` | jetsam_chain/src/block.rs:175-249 | a block changes the supply by its system mints minus its fees and by nothing else |
| `ChainMoney.SupplyIsNetIssued` | jetsam_chain/src/block.rs:175-249 | on every run the supply is all system mints minus all fees |
| `ChainMoney.StreamPaysFees` | jetsam_tx/src/paged_spend.rs:473-485 | a valid page stream takes in exactly its outputs plus its fees, over all groups |
| `ChainMoney.LiveIdsAreUnique` | jetsam_chain/src/consensus/params.rs:2068-2082 | in every reachable state two live slots hold different creation ids, each within the allocator and height bounds of its header |
| `Transactions.GroupsPartition` | jetsam_chain/src/consensus/paged_spend.rs:377-403 | the groups of an accepted stream are that stream, cut without loss or reordering, and each is a valid spend |
| `Pagination.PagedSpendExactly` | jetsam_tx/src/paged_spend.rs:367-497 | a page list is accepted if and only if it is the pagination of a logical spend, one owner, one anchor, a fee and two lists, that balances on distinct slots within 1020 inputs and 256 outputs; the pagination is the densest in the fewest pages, and the list determines the spend |
| `Pagination.StreamExactly` | jetsam_chain/src/block.rs:457-509 | a block body is accepted if and only if it is a primary coinbase, at most one payout and the paginations of valid spends, in at most 256 records and 1020 inputs on distinct slots; its groups are those paginations |
| `Pagination.StreamComplete` | jetsam_chain/src/block.rs:484-509 | the facts of an accepted body: its groups, its page, input and output counts, whether it pays out, and the small class exactly up to 25 effective pages, 24 in the later generations |
| `Pagination.StreamRefusals` | jetsam_chain/src/block.rs:457-498 | the reason a body is refused, in the order of the checks |
| `Pagination.SystemBodyExactly` | jetsam_tx/src/wire.rs:116-164 | a canonical coinbase body is one or two outputs to distinct slots, with every other field zero and the bitmap that says so, and nothing else is one |
| `Transactions.GenerationChangesOnlyTheClass` | jetsam_chain/src/block.rs:437-509 | a generation changes no verdict, no error and no fact but the proof class, and that only for streams of 25 effective pages |
| `Transactions.PayoutErrorUnreachable` | jetsam_chain/src/block.rs:466-481 | the invalid-payout error cannot be returned, and an accepted stream has no system record after its prefix |
| `Transactions.GroupSitsAtLogicalIndex` | jetsam_chain/src/block.rs:106-113 | the id of group g is entry user_logical_index(g) of the logical list, whose length is the logical count |
| `Transactions.ValidateBlockSlotConflicts` | jetsam_chain/src/consensus/checks.rs:49-66 | accepts exactly when all live slots of the block are pairwise distinct |
| `ExactState.ZeroSlotRoots` | jetsam_chain/src/exact_state_hash.rs:38-46 | entry d is the root of a tree of depth d all of whose slots are empty |
| `ExactState.ZeroRootIsEmptyState` | jetsam_chain/src/exact_state_hash.rs:38-46 | that root is the dense root of an all-empty vector of length 2^d |
| `ExactState.ExpandRoot` | jetsam_chain/src/state.rs:593-612 | one expansion turns the root into node(old root, empty root of the old depth) |
| `ExactState.ExpandTimesRoot` | jetsam_chain/src/block.rs:196-204 | repeated expansion composes, one empty right sibling per level |
| `ExactState.StateRootBindsSlots` | jetsam_chain/src/exact_state_hash.rs:25-36 | equal roots at one depth mean equal slot vectors |
| `StreamingRoot.StreamingSparseRoot.PushLeaf` | jetsam_chain/src/state.rs:123-133 | appends one leaf after an implicit run of empty ones; succeeds exactly for positions from the cursor up to and including 2^depth, one past the last slot, and otherwise changes nothing |
| `StreamingRoot.StreamingSparseRoot.FillZeroGap` | jetsam_chain/src/state.rs:101-121 | fills a gap with maximal aligned empty subtrees and leaves the accumulator equal to having pushed every empty leaf |
| `StreamingRoot.StreamingSparseRoot.AppendBlock` | jetsam_chain/src/state.rs:88-99 | merges equal levels upward and keeps the pending peaks those of the longer prefix |
| `StreamingRoot.StreamingSparseRoot.Finish` | jetsam_chain/src/state.rs:135-144 | fails exactly on an accumulator that took a leaf at 2^depth; otherwise the root of the pushed leaves padded with empties |
| `StreamingRoot.StreamRoot` | jetsam_chain/src/storage/snapshot_staging.rs:530-561 | a whole stream of pushes and its finish succeed exactly on strictly increasing positions inside the domain, with the root of those leaves; the first position behind its predecessor or beyond 2^depth is refused when pushed, a last position of exactly 2^depth only by the finish |
| `StreamingRoot.SegmentRoot` | jetsam_chain/src/state.rs:268-301 | the root of one segment with its updates laid over its columns |
| `StreamingRoot.LocalSubtreeRoot` | jetsam_chain/src/state.rs:335-362 | the root of any aligned subtree inside a segment, streamed from its columns |
| `SegmentRoots.BuildTree` | jetsam_chain/src/state.rs:179-189 | builds a heap whose every node is the hash of its two children |
| `SegmentRoots.ExactSegmentRootCache.SetSegmentRoot` | jetsam_chain/src/state.rs:200-213 | replacing one segment root rehashes its ancestors only and leaves a correct tree |
| `SegmentRoots.ExactSegmentRootCache.Root` | jetsam_chain/src/state.rs:192-198 | the cached root is the root of the slot vector the cache describes |
| `SegmentRoots.ExactSegmentRootCache.SegmentNodeHash` | jetsam_chain/src/state.rs:215-226 | reads the tree node at any level above the segments, and nothing outside |
| `SegmentRoots.ExactSegmentRootCache.ExpandOne` | jetsam_chain/src/state.rs:228-248 | after one expansion the cache describes the expanded vector, in all three depth regimes |
| `SegmentedState.SegmentedFriState.WriteSlot` | jetsam_chain/src/segmented_state.rs:571-634 | one write changes one slot of the flat vector, keeps live counts right and marks every changed segment dirty |
| `SegmentedState.SegmentedFriState.ApplyDeltaUnrooted` | jetsam_chain/src/segmented_state.rs:564-634 | rejects a batch with any out-of-range index before writing, else applies it in order with the last write winning |
| `SegmentedState.SegmentedFriState.ExpandDomain` | jetsam_chain/src/segmented_state.rs:1256-1315 | doubles the flat vector with empty slots, by growing the single segment or by adding segments |
| `ChainEngine.ChainState.ExpandOne` | jetsam_chain/src/state.rs:593-612 | grows the domain with a constant-time root update that equals the root of the expanded slots, and keeps sealed states sealed |
| `ChainEngine.ChainState.TryStateRoot` | jetsam_chain/src/state.rs:639-662 | rehashing only the dirty segments gives the root of the current slots |
| `ChainEngine.ChainState.ExactFrontierSiblings` | jetsam_chain/src/state.rs:733-785 | on a sealed state of the right depth returns the true digest of every frontier node, else the matching error |
| `Frontier.ValidateIndices` | jetsam_chain/src/sparse_merkle.rs:1098-1119 | accepts exactly non-empty strictly increasing in-range indices at a supported depth, else the depth, the emptiness, or the first offending entry with its kind, range before order before duplicate |
| `Frontier.FrontierSiblingPositions` | jetsam_chain/src/sparse_merkle.rs:422-455 | the missing siblings, level by level and left to right |
| `FrontierPlan.DeriveStructuralFrontierPlan` | jetsam_chain/src/sparse_merkle.rs:464-529 | a plan exists exactly for canonical indices; every reference sits on its own tree cell, the siblings are the canonical frontier, the hashes are the nodes above the touched leaves level by level and left to right, and there are leaves plus siblings minus one of them |
| `FrontierSoundness.EvaluateStructuralFrontier` | jetsam_chain/src/sparse_merkle.rs:536-566 | runs the plan exactly when leaves and siblings have the planned counts |
| `FrontierSoundness.FrontierComplete` | jetsam_chain/src/sparse_merkle.rs:536-566 | fed the true leaves and siblings, a plan computes the true root |
| `FrontierSoundness.FrontierSound` | jetsam_block/src/history_step_witness.rs:628-644 | a plan that meets the root of a state was fed that state's own leaves and the true roots of every untouched subtree |
| `FrontierSoundness.SiblingsSurviveUpdate` | jetsam_block/src/history_step_witness.rs:641-648 | replacing exactly the touched leaves leaves every frontier sibling as it was |
| `HistoryStepWitness.TransitionSound` | jetsam_block/src/history_step_witness.rs:628-648 | for any siblings whatever: if the old leaves meet the parent root, they are the parent slots, and the new leaves then compute the root of the parent with exactly the touched slots replaced |
| `StateDelta.BuildActionSurface` | jetsam_chain/src/state_delta.rs:184-323 | succeeds exactly when all live slots of the block are distinct and hold what their actions expect and the allocator stays below the tag; the result lists every action in order with its slot, the value the parent holds there, the value the child will hold and whether it spends or mints, and counts both kinds |
| `StateDelta.SortSurface` | jetsam_chain/src/state_delta.rs:426-453 | the touched slots in increasing order with the parent value and the child value of each |
| `HistoryStepWitness.BuildExactStateFrontier` | jetsam_block/src/history_step_witness.rs:589-677 | succeeds on a sealed parent exactly when the block takes an allowed depth step, its actions fit the parent, the header root is the root of the parent with exactly those slots replaced, and the aggregate counters match; the inputs it returns are the values of the touched slots before and after, the true siblings, every node above a touched slot on both sides, and both roots at the header depth; a refusal names the first of these that fails |
| `HistoryStepWitness.WitnessAgrees` | jetsam_block/src/history_step_witness.rs:589-677 | for a valid body the builder accepts a block if and only if the interpreter commits it, its depth step is at most one level within the tree limit, and its spends do not exceed the parent counter; the child slots are then the same |
| `HistoryStepWitness.WitnessAgreesOnRuns` | jetsam_block/src/history_step_witness.rs:589-677 | on every run without empty claims, builder and interpreter accept the same next block among those that make no empty claim and take a supported depth step |
| `DeepExpansion.DeepBlockHasNoWitness` | jetsam_chain/src/block.rs:196-204 | from genesis at any depth, a coinbase-only block more than one level deeper is committed by the interpreter and refused by the builder |
| `HistoryStepWitness.AggregateCounters` | jetsam_block/src/history_step_witness.rs:650-664 | the aggregate counters equal the stepwise ones of every accepted block |
| `HistoryStepWitness.AggregateIsSafe` | jetsam_block/src/history_step_witness.rs:650-655 | with an exact parent counter and no empty claim, the spends of an accepted block never exceed the counter, because every one was live in the parent |
| `TxTree.RootFromHashes` | jetsam_chain/src/tx_tree.rs:46-64 | the layer-by-layer fold computes the count-bound root of the padded list, for every depth |
| `TxTree.PathFromHashes` | jetsam_chain/src/tx_tree.rs:67-90 | the digests beside the leaf's path in the list's own tree |
| `TxTree.VerifyPath` | jetsam_chain/src/tx_tree.rs:93-113 | accepts exactly when the count and index are in range and the folded path, bound to the count, is the claimed root |
| `TxTree.VerifiesExactly` | jetsam_chain/src/tx_tree.rs:93-113 | against the root of a list, a proof verifies if and only if it has the list's length, a real index, that index's leaf and that index's path |
| `TxTree.TxRootInjective` | jetsam_chain/src/tx_tree.rs:46-64 | equal roots mean equal lists, length included |
| `TxTree.TxRootMerkleInputs` | jetsam_block/src/history_step_witness.rs:688-737 | succeeds exactly when the header states the root of the logical list; entry i then holds leaf i, the path of leaf i, the bits of i and zero padding |
| `TxTree.PathInputsVerify` | jetsam_block/src/history_step_witness.rs:717-735 | every such entry is accepted by path verification |
| `LogicalTree.GroupInclusion` | jetsam_chain/src/block.rs:106-113 | at a group's logical index the block's transaction root proves that group and nothing else |
| `LogicalTree.SystemInclusion` | jetsam_chain/src/block.rs:516-527 | at index zero the same root proves the coinbase body and nothing else, and at index one the development payout when there is one |
| `Transactions.SystemSitsFirst` | jetsam_chain/src/block.rs:523-526 | the logical list begins with the coinbase id, then the payout id when there is one, and holds one id per group after them |
| `LogicalTree.TxRootBindsTransactions` | jetsam_chain/src/block.rs:516-534 | two valid blocks with one transaction root hold the same transactions, page for page: the root binds the ids, the ids the groups, and the groups the stream |
| `TxHash.BodyHashBinds` | jetsam_tx/src/body_hash.rs:32-64 | two bodies have one hash exactly when they are equal: every field sits in its own leaf of the sixteen-leaf tree, amount and creation id packed in one lane included |
| `TxHash.BodyHashLeavesInto` | jetsam_tx/src/body_hash.rs:32-60 | the in-place filling puts every field in the leaf its index constant names |
| `TxHash.HashLeaves` | jetsam_poseidon2b/src/primitives.rs:343-371 | four rounds of pairwise compression give the tree root of the sixteen leaves, wrapped under its own tag |
| `TxHash.HashPages` | jetsam_tx/src/paged_spend.rs:343-356 | the loop absorbs version, page count and both halves of every page hash in order |
| `TxHash.PagedHashBinds` | jetsam_tx/src/paged_spend.rs:338-356 | two paged spends have one id exactly when they have the same pages in the same order |
| `LogicalTree.WitnessTxInputs` | jetsam_block/src/history_step_witness.rs:553-562 | on a valid block the witness paths exist exactly under the block's own root, one per logical transaction, with every system record and every group at its logical index |
| `HeaderAnchor.ComputeHeaderChainAnchor` | jetsam_chain/src/header_anchor.rs:116-166 | one pass from genesis equals extending header by header, on every prefix and with the same first error; the anchor carries every field of the last header under its own name, and the given chainwork |
| `HeaderAnchor.ExtendExactly` | jetsam_chain/src/header_anchor.rs:67-113 | an extension succeeds exactly for the next height, saturating, under the previous tip id, and then carries the new header field by field; the height is judged before the link |
| `HeaderAnchor.TipDeterminesChain` | jetsam_chain/src/header_anchor.rs:67-166 | two valid prefixes with the same tip id are the same header list |
| `EpochAnchor.AdvanceKeepsClosedForm` | jetsam_recursive/src/accumulator.rs:308-361 | advancing a closed-form boundary along a chain gives the next closed-form boundary |
| `EpochAnchor.AnchorsHaveClosedForm` | jetsam_recursive/src/accumulator.rs:308-361 | on every chain and for every epoch length the lanes at height t name block E*((t-1)/E) and the block one epoch earlier, genesis at first |
| `EpochAnchor.CrossingIsExactAtEdges` | jetsam_recursive/src/accumulator.rs:336-361 | advancing from the one-anchor relation into a two-anchor one gives the closed form if and only if the parent is on an epoch edge or in the first epoch |
| `EpochAnchor.WitnessAnchorsAreEndAnchors` | jetsam_block/src/history_step_witness.rs:501-526 | the anchors the witness path admits are exactly those the end boundary carries |
| `EpochAnchor.ChildAnchorsClosedForm` | jetsam_block/src/history_step_witness.rs:501-526 | the pair a child may bind, in closed form |
| `EpochAnchor.AdmissibilityWindow` | jetsam_chain/src/consensus/epoch_anchor.rs:189-230 | a page bound to block a is admissible at height t if and only if a is a multiple of E and t is in a+1..a+E, or a+1..a+2E with two anchors |
| `EpochAnchor.ValidateBlockEpochAnchors` | jetsam_chain/src/consensus/epoch_anchor.rs:105-123 | accepts exactly when every body binds an admitted anchor, else reports the first body that does not |
| `EpochAnchor.BlockAnchorsExactly` | jetsam_chain/src/consensus/epoch_anchor.rs:105-123 | on a chain a body binds an admissible anchor if and only if it is a system record and names the parent block, or it is a page and names a block whose window is open at that height |
| `EpochAnchor.AdvanceRefusals` | jetsam_recursive/src/accumulator.rs:308-361 | the reason an advance is refused, in the order of the checks; otherwise every plain field is the child's |
| `EpochAnchor.BoundaryCheckIsExact` | jetsam_recursive/src/accumulator.rs:378-456 | against the canonical headers the local boundary check passes exactly for the closed-form boundary |
| `HeaderHash.BlockIdBindsHeader` | jetsam_chain/src/block_header.rs:80-98 | the sixteen absorbed lanes give every header field back: block ids are equal exactly for equal headers |
| `HeaderHash.SemanticIdBindsTemplate` | jetsam_chain/src/block_header.rs:106-129 | semantic ids are equal exactly for headers that differ at most in the nonce |
| `HeaderHash.SemanticSkipsNonce` | jetsam_chain/src/block_header.rs:108-129 | the semantic list is the block-id list with its first lane, the nonce, dropped, and nothing else moved |
| `HeaderHash.DomainsApart` | jetsam_chain/src/block_header.rs:80-129 | a block id, a semantic id and a mining digest never coincide, whichever headers they belong to |
| `HeaderHash.PowHeaderFieldsInto` | jetsam_chain/src/consensus/pow.rs:95-115 | the in-place mining schedule is lane for lane what the block id absorbs, nonce first |
| `HeaderHash.PowDigestBindsHeader` | jetsam_chain/src/consensus/pow.rs:127-140 | two headers have one mining digest exactly when they are equal |
| `FriState.FriState.ApplyDelta` | jetsam_chain/src/fri_state.rs:218-232 | a failing batch writes nothing; a successful one writes all in order, and the returned and cached root is the root of the new columns |
| `FriState.FriState.SetSlot` | jetsam_chain/src/fri_state.rs:235-237 | a single write, with the same guarantees |
| `FriState.FriState.Root` | jetsam_chain/src/fri_state.rs:245-257 | the cached root, when there is one, is the root of the current columns |
| `FriState.BatchIsSequential` | jetsam_chain/src/fri_state.rs:215-232 | a batch equals its single writes applied in order |
| `FriState.LastWriteWins` | jetsam_chain/src/fri_state.rs:215-232 | a slot written several times in a batch ends with the last value |
| `FriState.SlotIsItsOpening` | jetsam_chain/src/fri_state.rs:274-286 | the three evaluations at a slot's own point are the three lanes of that slot |
| `SegmentCap.CapToSegRoot` | jetsam_chain/src/fri_state.rs:553-577 | the layer loop computes the recursive cap root, including where it stops without one |
| `SegmentCap.CompletesExactly` | jetsam_chain/src/fri_state.rs:553-577 | a cap has a root if and only if it is non-empty and either the pad label is sixteen bytes or the number of hashes is a power of two |
| `SegmentCap.CompletesOnPowersOfTwo` | jetsam_chain/src/fri_state.rs:571-577 | with the label as written, a cap has a root if and only if its length is a power of two |
| `SegmentCap.DocumentedCapStops` | jetsam_chain/src/fri_state.rs:545-550 | a cap of 33 hashes, as the documentation describes it, has no root |
| `SegmentCap.BuiltCapsComplete` | jetsam_fri_binius/src/interleaved_commit.rs:576-603 | for every segment depth the commitment builds a cap of 64 hashes, so its root always exists |
| `SegmentCap.RootBindsCap` | jetsam_chain/src/fri_state.rs:545-569 | two caps of one length with one root are equal: no hash is dropped, padded layers included |
| `SegmentCap.RootIsTreeRoot` | jetsam_chain/src/fri_state.rs:553-569 | the root of a full cap is the root of the binary tree over its hashes |
| `SegmentCap.SegRootBinds` | jetsam_chain/src/fri_state.rs:583-589 | the segment root of a built cap always exists: the tree root of its 64 hashes compressed with the depth, in that order; two are equal exactly for equal caps at equal depths |
| `Multilinear.MleEvalNative` | jetsam_chain/src/fri_state.rs:341-351 | the in-place fold computes the recursive fold of the column |
| `Multilinear.FoldIsExtension` | jetsam_chain/src/fri_state.rs:341-351 | at every point of every commutative ring of characteristic two the fold equals the sum over the hypercube of entry times Lagrange weight |
| `Multilinear.EvalAtIndex` | jetsam_chain/src/fri_state.rs:314-324 | at the point of index i the evaluation is entry i, for every depth |
| `Multilinear.PaddingInvisible` | jetsam_chain/src/fri_state.rs:371-408 | the zero-padded column at the zero-extended point evaluates like the column at the point, for every padding depth |
| `Multilinear.ZeroVariablesDrop` | jetsam_chain/src/fri_state.rs:378-385 | with the extra variables zero, whatever was appended to the column is ignored |
| `Wire.RecordRoundTrip` | jetsam_chain/src/wire.rs:103-155 | for every layout of fixed-width fields, a record decodes from its bytes whatever follows them |
| `Wire.RecordCanonical` | jetsam_chain/src/wire.rs:103-155 | a record has exactly one encoding |
| `Wire.LittleEndianByte` | jetsam_chain/src/wire.rs:16-33 | byte k of a number is its digit k in base 256 |
| `Wire.PatchField` | jetsam_chain/src/wire.rs:103-104 | overwriting the bytes of one field encodes the record with that field changed |
| `Wire.WireBuffer.PutRecord` | jetsam_chain/src/wire.rs:16-33 | appends the fields of a record in order |
| `Wire.WireCursor.TakeRecord` | jetsam_chain/src/wire.rs:36-69 | reads a record exactly when all its bytes are there, and advances past it |
| `RecordWire.HeaderRoundTrip` | jetsam_chain/src/wire.rs:106-155 | a header decodes from its 212 bytes to itself |
| `RecordWire.HeaderOffsets` | jetsam_chain/src/wire.rs:90-125 | every header field at its documented byte offset |
| `RecordWire.BodyOffsets` | jetsam_tx/src/wire.rs:116-134 | every body field at its byte offset: the eight inputs from 72 in steps of 20, the two outputs from 232 in steps of 44, bitmap at 320, flag at 322 |
| `RecordWire.HeaderCanonical` | jetsam_chain/src/wire.rs:128-155 | the bytes a header is read from are its encoding |
| `RecordWire.BodyRoundTrip` | jetsam_tx/src/wire.rs:116-164 | a body record decodes from its bytes to itself |
| `RecordWire.ProbeRoundTrip` | jetsam_chain/src/block.rs:685-702 | the probe classifies every record the encoder writes: the coinbase and mints as system records, pages as pages |
| `RecordWire.ProbeCanonical` | jetsam_chain/src/block.rs:679-702 | whatever the probe accepts is encodable at that place and is the only encoding of what it returns |
| `BlockWire.BlockRoundTrip` | jetsam_chain/src/block.rs:618-741 | every canonical block decodes from its own bytes to itself |
| `BlockWire.BlockBytesCanonical` | jetsam_chain/src/block.rs:665-741 | every accepted byte string is the encoding of the canonical block it decodes to |
| `BlockWire.WireLengthExact` | jetsam_chain/src/block.rs:603-616 | the length formula is the length of the encoding |
| `BlockWire.StreamIsEncodable` | jetsam_chain/src/block.rs:618-647 | a valid stream with canonical system records never trips an assertion of the encoder |
| `BlockWire.BlockOffsets` | jetsam_chain/src/block.rs:618-647 | the bytes of a block: marker, header, record count, record k at 217 + 323k, and the object section with its marker and count at the end |
| `BlockWire.ObjectsFromActivation` | jetsam_chain/src/block.rs:704-721 | a block with objects decodes to itself from the activation height on, and is refused for trailing bytes below it |
| `BlockWire.NoncePatch` | jetsam_chain/src/block.rs:576-579 | overwriting 16 bytes at offset 145 of an encoded block encodes the block with that nonce |
| `BlockWire.IdsAndNonce` | jetsam_chain/src/block_header.rs:80-129 | for headers read off the wire: one semantic id exactly when they differ at most in the nonce, one block id exactly when they are equal, and never an id of one kind equal to one of the other |
| `BlockWire.SectionRoundTrip` | jetsam_chain/src/consensus/client_objects.rs:1152-1189 | a non-empty object list comes back from its section, given any lawful object codec |
| `BlockCodec.EncodeBlockTo` | jetsam_chain/src/block.rs:618-647 | appends exactly the block encoding to the buffer |
| `BlockCodec.DecodeBlockFrom` | jetsam_chain/src/block.rs:665-721 | on the cursor: the block and the bytes left over, or the same error |
| `BlockCodec.DecodeRecordFrom` | jetsam_chain/src/block.rs:679-702 | the probe on a copied cursor reads what the record decoder reads and leaves the cursor where it leaves off |
| `AcceptedBlockBundle.PrefixRoundTrip` | jetsam_chain/src/history_step.rs:80-106 | a terminal prefix comes back whatever proof bytes follow it |
| `AcceptedBlockBundle.PrefixCanonical` | jetsam_chain/src/history_step.rs:80-106 | an accepted prefix is the only encoding of what it says, in the version its own height selects |
| `AcceptedBlockBundle.PrefixExactly` | jetsam_chain/src/history_step.rs:36-106 | byte by byte: version at 0, height at 1, hash at 9, class at 41; the version must be 5 from the activation height on and 4 below it, judged by the prefix's own height, and the class below 4; every other prefix is refused with its reason |
| `AcceptedBlockBundle.AcceptsExactly` | jetsam_chain/src/accepted_block_bundle.rs:68-131 | a block and a terminal make a bundle if and only if the block is within its size limit, decodes, is above genesis, and the terminal's bytes state its height and semantic id in the version and within the size its height selects |
| `AcceptedBlockBundle.Refusals` | jetsam_chain/src/accepted_block_bundle.rs:68-131 | the reason for a refusal, in the order of the checks |
| `AcceptedBlockBundle.SealRefusals` | jetsam_chain/src/accepted_block_bundle.rs:291-322 | the reason a terminal is refused: its size, its prefix, its height, its hash |
| `AcceptedBlockBundle.BundleOffsets` | jetsam_chain/src/accepted_block_bundle.rs:186-202 | the bytes of a bundle: the letters JAB1, both lengths in four little-endian bytes, then both payloads |
| `AcceptedBlockBundle.BundleRoundTrip` | jetsam_chain/src/accepted_block_bundle.rs:137-202 | every accepted bundle decodes from its own bytes to itself |
| `AcceptedBlockBundle.BundleCanonical` | jetsam_chain/src/accepted_block_bundle.rs:137-202 | every accepted byte string re-encodes to itself |
| `AcceptedBlockBundle.AcceptedBinds` | jetsam_chain/src/accepted_block_bundle.rs:291-322 | an accepted bundle holds a non-genesis block and names its height and id; its terminal's bytes are those of version 5 or 4, with that height and that semantic id, within 1,200,000 or 1,048,576 bytes |
| `AcceptedBlockBundle.ConstructorsAgree` | jetsam_chain/src/accepted_block_bundle.rs:68-131 | on every canonical block the local and the decoding constructor accept the same terminals with the same bundle, and above genesis give the same errors |
| `AcceptedBlockBundle.TooLargeExactly` | jetsam_chain/src/accepted_block_bundle.rs:258-273 | a block of n transactions is too large for a bundle if and only if its object section, marker and count included, is longer than 323*(256-n) bytes; the local constructor differs only in refusing genesis first |
| `AcceptedBlockBundle.FullBlockCarriesNoObjects` | jetsam_chain/src/consensus/wire_limits.rs:27-29 | a block of 256 transactions with any object is refused by both constructors: the block limit is the object-free length |
| `AcceptedBlockBundle.MiningKeepsBundle` | jetsam_chain/src/accepted_block_bundle.rs:305-322 | patching the nonce in an accepted bundle's block keeps it decodable and bound to the same terminal, and changes the block id exactly when the nonce changes |
| `BlockCodec.EncodeBundleBytes` | jetsam_chain/src/accepted_block_bundle.rs:186-202 | appends magic, both lengths and both payloads |
| `Fixture.FindSlot` | bench_prover/src/lib.rs:1174-1184 | the cursor search always ends: at the first empty unreserved slot at or after the cursor if there is one, else by running off the vector, or off the 32-bit range when the vector covers it |
| `Fixture.AllocatePair` | bench_prover/src/lib.rs:1174-1189 | two increasing free slots at or after the cursor, or an error only when fewer than two are left below the last index |
| `Fixture.ChildUserTransactions` | bench_prover/src/lib.rs:1137-1250 | every transaction spends its own tracked coin with a matching claim, binds the given anchor, pays the fee its draft is charged at the parent occupancy and depth, halves the rest, and lands in two slots of one strictly increasing list of slots empty in the parent; it runs short exactly when there are fewer coins than users, and any other error is the first coin found dead or foreign, or a missing slot or fee after coins that were all fine |
| `FixtureRuns.TrackedStep` | bench_prover/src/lib.rs:974-989 | if a block holding the users in any order is accepted, all carried-over coins are live, owned by their wallets and in distinct slots, and s coins with u users become s+u+1 |
| `FixtureRuns.CoinsInOrder` | bench_prover/src/lib.rs:974-989 | the carried coins form a queue: the unspent in their order, then the reward, then the new outputs in slot order |
| `FixtureProvider.OutputsNeverRepeat` | bench_prover/src/lib.rs:1163-1190 | over a whole accepted walk no output slot is handed out twice: later steps take slots beyond all earlier ones |
| `FixtureProvider.WalkCoins` | bench_prover/src/lib.rs:665-705 | along every accepted walk from genesis the tracked coins are live, owned and distinct, and before step i there are exactly as many as the schedule so far makes |
| `FixtureProvider.ScheduleNeverShort` | bench_prover/src/lib.rs:469-474 | on every accepted walk of the schedule [0,1,3,7,15,k,k+1] a step has fewer coins than users if and only if it is the sixth and k is above 31 |
| `FixtureProvider.LongWalksAreSmall` | bench_prover/src/lib.rs:469-474 | no accepted walk goes past its fifth block unless k is at most 31 |
| `FixtureProvider.BuildChild` | bench_prover/src/lib.rs:803-814 | on a ready parent a tracked coin is never found spent or foreign; the coins run short exactly when there are fewer than users |
| `FixtureProvider.HonestHistoryStepFixtureProvider.NextBackbone` | bench_prover/src/lib.rs:665-705 | one more accepted step, or an error that changes nothing; not-enough-spendables is returned exactly at the sixth step of a tier from 32 to 255 |
| `FixtureProvider.HonestHistoryStepFixtureProvider.Fork` | bench_prover/src/lib.rs:765-800 | a child of either tier forked from a kept parent never runs short |

## Left out

- Proof systems: Poseidon2b, FRI commitments and openings, NTT, R1CS, authorization proofs and recursion; hashes are free terms and the column commitment is a parameter.
- Evicted segments: every segment is resident, so the errors for reading evicted state do not arise.
- apply_verified_exact_transition and exact_utxo_root_after_slot_updates: the commit path of an already verified transition would repeat the batch write and the dirty-segment rehash that are proved here.
- Shrinking the slot domain and rebuilding from stored parts: only growth happens while blocks are applied.
- Which rule a rejected paged spend broke: a group is accepted or not; the individual error and the page and slot it names are not modelled. The same holds for the transaction and record indices inside state-delta errors.
- Fee formulas, subsidy amounts, difficulty, timestamps and proof of work: not part of the state transition; the fixture takes its fee as a parameter.
- The rule that a coinbase may be spent only after maturity, and the network, mempool, storage and RPC layers.
- Client objects: only their list framing, over any lawful codec of one object.
- FriState::open above depth 16: the local index is cut to 16 bits there, so openings are stated on columns and points only.
- Fixture seeds, addresses, template construction, mining and consensus checks: parameters; the template may order the users as it likes and add a payout, and is assumed to pay the coinbase to the miner it was given.
- FixtureProvider.HonestHistoryStepFixtureProvider.NextBackbone: takes the boundary comparison with the caller's accumulator as passed, because accumulators are not part of the fixture model; the walk stays in the first epoch, so the anchor is one constant.
- StreamingRoot: depths of 64 and more, where the code refuses to build an accumulator, are not refused.
- BlockCodec.DecodeBlockFrom: reads each list element by its decoding function; the cursor-level record read is BlockCodec.DecodeRecordFrom.
- Digest equality as bytes: no statement says that two different terms have different bytes.
