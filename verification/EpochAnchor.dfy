/** Transaction epoch anchors: the boundary accumulator along a chain, its closed form, and the
    heights at which a page bound to an anchor can be included. The epoch length is a parameter. */
module EpochAnchor {
  import opened Powers
  import opened Types
  import opened HeaderHash
  import opened Transactions

  predicate BindsTwoAnchors(generation: Generation) {
    !generation.V1?
  }

  /** `tx_epoch_anchor_height_for_child`. */
  function AnchorHeight(child: nat, epoch: nat): (h: nat)
    requires epoch > 0
    ensures child > 0 ==> h < child <= h + epoch
    ensures child == 0 ==> h == 0
  {
    if child == 0 then 0 else (child - 1) / epoch * epoch
  }

  /** `previous_tx_epoch_anchor_height_for_child`. */
  function PreviousAnchorHeight(child: nat, epoch: nat): nat
    requires epoch > 0
  {
    var h := AnchorHeight(child, epoch);
    if h < epoch then 0 else h - epoch
  }

  datatype Accumulator = Accumulator(
    height: u64, tipSemanticId: Digest, stateRoot: Digest, logSlots: u32, activeSlotCount: u64, allocCounter: u64,
    epochAnchorId: Digest, previousEpochAnchorId: Digest)

  datatype AdvanceError = BadParentHeight | BadParentTip | BadParentLink | HeightOverflow | BadHeight

  /** `advance_in`. */
  function AdvanceIn(acc: Accumulator, generation: Generation, parent: Header, child: Header, epoch: nat)
    : Result<Accumulator, AdvanceError>
    requires epoch > 0
  {
    if parent.height != acc.height then Err(BadParentHeight)
    else if SemanticHeaderId(parent) != acc.tipSemanticId then Err(BadParentTip)
    else if child.prevBlockHash != HashBlockHeader(parent) then Err(BadParentLink)
    else if acc.height + 1 >= U64_LIMIT then Err(HeightOverflow)
    else if child.height != acc.height + 1 then Err(BadHeight)
    else
      var boundary := acc.height % epoch == 0;
      var anchor := if boundary then HashBlockHeader(parent) else acc.epochAnchorId;
      Ok(Accumulator(child.height, SemanticHeaderId(child), child.stateRoot, child.logSlots, child.activeSlotCount,
                     child.allocCounter, anchor,
                     if !BindsTwoAnchors(generation) then anchor
                     else if boundary then acc.epochAnchorId
                     else acc.previousEpochAnchorId))
  }

  /** Why an advance is refused, in order: the parent's height, its semantic id, the child's link, the last
      representable height, the child's height. */
  lemma {:induction false} AdvanceRefusals(acc: Accumulator, generation: Generation, parent: Header, child: Header,
                                           epoch: nat)
    requires epoch > 0
    ensures var r := AdvanceIn(acc, generation, parent, child, epoch);
            if parent.height != acc.height then r == Err(BadParentHeight)
            else if SemanticHeaderId(parent) != acc.tipSemanticId then r == Err(BadParentTip)
            else if child.prevBlockHash != HashBlockHeader(parent) then r == Err(BadParentLink)
            else if acc.height == U64_LIMIT - 1 then r == Err(HeightOverflow)
            else if child.height != acc.height + 1 then r == Err(BadHeight)
            else r.Ok? && r.value.height == child.height && r.value.stateRoot == child.stateRoot
                 && r.value.logSlots == child.logSlots && r.value.activeSlotCount == child.activeSlotCount
                 && r.value.allocCounter == child.allocCounter && r.value.tipSemanticId == SemanticHeaderId(child)
  {
  }

  /** `from_canonical_headers`. */
  function FromCanonicalHeaders(generation: Generation, header: Header, anchor: Header, previous: Header): Accumulator {
    Accumulator(header.height, SemanticHeaderId(header), header.stateRoot, header.logSlots, header.activeSlotCount,
                header.allocCounter, HashBlockHeader(anchor),
                if BindsTwoAnchors(generation) then HashBlockHeader(previous) else HashBlockHeader(anchor))
  }

  /** A header chain from genesis. */
  predicate Linked(headers: seq<Header>) {
    && 0 < |headers| <= U64_LIMIT
    && (forall i :: 0 <= i < |headers| ==> headers[i].height == i)
    && (forall i :: 0 < i < |headers| ==> headers[i].prevBlockHash == HashBlockHeader(headers[i - 1]))
  }

  /** The closed form: tip fields, the anchor of the tip's own epoch, and the one before it. */
  function Boundary(headers: seq<Header>, t: nat, generation: Generation, epoch: nat): Accumulator
    requires t < |headers| && epoch > 0
  {
    FromCanonicalHeaders(generation, headers[t], headers[AnchorHeight(t, epoch)],
                         headers[PreviousAnchorHeight(t, epoch)])
  }

  function GenesisAccumulator(genesis: Header): Accumulator {
    Accumulator(genesis.height, SemanticHeaderId(genesis), genesis.stateRoot, genesis.logSlots, genesis.activeSlotCount,
                genesis.allocCounter, HashBlockHeader(genesis), HashBlockHeader(genesis))
  }

  lemma {:induction false} MultiplesBelow(x: nat, epoch: nat)
    requires epoch > 0
    ensures x / epoch * epoch == x - x % epoch
    ensures x % epoch == 0 ==> x / epoch * epoch == x
    ensures x > 0 && x % epoch != 0 ==> (x - 1) / epoch == x / epoch
  {
    if x > 0 && x % epoch != 0 {
      var q, r := x / epoch, x % epoch;
      assert x - 1 == q * epoch + (r - 1);
      QuotientUnique(x - 1, epoch, q, r - 1);
    }
  }

  /** The anchor moves exactly at a multiple of the epoch, to that block itself. */
  lemma {:induction false} AnchorMoves(t: nat, epoch: nat)
    requires epoch > 0
    ensures AnchorHeight(t + 1, epoch) == if t % epoch == 0 then t else AnchorHeight(t, epoch)
    ensures PreviousAnchorHeight(t + 1, epoch)
         == if t % epoch == 0 then AnchorHeight(t, epoch) else PreviousAnchorHeight(t, epoch)
  {
    MultiplesBelow(t, epoch);
    if t > 0 && t % epoch == 0 {
      var q := t / epoch;
      assert t - 1 == (q - 1) * epoch + (epoch - 1);
      QuotientUnique(t - 1, epoch, q - 1, epoch - 1);
    }
  }

  /** Advancing a closed-form boundary along the chain gives the next closed-form boundary. */
  lemma {:induction false} AdvanceKeepsClosedForm(headers: seq<Header>, t: nat, generation: Generation, epoch: nat)
    requires Linked(headers) && t + 1 < |headers| && epoch > 0
    ensures AdvanceIn(Boundary(headers, t, generation, epoch), generation, headers[t], headers[t + 1], epoch)
         == Ok(Boundary(headers, t + 1, generation, epoch))
  {
    AnchorMoves(t, epoch);
    assert headers[t + 1].prevBlockHash == HashBlockHeader(headers[t + 1 - 1]);
  }

  /** The accumulator after the first `t` advances from genesis. */
  function AdvanceAll(headers: seq<Header>, t: nat, generation: Generation, epoch: nat)
    : Result<Accumulator, AdvanceError>
    requires t < |headers| && epoch > 0
  {
    if t == 0 then Ok(GenesisAccumulator(headers[0]))
    else match AdvanceAll(headers, t - 1, generation, epoch)
      case Err(error) => Err(error)
      case Ok(acc) => AdvanceIn(acc, generation, headers[t - 1], headers[t], epoch)
  }

  lemma {:induction false} GenesisClosedForm(headers: seq<Header>, generation: Generation, epoch: nat)
    requires Linked(headers) && epoch > 0
    ensures GenesisAccumulator(headers[0]) == Boundary(headers, 0, generation, epoch)
  {
  }

  /** The closed form on every chain: the lanes name block `E * ((t - 1) / E)` and the one an epoch
      earlier, genesis at first. */
  lemma {:induction false} AnchorsHaveClosedForm(headers: seq<Header>, t: nat, generation: Generation, epoch: nat)
    requires Linked(headers) && t < |headers| && epoch > 0
    ensures AdvanceAll(headers, t, generation, epoch) == Ok(Boundary(headers, t, generation, epoch))
  {
    var trail := seq(|headers|, i requires 0 <= i < |headers| => Boundary(headers, i, generation, epoch));
    GenesisClosedForm(headers, generation, epoch);
    forall i | 0 < i < |headers|
      ensures Advances(headers, generation, epoch, trail, i)
    {
      AdvanceKeepsClosedForm(headers, i - 1, generation, epoch);
    }
    AdvancesFollow(headers, generation, epoch, trail, t);
  }

  predicate Advances(headers: seq<Header>, generation: Generation, epoch: nat, trail: seq<Accumulator>, i: nat)
    requires |trail| == |headers| && 0 < i < |headers| && epoch > 0
  {
    AdvanceIn(trail[i - 1], generation, headers[i - 1], headers[i], epoch) == Ok(trail[i])
  }

  /** Advancing from genesis follows any trail whose every step is an advance. */
  lemma {:induction false} AdvancesFollow(headers: seq<Header>, generation: Generation, epoch: nat,
                                          trail: seq<Accumulator>, t: nat)
    requires |trail| == |headers| && t < |headers| && epoch > 0 && GenesisAccumulator(headers[0]) == trail[0]
    requires forall i :: 0 < i < |headers| ==> Advances(headers, generation, epoch, trail, i)
    ensures AdvanceAll(headers, t, generation, epoch) == Ok(trail[t])
  {
    if t == 0 {
    } else {
      AdvancesFollow(headers, generation, epoch, trail, t - 1);
      assert Advances(headers, generation, epoch, trail, t);
    }
  }

  /** Crossing from the one-anchor to a two-anchor relation by a plain advance gives the closed form
      exactly at an epoch edge or inside the first epoch; elsewhere the older lane is one epoch late. */
  lemma {:induction false} CrossingIsExactAtEdges(headers: seq<Header>, t: nat, generation: Generation, epoch: nat)
    requires Linked(headers) && t + 1 < |headers| && epoch > 0 && BindsTwoAnchors(generation)
    ensures AdvanceIn(Boundary(headers, t, V1, epoch), generation, headers[t], headers[t + 1], epoch)
            == Ok(Boundary(headers, t + 1, generation, epoch))
            <==> t % epoch == 0 || t <= epoch
  {
    AnchorMoves(t, epoch);
    assert headers[t + 1].prevBlockHash == HashBlockHeader(headers[t + 1 - 1]);
    var h, p := AnchorHeight(t, epoch), PreviousAnchorHeight(t, epoch);
    assert headers[h].height == h && headers[p].height == p;
    FirstEpoch(t, epoch);
  }

  lemma {:induction false} FirstEpoch(t: nat, epoch: nat)
    requires epoch > 0
    ensures AnchorHeight(t, epoch) == PreviousAnchorHeight(t, epoch) <==> t <= epoch
  {
    if 0 < t <= epoch {
      QuotientUnique(t - 1, epoch, 0, t - 1);
    }
  }

  // What a page may bind.

  datatype AcceptedAnchors = AcceptedAnchors(current: Digest, previous: Digest) {
    predicate Accepts(anchor: Digest, generation: Generation) {
      anchor == current || (BindsTwoAnchors(generation) && anchor == previous)
    }
  }

  /** The shift of `validate_nonce_independent_block`: at an epoch edge the parent becomes current. */
  function WitnessAnchors(start: Accumulator, parent: Header, epoch: nat): AcceptedAnchors
    requires epoch > 0
  {
    if start.height % epoch == 0 then AcceptedAnchors(HashBlockHeader(parent), start.epochAnchorId)
    else AcceptedAnchors(start.epochAnchorId, start.previousEpochAnchorId)
  }

  /** The witness path admits exactly the anchors the end boundary will carry. */
  lemma {:induction false} WitnessAnchorsAreEndAnchors(start: Accumulator, generation: Generation, parent: Header,
                                                       child: Header,
                                                       epoch: nat, anchor: Digest)
    requires epoch > 0 && AdvanceIn(start, generation, parent, child, epoch).Ok?
    ensures var end := AdvanceIn(start, generation, parent, child, epoch).value;
            WitnessAnchors(start, parent, epoch).Accepts(anchor, generation)
            <==> AcceptedAnchors(end.epochAnchorId, end.previousEpochAnchorId).Accepts(anchor, generation)
  {
  }

  /** The anchors a child at height `t` may bind, from its parent's boundary. */
  function ChildAnchors(headers: seq<Header>, t: nat, generation: Generation, epoch: nat): AcceptedAnchors
    requires 0 < t <= |headers| && epoch > 0
  {
    WitnessAnchors(Boundary(headers, t - 1, generation, epoch), headers[t - 1], epoch)
  }

  lemma {:induction false} ChildAnchorsClosedForm(headers: seq<Header>, t: nat, generation: Generation, epoch: nat)
    requires Linked(headers) && 0 < t <= |headers| && epoch > 0
    ensures ChildAnchors(headers, t, generation, epoch).current == HashBlockHeader(headers[AnchorHeight(t, epoch)])
    ensures BindsTwoAnchors(generation) ==>
              ChildAnchors(headers, t, generation, epoch).previous
                  == HashBlockHeader(headers[PreviousAnchorHeight(t, epoch)])
  {
    AnchorMoves(t - 1, epoch);
  }

  /** How many epochs an anchor stays admissible. */
  function Lifetime(generation: Generation, epoch: nat): nat {
    if generation.V1? then epoch else 2 * epoch
  }

  lemma {:induction false} WindowOfAnchor(a: nat, t: nat, epoch: nat)
    requires epoch > 0 && t > 0
    ensures a == AnchorHeight(t, epoch) <==> a % epoch == 0 && a + 1 <= t <= a + epoch
  {
    MultiplesBelow(t - 1, epoch);
    if a == AnchorHeight(t, epoch) {
      MultipleRemainder((t - 1) / epoch, epoch);
    }
    if a % epoch == 0 && a + 1 <= t <= a + epoch {
      MultiplesBelow(a, epoch);
      QuotientUnique(t - 1, epoch, a / epoch, t - 1 - a);
    }
  }

  lemma {:induction false} MultipleRemainder(q: nat, d: nat)
    requires d > 0
    ensures q * d % d == 0
  {
    QuotientUnique(q * d, d, q, 0);
  }

  lemma {:induction false} OneEpochLater(a: nat, epoch: nat)
    requires epoch > 0
    ensures (a + epoch) % epoch == 0 <==> a % epoch == 0
  {
    MultiplesBelow(a, epoch);
    QuotientUnique(a + epoch, epoch, a / epoch + 1, a % epoch);
  }

  lemma {:induction false} WindowOfPrevious(a: nat, t: nat, epoch: nat)
    requires epoch > 0 && t > 0
    ensures a == PreviousAnchorHeight(t, epoch) <==>
            a % epoch == 0 && ((a + epoch + 1 <= t <= a + 2 * epoch) || (a == 0 && t <= epoch))
  {
    var h := AnchorHeight(t, epoch);
    WindowOfAnchor(h, t, epoch);
    WindowOfAnchor(a + epoch, t, epoch);
    WindowOfAnchor(0, t, epoch);
    OneEpochLater(a, epoch);
    if h >= epoch {
      OneEpochLater(h - epoch, epoch);
    }
    FirstEpoch(t, epoch);
  }

  /** A page bound to the id of block `a` can be included at height `t` exactly when `a` is a multiple
      of the epoch and `t` is in `a + 1 .. a + E`, or `a + 1 .. a + 2E` with two anchors. */
  lemma {:induction false} AdmissibilityWindow(headers: seq<Header>, a: nat, t: nat, generation: Generation, epoch: nat)
    requires Linked(headers) && 0 < t <= |headers| && a < |headers| && epoch > 0
    ensures ChildAnchors(headers, t, generation, epoch).Accepts(HashBlockHeader(headers[a]), generation) <==>
            a % epoch == 0 && a + 1 <= t <= a + Lifetime(generation, epoch)
  {
    ChildAnchorsClosedForm(headers, t, generation, epoch);
    WindowOfAnchor(a, t, epoch);
    WindowOfPrevious(a, t, epoch);
    var h, p := AnchorHeight(t, epoch), PreviousAnchorHeight(t, epoch);
    assert headers[a].height == a && headers[h].height == h && headers[p].height == p;
    BlockIdBindsHeader(headers[a], headers[h]);
    BlockIdBindsHeader(headers[a], headers[p]);
  }

  datatype AnchorError = BadCoinbaseAnchor | BadEpochAnchor

  predicate BodyAnchorOk(body: Body, accepted: AcceptedAnchors, parentId: Digest, generation: Generation) {
    if body.isCoinbase then body.epochAnchor == parentId else accepted.Accepts(body.epochAnchor, generation)
  }

  predicate FirstBad(txs: seq<Body>, k: nat, accepted: AcceptedAnchors, parentId: Digest, generation: Generation)
    requires k < |txs|
  {
    && !BodyAnchorOk(txs[k], accepted, parentId, generation)
    && forall j :: 0 <= j < k ==> BodyAnchorOk(txs[j], accepted, parentId, generation)
  }

  /** `validate_block_epoch_anchors_in`: the first offending body decides the error. */
  method ValidateBlockEpochAnchors(txs: seq<Body>, accepted: AcceptedAnchors, parentId: Digest, generation: Generation)
    returns (e: Option<AnchorError>)
    ensures e.None? <==>
            && (forall k :: 0 <= k < |txs| && txs[k].isCoinbase ==> txs[k].epochAnchor == parentId)
            && (forall k :: 0 <= k < |txs| && !txs[k].isCoinbase ==>
                  txs[k].epochAnchor == accepted.current
                  || (!generation.V1? && txs[k].epochAnchor == accepted.previous))
    ensures e.Some? ==>
              exists k :: 0 <= k < |txs| && FirstBad(txs, k, accepted, parentId, generation)
                          && e.value == if txs[k].isCoinbase then BadCoinbaseAnchor else BadEpochAnchor
  {
    for k := 0 to |txs|
      invariant forall j :: 0 <= j < k ==> BodyAnchorOk(txs[j], accepted, parentId, generation)
    {
      if !BodyAnchorOk(txs[k], accepted, parentId, generation) {
        assert FirstBad(txs, k, accepted, parentId, generation);
        return Some(if txs[k].isCoinbase then BadCoinbaseAnchor else BadEpochAnchor);
      }
    }
    e := None;
  }

  /** An id is the id of a block whose window is open at height `t`. */
  ghost predicate OpenAnchor(headers: seq<Header>, t: nat, generation: Generation, epoch: nat, id: Digest)
    requires epoch > 0
  {
    exists a :: 0 <= a < |headers| && id == HashBlockHeader(headers[a])
                && a % epoch == 0 && a + 1 <= t <= a + Lifetime(generation, epoch)
  }

  /** On a chain, the bodies of the block at height `t` bind admissible anchors exactly when every system
      record names the parent block and every page a block whose window is open. */
  lemma {:induction false} BlockAnchorsExactly(headers: seq<Header>, t: nat, generation: Generation, epoch: nat,
                                               body: Body)
    requires Linked(headers) && 0 < t <= |headers| && epoch > 0
    ensures BodyAnchorOk(body, ChildAnchors(headers, t, generation, epoch), HashBlockHeader(headers[t - 1]), generation)
            <==> if body.isCoinbase then body.epochAnchor == HashBlockHeader(headers[t - 1])
                 else OpenAnchor(headers, t, generation, epoch, body.epochAnchor)
  {
    if !body.isCoinbase {
      ChildAnchorsClosedForm(headers, t, generation, epoch);
      var h, p := AnchorHeight(t, epoch), PreviousAnchorHeight(t, epoch);
      AdmissibilityWindow(headers, h, t, generation, epoch);
      AdmissibilityWindow(headers, p, t, generation, epoch);
      if OpenAnchor(headers, t, generation, epoch, body.epochAnchor) {
        var a :| 0 <= a < |headers| && body.epochAnchor == HashBlockHeader(headers[a])
                 && a % epoch == 0 && a + 1 <= t <= a + Lifetime(generation, epoch);
        AdmissibilityWindow(headers, a, t, generation, epoch);
      }
    }
  }

  // The inverse check against a header store.

  datatype BoundaryError =
    | HeightMismatch | TipMismatch | StateRootMismatch | LogSlotsMismatch | ActiveMismatch | AllocMismatch
    | AnchorHeightMismatch | AnchorIdMismatch
    | PreviousMissing | PreviousUnexpected | PreviousHeightMismatch | PreviousIdMismatch

  /** `validate_local_header_boundary_in`. */
  function BoundaryErrorIn(acc: Accumulator, generation: Generation, tip: Header, anchor: Header,
                           previous: Option<Header>, epoch: nat)
    : Option<BoundaryError>
    requires epoch > 0
  {
    if acc.height != tip.height then Some(HeightMismatch)
    else if acc.tipSemanticId != SemanticHeaderId(tip) then Some(TipMismatch)
    else if acc.stateRoot != tip.stateRoot then Some(StateRootMismatch)
    else if acc.logSlots != tip.logSlots then Some(LogSlotsMismatch)
    else if acc.activeSlotCount != tip.activeSlotCount then Some(ActiveMismatch)
    else if acc.allocCounter != tip.allocCounter then Some(AllocMismatch)
    else if anchor.height != AnchorHeight(tip.height, epoch) then Some(AnchorHeightMismatch)
    else if acc.epochAnchorId != HashBlockHeader(anchor) then Some(AnchorIdMismatch)
    else match previous
      case None =>
        if BindsTwoAnchors(generation) then Some(PreviousMissing)
        else if acc.previousEpochAnchorId != acc.epochAnchorId then Some(PreviousIdMismatch)
        else None
      case Some(header) =>
        if !BindsTwoAnchors(generation) then Some(PreviousUnexpected)
        else if header.height != PreviousAnchorHeight(tip.height, epoch) then Some(PreviousHeightMismatch)
        else if acc.previousEpochAnchorId != HashBlockHeader(header) then Some(PreviousIdMismatch)
        else None
  }

  /** Against the canonical headers the check passes exactly for the closed-form boundary. */
  lemma {:induction false} BoundaryCheckIsExact(acc: Accumulator, headers: seq<Header>, t: nat, generation: Generation,
                                                epoch: nat)
    requires Linked(headers) && t < |headers| && epoch > 0
    ensures var previous := if BindsTwoAnchors(generation) then Some(headers[PreviousAnchorHeight(t, epoch)]) else None;
            BoundaryErrorIn(acc, generation, headers[t], headers[AnchorHeight(t, epoch)], previous, epoch).None?
            <==> acc == Boundary(headers, t, generation, epoch)
  {
    var h, p := AnchorHeight(t, epoch), PreviousAnchorHeight(t, epoch);
    assert headers[h].height == h && headers[p].height == p;
  }
}
