/** The header-chain anchor: recomputed from genesis or extended one header at a time. */
module HeaderAnchor {
  import opened Types
  import opened HeaderHash

  datatype HeaderChainAnchor = HeaderChainAnchor(
    height: u64, blockId: Digest, stateRoot: Digest, txRoot: Digest, minerAddress: Address,
    logSlots: u32, activeSlotCount: u64, allocCounter: u64, cumulativeChainwork: Word256)

  datatype HeaderChainAnchorError =
    | Empty
    | StartsAfterGenesis(firstHeight: u64)
    | NonContiguous(expected: u64, actual: u64)
    | BadParentLink(height: u64)

  function AnchorOf(header: Header, work: Word256): HeaderChainAnchor {
    HeaderChainAnchor(header.height, HashBlockHeader(header), header.stateRoot, header.txRoot, header.minerAddress,
                      header.logSlots, header.activeSlotCount, header.allocCounter, work)
  }

  /** The anchor carries the tip: every field is the header's field of the same name. */
  predicate Names(anchor: HeaderChainAnchor, tip: Header, work: Word256) {
    && anchor.height == tip.height && anchor.blockId == HashBlockHeader(tip)
    && anchor.stateRoot == tip.stateRoot && anchor.txRoot == tip.txRoot && anchor.minerAddress == tip.minerAddress
    && anchor.logSlots == tip.logSlots && anchor.activeSlotCount == tip.activeSlotCount
    && anchor.allocCounter == tip.allocCounter && anchor.cumulativeChainwork == work
  }

  function NextHeight(height: u64): u64 {
    if height + 1 < U64_LIMIT then height + 1 else height
  }

  /** `extend_header_chain_anchor`. */
  function Extend(previous: HeaderChainAnchor, header: Header, work: Word256)
    : Result<HeaderChainAnchor, HeaderChainAnchorError>
  {
    if header.height != NextHeight(previous.height) then Err(NonContiguous(NextHeight(previous.height), header.height))
    else if header.prevBlockHash != previous.blockId then Err(BadParentLink(header.height))
    else Ok(AnchorOf(header, work))
  }

  /** An extension is accepted exactly for the next height under the previous tip's id, and then names
      the new tip; the height is judged first. */
  lemma {:induction false} ExtendExactly(previous: HeaderChainAnchor, header: Header, work: Word256)
    ensures var next := previous.height as nat + 1;
            var expected := if next < U64_LIMIT then next else previous.height;
            var r := Extend(previous, header, work);
            && (r.Ok? <==> header.height == expected && header.prevBlockHash == previous.blockId)
            && (r.Ok? ==> Names(r.value, header, work))
            && (header.height != expected ==> r == Err(NonContiguous(expected, header.height)))
            && (r.Err? && header.height == expected ==> r == Err(BadParentLink(header.height)))
  {
  }

  /** Start at genesis and extend by one header at a time, each with its own chainwork. */
  function ExtendAll(headers: seq<Header>, works: seq<Word256>): Result<HeaderChainAnchor, HeaderChainAnchorError>
    requires |works| == |headers|
  {
    if |headers| == 0 then Err(Empty)
    else if headers[0].height != 0 then Err(StartsAfterGenesis(headers[0].height))
    else if |headers| == 1 then Ok(AnchorOf(headers[0], works[0]))
    else match ExtendAll(headers[..|headers| - 1], works[..|headers| - 1])
      case Err(error) => Err(error)
      case Ok(previous) => Extend(previous, headers[|headers| - 1], works[|headers| - 1])
  }

  lemma {:induction false} AnchorIsTip(headers: seq<Header>, works: seq<Word256>)
    requires |works| == |headers| && ExtendAll(headers, works).Ok?
    ensures ExtendAll(headers, works).value == AnchorOf(headers[|headers| - 1], works[|headers| - 1])
  {
  }

  lemma {:induction false} ErrorStays(headers: seq<Header>, works: seq<Word256>, k: nat)
    requires |works| == |headers| && 0 < k <= |headers| && ExtendAll(headers[..k], works[..k]).Err?
    ensures ExtendAll(headers, works) == ExtendAll(headers[..k], works[..k])
    decreases |headers| - k
  {
    if k == |headers| {
      assert headers[..k] == headers && works[..k] == works;
    } else {
      assert headers[..k + 1][..k] == headers[..k] && works[..k + 1][..k] == works[..k];
      ErrorStays(headers, works, k + 1);
    }
  }

  lemma {:induction false} OnePrefix(headers: seq<Header>, works: seq<Word256>)
    requires |works| == |headers| > 0 && headers[0].height == 0
    ensures ExtendAll(headers[..1], works[..1]) == Ok(AnchorOf(headers[0], works[0]))
  {
  }

  lemma {:induction false} ExtendPrefix(headers: seq<Header>, works: seq<Word256>, k: nat)
    requires |works| == |headers| && 0 < k < |headers| && ExtendAll(headers[..k], works[..k]).Ok?
    ensures ExtendAll(headers[..k + 1], works[..k + 1])
         == Extend(AnchorOf(headers[k - 1], works[k - 1]), headers[k], works[k])
  {
    assert headers[..k + 1][..k] == headers[..k] && works[..k + 1][..k] == works[..k];
    AnchorIsTip(headers[..k], works[..k]);
  }

  /** `compute_header_chain_anchor`: one pass from genesis. It equals extending header by header, on
      every prefix and with the same first error, whatever chainwork the earlier steps carried. */
  method ComputeHeaderChainAnchor(headers: seq<Header>, work: Word256, ghost works: seq<Word256>)
    returns (r: Result<HeaderChainAnchor, HeaderChainAnchorError>)
    requires |works| == |headers| && (|works| > 0 ==> works[|works| - 1] == work)
    ensures r == ExtendAll(headers, works)
    ensures r.Ok? ==> |headers| > 0 && Names(r.value, headers[|headers| - 1], work)
  {
    if |headers| == 0 {
      return Err(Empty);
    }
    if headers[0].height != 0 {
      return Err(StartsAfterGenesis(headers[0].height));
    }
    var expected: u64 := 0;
    var previous := ZeroDigest;
    OnePrefix(headers, works);
    for k := 0 to |headers|
      invariant k == 0 ==> expected == 0
      invariant k > 0 ==> expected == NextHeight(headers[k - 1].height) && previous == HashBlockHeader(headers[k - 1])
      invariant k > 0 ==> ExtendAll(headers[..k], works[..k]).Ok?
    {
      var header := headers[k];
      if k > 0 {
        ExtendPrefix(headers, works, k);
      }
      if header.height != expected {
        ErrorStays(headers, works, k + 1);
        return Err(NonContiguous(expected, header.height));
      }
      if header.height > 0 && header.prevBlockHash != previous {
        ErrorStays(headers, works, k + 1);
        return Err(BadParentLink(header.height));
      }
      previous := HashBlockHeader(header);
      expected := NextHeight(expected);
    }
    assert headers[..|headers|] == headers && works[..|headers|] == works;
    AnchorIsTip(headers, works);
    r := Ok(AnchorOf(headers[|headers| - 1], work));
  }

  /** In a valid prefix the genesis header alone has height zero, and every later header names the
      id of the one before it. */
  lemma {:induction false} ValidLinks(headers: seq<Header>, works: seq<Word256>)
    requires |works| == |headers| && ExtendAll(headers, works).Ok?
    ensures |headers| > 0 && (headers[|headers| - 1].height == 0 <==> |headers| == 1)
    ensures |headers| > 1 ==>
              && ExtendAll(headers[..|headers| - 1], works[..|headers| - 1]).Ok?
              && headers[|headers| - 1].prevBlockHash == HashBlockHeader(headers[|headers| - 2])
  {
    if |headers| > 1 {
      AnchorIsTip(headers[..|headers| - 1], works[..|headers| - 1]);
    }
  }

  /** The tip id determines the whole header list. */
  lemma {:induction false} TipDeterminesChain(a: seq<Header>, b: seq<Header>, worksA: seq<Word256>,
                                              worksB: seq<Word256>)
    requires |worksA| == |a| && |worksB| == |b|
    requires ExtendAll(a, worksA).Ok? && ExtendAll(b, worksB).Ok?
    requires ExtendAll(a, worksA).value.blockId == ExtendAll(b, worksB).value.blockId
    ensures a == b
    decreases |a|
  {
    AnchorIsTip(a, worksA);
    AnchorIsTip(b, worksB);
    ValidLinks(a, worksA);
    ValidLinks(b, worksB);
    BlockIdBindsHeader(a[|a| - 1], b[|b| - 1]);
    if |a| > 1 {
      AnchorIsTip(a[..|a| - 1], worksA[..|a| - 1]);
      AnchorIsTip(b[..|b| - 1], worksB[..|b| - 1]);
      TipDeterminesChain(a[..|a| - 1], b[..|b| - 1], worksA[..|a| - 1], worksB[..|b| - 1]);
      assert a == a[..|a| - 1] + [a[|a| - 1]] && b == b[..|b| - 1] + [b[|b| - 1]];
    } else {
      assert a == [a[0]] && b == [b[0]];
    }
  }
}
