/** Header ids: three tagged sponges over lists of absorbed lanes, and what each id binds. */
module HeaderHash {
  import opened Types

  /** What `hash_block_header` absorbs: the nonce first, then every other field. */
  function HeaderLanes(h: Header): (lanes: seq<Lane>)
    ensures |lanes| == 16
  {
    [Scalar(h.nonce),
     FirstHalf(h.prevBlockHash), SecondHalf(h.prevBlockHash),
     FirstHalf(h.stateRoot), SecondHalf(h.stateRoot),
     FirstHalf(h.txRoot), SecondHalf(h.txRoot),
     Scalar(h.timestamp), Scalar(h.height),
     Scalar(h.minerAddress.first), Scalar(h.minerAddress.second),
     Scalar(h.difficultyTarget.first), Scalar(h.difficultyTarget.second),
     Scalar(h.logSlots), Scalar(h.activeSlotCount), Scalar(h.allocCounter)]
  }

  /** What `semantic_header_id` absorbs: no nonce. */
  function SemanticLanes(h: Header): (lanes: seq<Lane>)
    ensures |lanes| == 15
  {
    [FirstHalf(h.prevBlockHash), SecondHalf(h.prevBlockHash),
     FirstHalf(h.stateRoot), SecondHalf(h.stateRoot),
     FirstHalf(h.txRoot), SecondHalf(h.txRoot),
     Scalar(h.timestamp), Scalar(h.height),
     Scalar(h.minerAddress.first), Scalar(h.minerAddress.second),
     Scalar(h.difficultyTarget.first), Scalar(h.difficultyTarget.second),
     Scalar(h.logSlots), Scalar(h.activeSlotCount), Scalar(h.allocCounter)]
  }

  function HashBlockHeader(header: Header): Digest {
    Sponge(BlockHeaderTag, HeaderLanes(header))
  }

  function SemanticHeaderId(header: Header): Digest {
    Sponge(SemanticHeaderTag, SemanticLanes(header))
  }

  /** `poseidon_pow_digest`, of a field schedule already written out. */
  function PowDigest(fields: seq<Lane>): Digest {
    Sponge(PowHeaderTag, fields)
  }

  /** The semantic list is the block-id list with the nonce dropped from its front. */
  lemma {:induction false} SemanticSkipsNonce(h: Header)
    ensures SemanticLanes(h) == HeaderLanes(h)[1..] && HeaderLanes(h)[0] == Scalar(h.nonce)
  {
  }

  /** No two fields share a lane and none is missing: the fifteen lanes give the template back. */
  lemma {:induction false} LanesBindTemplate(a: Header, b: Header)
    ensures SemanticLanes(a) == SemanticLanes(b) <==> a.(nonce := 0) == b.(nonce := 0)
  {
    var s, t := SemanticLanes(a), SemanticLanes(b);
    if s == t {
      assert s[0] == t[0] && s[2] == t[2] && s[4] == t[4] && s[6] == t[6] && s[7] == t[7];
      assert s[8] == t[8] && s[9] == t[9] && s[10] == t[10] && s[11] == t[11];
      assert s[12] == t[12] && s[13] == t[13] && s[14] == t[14];
    }
  }

  /** The semantic id ignores the nonce and nothing else. */
  lemma {:induction false} SemanticIdBindsTemplate(a: Header, b: Header)
    ensures SemanticHeaderId(a) == SemanticHeaderId(b) <==> a.(nonce := 0) == b.(nonce := 0)
  {
    LanesBindTemplate(a, b);
  }

  /** The block id binds the whole header. */
  lemma {:induction false} BlockIdBindsHeader(a: Header, b: Header)
    ensures HashBlockHeader(a) == HashBlockHeader(b) <==> a == b
  {
    SemanticSkipsNonce(a);
    SemanticSkipsNonce(b);
    LanesBindTemplate(a, b);
  }

  /** A header's three digests are pairwise different, whichever headers they come from. */
  lemma {:induction false} DomainsApart(a: Header, b: Header, fields: seq<Lane>)
    ensures HashBlockHeader(a).domain == BlockHeaderTag && SemanticHeaderId(b).domain == SemanticHeaderTag
    ensures HashBlockHeader(a) != SemanticHeaderId(b)
    ensures PowDigest(fields) != HashBlockHeader(a) && PowDigest(fields) != SemanticHeaderId(a)
  {
  }

  // The proof-of-work schedule.

  const POW_HEADER_FIELD_COUNT: nat := 16
  const POW_NONCE_FIELD_INDEX: nat := 0

  /** Write the next two lanes of `lanes`. */
  method PutPair(out: array<Lane>, index: nat, first: Lane, second: Lane, ghost lanes: seq<Lane>) returns (next: nat)
    requires index + 1 < out.Length && index + 1 < |lanes| && out[..index] == lanes[..index]
    requires first == lanes[index] && second == lanes[index + 1]
    modifies out
    ensures next == index + 2 && out[..next] == lanes[..next]
  {
    out[index] := first;
    out[index + 1] := second;
    next := index + 2;
    assert out[..next] == out[..index] + [first, second] && out[..index] == lanes[..index];
  }

  /** `pow_header_fields_into` writes exactly what the block id absorbs, in the same order, so one
      field vector serves mining and the block id. */
  method PowHeaderFieldsInto(h: Header, out: array<Lane>)
    requires out.Length == POW_HEADER_FIELD_COUNT
    modifies out
    ensures out[..] == HeaderLanes(h)
    ensures out[POW_NONCE_FIELD_INDEX] == Scalar(h.nonce)
  {
    ghost var lanes := HeaderLanes(h);
    out[0] := Scalar(h.nonce);
    var i := 1;
    i := PutPair(out, i, FirstHalf(h.prevBlockHash), SecondHalf(h.prevBlockHash), lanes);
    i := PutPair(out, i, FirstHalf(h.stateRoot), SecondHalf(h.stateRoot), lanes);
    i := PutPair(out, i, FirstHalf(h.txRoot), SecondHalf(h.txRoot), lanes);
    i := PutPair(out, i, Scalar(h.timestamp), Scalar(h.height), lanes);
    i := PutPair(out, i, Scalar(h.minerAddress.first), Scalar(h.minerAddress.second), lanes);
    i := PutPair(out, i, Scalar(h.difficultyTarget.first), Scalar(h.difficultyTarget.second), lanes);
    i := PutPair(out, i, Scalar(h.logSlots), Scalar(h.activeSlotCount), lanes);
    out[i] := Scalar(h.allocCounter);
    assert out[..] == out[..i] + [out[i]] && lanes == lanes[..i] + [lanes[i]];
  }

  /** The mining digest and the block id therefore identify the same headers. */
  lemma {:induction false} PowDigestBindsHeader(a: Header, b: Header)
    ensures PowDigest(HeaderLanes(a)) == PowDigest(HeaderLanes(b)) <==> a == b
  {
    BlockIdBindsHeader(a, b);
  }
}
