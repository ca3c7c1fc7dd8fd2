/** Transaction ids: a body is hashed as a tree of sixteen raw leaves under one wrapping tag, a paged
    spend as a sponge over its pages. */
module TxHash {
  import opened Powers
  import opened Types
  import opened Merkle
  import opened TxTree

  const BODY_TREE_DEPTH: nat := 4
  const PAGED_SPEND_VERSION: nat := 1

  function Flag(b: bool): u128 { if b then 1 else 0 }

  /** `pack_amount_creation_id`. */
  function Packed(amount: u64, creationId: u64): u128 {
    creationId * U64_LIMIT + amount
  }

  function InputLeaf(input: TxInput): Digest {
    Opaque(Word256(input.slotIndex, Packed(input.amount, input.creationId)))
  }

  function InputLeaves(inputs: seq<TxInput>): seq<Digest> {
    seq(|inputs|, i requires 0 <= i < |inputs| => InputLeaf(inputs[i]))
  }

  function OutputLeaves(outputs: seq<TxOutput>): (leaves: seq<Digest>)
    ensures |leaves| == 2 * |outputs|
  {
    if |outputs| == 0 then []
    else [Opaque(Word256(outputs[0].slotIndex, outputs[0].amount)), Opaque(outputs[0].owner)]
         + OutputLeaves(outputs[1..])
  }

  /** `body_hash_leaves`: sixteen for the fixed shape of eight inputs and two outputs. */
  function BodyLeaves(body: TxBody<Digest>): (leaves: seq<Digest>)
    ensures FixedShape(body) ==> |leaves| == 16
  {
    [body.epochAnchor, Opaque(Word256(body.fee, 0)), Opaque(body.inputOwner)]
    + (InputLeaves(body.inputs) + (OutputLeaves(body.outputs)
    + [Opaque(Word256(body.validityBitmap, Flag(body.isCoinbase)))]))
  }

  function BodyTree(body: TxBody<Digest>): Tree {
    Tree(PlainNode, ZeroDigest, BodyLeaves(body))
  }

  /** `hash_tx_body`. */
  function HashTxBody(body: TxBody<Digest>): Digest {
    var root := BodyTree(body).At(BODY_TREE_DEPTH, 0);
    Sponge(TxBodyTag, [FirstHalf(root), SecondHalf(root)])
  }

  lemma {:induction false} InputLeafBinds(a: TxInput, b: TxInput)
    ensures InputLeaf(a) == InputLeaf(b) <==> a == b
  {
    if Packed(a.amount, a.creationId) == Packed(b.amount, b.creationId) {
      assert a.amount == Packed(a.amount, a.creationId) % U64_LIMIT;
      assert b.amount == Packed(b.amount, b.creationId) % U64_LIMIT;
    }
  }

  lemma {:induction false} InputLeavesBind(a: seq<TxInput>, b: seq<TxInput>)
    ensures InputLeaves(a) == InputLeaves(b) <==> a == b
  {
    if InputLeaves(a) == InputLeaves(b) {
      assert |a| == |InputLeaves(a)| == |b|;
      forall i | 0 <= i < |a|
        ensures a[i] == b[i]
      {
        assert InputLeaves(a)[i] == InputLeaves(b)[i];
        InputLeafBinds(a[i], b[i]);
      }
    }
  }

  lemma {:induction false} OutputLeavesBind(a: seq<TxOutput>, b: seq<TxOutput>)
    ensures OutputLeaves(a) == OutputLeaves(b) <==> a == b
  {
    if OutputLeaves(a) == OutputLeaves(b) {
      assert |a| == |b|;
      if |a| > 0 {
        var s, t := OutputLeaves(a), OutputLeaves(b);
        assert s[0] == t[0] && s[1] == t[1];
        assert s[2..] == OutputLeaves(a[1..]) && t[2..] == OutputLeaves(b[1..]);
        OutputLeavesBind(a[1..], b[1..]);
        assert a == [a[0]] + a[1..] && b == [b[0]] + b[1..];
      } else {
        assert a == [] == b;
      }
    }
  }

  lemma {:induction false} CutLeaves(a: seq<Digest>, b: seq<Digest>, c: seq<Digest>, d: seq<Digest>,
                                     a': seq<Digest>, b': seq<Digest>, c': seq<Digest>, d': seq<Digest>)
    requires |a| == |a'| && |b| == |b'| && |c| == |c'| && a + (b + (c + d)) == a' + (b' + (c' + d'))
    ensures a == a' && b == b' && c == c' && d == d'
  {
    var s, t := a + (b + (c + d)), a' + (b' + (c' + d'));
    assert a == s[..|a|] && a' == t[..|a|] && b + (c + d) == s[|a|..] && b' + (c' + d') == t[|a|..];
    assert b == s[|a|..][..|b|] && b' == t[|a|..][..|b|] && c + d == s[|a|..][|b|..] && c' + d' == t[|a|..][|b|..];
    assert c == (c + d)[..|c|] && c' == (c' + d')[..|c|] && d == (c + d)[|c|..] && d' == (c' + d')[|c|..];
  }

  /** Every field of a body sits in its own leaf. */
  lemma {:induction false} LeavesBindBody(a: Body, b: Body)
    ensures BodyLeaves(a) == BodyLeaves(b) <==> a == b
  {
    if BodyLeaves(a) == BodyLeaves(b) {
      var fixedA := [a.epochAnchor, Opaque(Word256(a.fee, 0)), Opaque(a.inputOwner)];
      var fixedB := [b.epochAnchor, Opaque(Word256(b.fee, 0)), Opaque(b.inputOwner)];
      var flagsA := [Opaque(Word256(a.validityBitmap, Flag(a.isCoinbase)))];
      var flagsB := [Opaque(Word256(b.validityBitmap, Flag(b.isCoinbase)))];
      CutLeaves(fixedA, InputLeaves(a.inputs), OutputLeaves(a.outputs), flagsA,
                fixedB, InputLeaves(b.inputs), OutputLeaves(b.outputs), flagsB);
      assert fixedA[0] == fixedB[0] && fixedA[1] == fixedB[1] && fixedA[2] == fixedB[2] && flagsA[0] == flagsB[0];
      InputLeavesBind(a.inputs, b.inputs);
      OutputLeavesBind(a.outputs, b.outputs);
    }
  }

  // The leaf array, as the code fills it.

  const LEAF_EPOCH_ANCHOR: nat := 0
  const LEAF_FEE: nat := 1
  const LEAF_INPUT_OWNER: nat := 2
  const LEAF_INPUT_BASE: nat := 3
  const LEAF_OUTPUT_DATA: nat := 11
  const LEAF_OUTPUT_OWNER: nat := 12
  const LEAF_FLAGS: nat := 15

  /** Where every field of a body is hashed. */
  lemma {:induction false} LeavesByIndex(body: Body)
    ensures var leaves := BodyLeaves(body);
            && |leaves| == 16 && leaves[0] == body.epochAnchor && leaves[1] == Opaque(Word256(body.fee, 0))
            && leaves[2] == Opaque(body.inputOwner)
            && (forall i :: 0 <= i < 8 ==> leaves[3 + i] == InputLeaf(body.inputs[i]))
            && leaves[11] == Opaque(Word256(body.outputs[0].slotIndex, body.outputs[0].amount))
            && leaves[12] == Opaque(body.outputs[0].owner)
            && leaves[13] == Opaque(Word256(body.outputs[1].slotIndex, body.outputs[1].amount))
            && leaves[14] == Opaque(body.outputs[1].owner)
            && leaves[15] == Opaque(Word256(body.validityBitmap, if body.isCoinbase then 1 else 0))
  {
    assert OutputLeaves(body.outputs[1..][1..]) == [];
    var rest := OutputLeaves(body.outputs[1..]);
    assert rest[0] == Opaque(Word256(body.outputs[1].slotIndex, body.outputs[1].amount));
  }

  /** `body_hash_leaves`: the in-place filling puts every field in the leaf its constant names. */
  method BodyHashLeavesInto(body: Body, leaves: array<Digest>)
    requires leaves.Length == 16
    modifies leaves
    ensures leaves[..] == BodyLeaves(body)
  {
    LeavesByIndex(body);
    leaves[LEAF_EPOCH_ANCHOR] := body.epochAnchor;
    leaves[LEAF_FEE] := Opaque(Word256(body.fee, 0));
    leaves[LEAF_INPUT_OWNER] := Opaque(body.inputOwner);
    ghost var expected := BodyLeaves(body);
    for i := 0 to TX_INPUTS
      invariant forall k :: 0 <= k < 3 + i ==> leaves[k] == expected[k]
    {
      var input := body.inputs[i];
      leaves[LEAF_INPUT_BASE + i] :=
        Opaque(Word256(input.slotIndex, input.creationId * U64_LIMIT + input.amount));
      assert leaves[3 + i] == InputLeaf(body.inputs[i]);
    }
    for o := 0 to TX_OUTPUTS
      invariant forall k :: 0 <= k < 11 + 2 * o ==> leaves[k] == expected[k]
    {
      var output := body.outputs[o];
      leaves[LEAF_OUTPUT_DATA + 2 * o] := Opaque(Word256(output.slotIndex, output.amount));
      leaves[LEAF_OUTPUT_OWNER + 2 * o] := Opaque(output.owner);
    }
    leaves[LEAF_FLAGS] := Opaque(Word256(body.validityBitmap, if body.isCoinbase then 1 else 0));
    assert forall k :: 0 <= k < 16 ==> leaves[..][k] == expected[k];
  }

  /** `hash_tx8x2_leaves`: four rounds of pairwise compression and one wrapping sponge. */
  method HashLeaves(leaves: seq<Digest>) returns (id: Digest)
    requires |leaves| == 16
    ensures var root := Tree(PlainNode, ZeroDigest, leaves).At(4, 0);
            id == Sponge(TxBodyTag, [FirstHalf(root), SecondHalf(root)])
  {
    var layer := leaves;
    ghost var t := Tree(PlainNode, ZeroDigest, leaves);
    assert Pow2(4) == 16;
    for round := 0 to BODY_TREE_DEPTH
      invariant IsLayer(layer, t, round, 4)
    {
      var next := NextLayer(layer);
      LayerUp(layer, next, t, round, 4);
      layer := next;
    }
    id := Sponge(TxBodyTag, [FirstHalf(layer[0]), SecondHalf(layer[0])]);
  }

  /** `hash_tx_body`, as the code computes it. */
  method HashBody(body: Body) returns (id: Digest)
    ensures id == HashTxBody(body)
  {
    var leaves := new Digest[16](_ => ZeroDigest);
    BodyHashLeavesInto(body, leaves);
    id := HashLeaves(leaves[..]);
  }

  /** The body hash binds the body. */
  lemma {:induction false} BodyHashBinds(a: Body, b: Body)
    ensures HashTxBody(a) == HashTxBody(b) <==> a == b
  {
    var s, t := BodyTree(a), BodyTree(b);
    NodeBindsLeaves(s, t, BODY_TREE_DEPTH, 0);
    if HashTxBody(a) == HashTxBody(b) {
      var ra, rb := s.At(BODY_TREE_DEPTH, 0), t.At(BODY_TREE_DEPTH, 0);
      assert [FirstHalf(ra), SecondHalf(ra)][0] == [FirstHalf(rb), SecondHalf(rb)][0];
      forall i | 0 <= i < 16
        ensures s.leaves[i] == t.leaves[i]
      {
        assert Pow2(BODY_TREE_DEPTH) == 16;
        InDomain(i, BODY_TREE_DEPTH);
        assert s.Leaf(i) == t.Leaf(i);
      }
      LeavesBindBody(a, b);
    }
  }

  function PageHalves(group: seq<TxBody<Digest>>): (lanes: seq<Lane>)
    ensures |lanes| == 2 * |group|
  {
    if |group| == 0 then []
    else PageHalves(group[..|group| - 1])
         + [FirstHalf(HashTxBody(group[|group| - 1])), SecondHalf(HashTxBody(group[|group| - 1]))]
  }

  /** `hash_paged_spend`: version and page count, then both halves of every page hash. */
  function HashPagedSpend(group: seq<TxBody<Digest>>): Digest {
    Sponge(PagedSpendTag, [Scalar(PAGED_SPEND_VERSION), Scalar(|group|)] + PageHalves(group))
  }

  /** `hash_paged_spend_unchecked`: absorb the version and the page count, then page by page. */
  method HashPages(pages: seq<Body>) returns (id: Digest)
    ensures id == HashPagedSpend(pages)
  {
    var absorbed := [Scalar(1), Scalar(|pages|)];
    for p := 0 to |pages|
      invariant absorbed == [Scalar(1), Scalar(|pages|)] + PageHalves(pages[..p])
    {
      var hash := HashBody(pages[p]);
      absorbed := absorbed + [FirstHalf(hash), SecondHalf(hash)];
      assert pages[..p + 1][..p] == pages[..p];
    }
    assert pages[..|pages|] == pages;
    id := Sponge(PagedSpendTag, absorbed);
  }

  lemma {:induction false} HalvesBind(a: seq<Body>, b: seq<Body>)
    requires |a| == |b|
    ensures PageHalves(a) == PageHalves(b) <==> a == b
  {
    if |a| > 0 && PageHalves(a) == PageHalves(b) {
      var n := |a| - 1;
      var s, t := PageHalves(a), PageHalves(b);
      assert s[..2 * n] == PageHalves(a[..n]) && t[..2 * n] == PageHalves(b[..n]);
      assert s[2 * n] == t[2 * n];
      HalvesBind(a[..n], b[..n]);
      BodyHashBinds(a[n], b[n]);
      assert a == a[..n] + [a[n]] && b == b[..n] + [b[n]];
    }
  }

  /** The logical id binds the number of pages and every page in order. */
  lemma {:induction false} PagedHashBinds(a: seq<Body>, b: seq<Body>)
    ensures HashPagedSpend(a) == HashPagedSpend(b) <==> a == b
  {
    if HashPagedSpend(a) == HashPagedSpend(b) {
      var s := [Scalar(PAGED_SPEND_VERSION), Scalar(|a|)] + PageHalves(a);
      var t := [Scalar(PAGED_SPEND_VERSION), Scalar(|b|)] + PageHalves(b);
      assert s[1] == t[1];
      assert s[2..] == PageHalves(a) && t[2..] == PageHalves(b);
      HalvesBind(a, b);
    }
  }
}
