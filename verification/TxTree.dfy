/** The count-bound transaction tree: root, inclusion paths, verification, and the path inputs the
    witness hands to the prover. Every claim holds for any depth; the chain uses eight. */
module TxTree {
  import opened Powers
  import opened Types
  import opened Merkle

  const TX_TREE_DEPTH: nat := 8
  const TX_TREE_LEAVES: nat := 256
  const MAX_MERKLE_DEPTH: nat := 32

  lemma {:induction false} UniversalTreeSize()
    ensures Pow2(TX_TREE_DEPTH) == TX_TREE_LEAVES
  {
    assert Pow2(4) == 16;
    Pow2Sum(4, 4);
  }

  function HashTree(hashes: seq<Digest>): Tree {
    Tree(PlainNode, ZeroDigest, hashes)
  }

  function BindTxCount(merkleRoot: Digest, count: nat): Digest {
    Node(TxCountNode, merkleRoot, CountDigest(count))
  }

  /** The header commitment of a transaction list; the empty list is genesis. */
  function TxRoot(hashes: seq<Digest>, depth: nat): Digest {
    if |hashes| == 0 then ZeroDigest else BindTxCount(HashTree(hashes).At(depth, 0), |hashes|)
  }

  /** `index ^ 1`. */
  function Flip(index: nat): nat {
    if index % 2 == 0 then index + 1 else index - 1
  }

  /** The digest beside the path at one level. */
  function SiblingAt(t: Tree, index: nat, level: nat): Digest {
    t.At(level, Flip(Shr(index, level)))
  }

  function Path(t: Tree, index: nat, depth: nat): seq<Digest> {
    seq(depth, level requires 0 <= level < depth => SiblingAt(t, index, level))
  }

  function FoldPath(leaf: Digest, path: seq<Digest>, index: nat): Digest {
    if |path| == 0 then leaf
    else
      var level := |path| - 1;
      var current := FoldPath(leaf, path[..level], index);
      if Shr(index, level) % 2 == 1 then Node(PlainNode, path[level], current)
      else Node(PlainNode, current, path[level])
  }

  /** One compression reaches a parent exactly when both children are right. */
  lemma {:induction false} JoinReachesParent(t: Tree, level: nat, index: nat, current: Digest, sibling: Digest)
    requires t.tag == PlainNode
    ensures (if index % 2 == 1 then Node(PlainNode, sibling, current) else Node(PlainNode, current, sibling))
            == t.At(level + 1, index / 2) <==>
            current == t.At(level, index) && sibling == t.At(level, Flip(index))
  {
  }

  lemma {:induction false} PathSnoc(t: Tree, index: nat, level: nat)
    ensures Path(t, index, level + 1) == Path(t, index, level) + [t.At(level, Flip(Shr(index, level)))]
  {
  }

  /** A path folds to the tree's own node exactly when it is the tree's own path to its own leaf. */
  lemma {:induction false} FoldReachesNode(t: Tree, leaf: Digest, path: seq<Digest>, index: nat)
    requires t.tag == PlainNode
    ensures FoldPath(leaf, path, index) == t.At(|path|, Shr(index, |path|)) <==>
            leaf == t.Leaf(index) && path == Path(t, index, |path|)
  {
    if |path| == 0 {
      assert Shr(index, 0) == index && path == Path(t, index, 0);
    } else {
      var level := |path| - 1;
      var front := path[..level];
      FoldReachesNode(t, leaf, front, index);
      JoinReachesParent(t, level, Shr(index, level), FoldPath(leaf, front, index), path[level]);
      PathSnoc(t, index, level);
      assert path == front + [path[level]];
    }
  }

  /** Hash adjacent pairs: one layer up. */
  method NextLayer(layer: seq<Digest>) returns (next: seq<Digest>)
    ensures |next| == |layer| / 2
    ensures forall j :: 0 <= j < |next| ==> next[j] == Node(PlainNode, layer[2 * j], layer[2 * j + 1])
  {
    next := [];
    for j := 0 to |layer| / 2
      invariant |next| == j
      invariant forall k :: 0 <= k < j ==> next[k] == Node(PlainNode, layer[2 * k], layer[2 * k + 1])
    {
      next := next + [Node(PlainNode, layer[2 * j], layer[2 * j + 1])];
    }
  }

  predicate IsLayer(layer: seq<Digest>, t: Tree, level: nat, depth: nat) {
    && level <= depth && |layer| == Pow2(depth - level)
    && forall j :: 0 <= j < |layer| ==> layer[j] == t.At(level, j)
  }

  function Padded(hashes: seq<Digest>, depth: nat): seq<Digest> {
    seq(Pow2(depth), i requires 0 <= i => if i < |hashes| then hashes[i] else ZeroDigest)
  }

  method RootFromHashes(hashes: seq<Digest>, depth: nat) returns (root: Digest)
    requires |hashes| <= Pow2(depth)
    ensures root == TxRoot(hashes, depth)
    ensures |hashes| > 0 ==>
              root == Node(TxCountNode, Tree(PlainNode, ZeroDigest, hashes).At(depth, 0), CountDigest(|hashes|))
  {
    if |hashes| == 0 {
      return ZeroDigest;
    }
    var layer := Padded(hashes, depth);
    ghost var level := 0;
    while |layer| > 1
      invariant IsLayer(layer, HashTree(hashes), level, depth)
      decreases |layer|
    {
      layer := NextLayer(layer);
      level := level + 1;
    }
    root := BindTxCount(layer[0], |hashes|);
  }

  method PathFromHashes(hashes: seq<Digest>, txIndex: nat, depth: nat) returns (path: seq<Digest>)
    requires txIndex < |hashes| <= Pow2(depth)
    ensures path == Path(HashTree(hashes), txIndex, depth)
  {
    var layer := Padded(hashes, depth);
    path := [];
    var index := txIndex;
    ghost var t := HashTree(hashes);
    ghost var level := 0;
    while |layer| > 1
      invariant IsLayer(layer, t, level, depth)
      invariant index == Shr(txIndex, level)
      invariant |path| == level && forall k :: 0 <= k < level ==> path[k] == SiblingAt(t, txIndex, k)
      decreases |layer|
    {
      IndexStaysInLayer(txIndex, level, depth);
      var next := NextLayer(layer);
      LayerUp(layer, next, t, level, depth);
      assert layer[Flip(index)] == SiblingAt(t, txIndex, level);
      path := path + [layer[Flip(index)]];
      layer := next;
      index := index / 2;
      level := level + 1;
    }
  }

  lemma {:induction false} LayerUp(layer: seq<Digest>, next: seq<Digest>, t: Tree, level: nat, depth: nat)
    requires t.tag == PlainNode && IsLayer(layer, t, level, depth) && |layer| > 1 && |next| == |layer| / 2
    requires forall j :: 0 <= j < |next| ==> next[j] == Node(PlainNode, layer[2 * j], layer[2 * j + 1])
    ensures IsLayer(next, t, level + 1, depth)
  {
  }

  lemma {:induction false} IndexStaysInLayer(index: nat, level: nat, depth: nat)
    requires level < depth && index < Pow2(depth)
    ensures Shr(index, level) < Pow2(depth - level) && Flip(Shr(index, level)) < Pow2(depth - level)
    ensures Shr(index, level + 1) < Pow2(depth - level - 1)
  {
    InDomain(index, depth);
    ShrSum(index, level, depth - level);
    InDomain(Shr(index, level), depth - level);
    ShrSum(index, level + 1, depth - level - 1);
    InDomain(Shr(index, level + 1), depth - level - 1);
  }

  method VerifyPath(leaf: Digest, path: seq<Digest>, txIndex: nat, txCount: nat, claimed: Digest) returns (ok: bool)
    ensures ok <==> 1 <= txCount <= Pow2(|path|) && txIndex < txCount
                    && Node(TxCountNode, FoldPath(leaf, path, txIndex), CountDigest(txCount)) == claimed
  {
    if txCount < 1 || txCount > Pow2(|path|) || txIndex >= txCount {
      return false;
    }
    var current := leaf;
    for level := 0 to |path|
      invariant current == FoldPath(leaf, path[..level], txIndex)
    {
      current := if Shr(txIndex, level) % 2 == 1 then Node(PlainNode, path[level], current)
                 else Node(PlainNode, current, path[level]);
      assert path[..level + 1][..level] == path[..level];
    }
    assert path[..|path|] == path;
    ok := BindTxCount(current, txCount) == claimed;
  }

  /** What `verify_path` decides. */
  predicate Verifies(leaf: Digest, path: seq<Digest>, txIndex: nat, txCount: nat, claimed: Digest) {
    1 <= txCount <= Pow2(|path|) && txIndex < txCount && BindTxCount(FoldPath(leaf, path, txIndex), txCount) == claimed
  }

  /** Complete and sound at once: against the root of a list, exactly that list's own leaves, at
      their own positions, with their own paths and the list's own length, verify. */
  lemma {:induction false} VerifiesExactly(hashes: seq<Digest>, leaf: Digest, path: seq<Digest>, txIndex: nat,
                                           txCount: nat)
    requires |hashes| <= Pow2(|path|)
    ensures Verifies(leaf, path, txIndex, txCount, TxRoot(hashes, |path|)) <==>
            && txIndex < |hashes| && txCount == |hashes| && leaf == hashes[txIndex]
            && path == Path(HashTree(hashes), txIndex, |path|)
  {
    if txIndex < Pow2(|path|) {
      InDomain(txIndex, |path|);
      FoldReachesNode(HashTree(hashes), leaf, path, txIndex);
    }
  }

  /** The root determines the list, its length included. */
  lemma {:induction false} TxRootInjective(a: seq<Digest>, b: seq<Digest>, depth: nat)
    requires |a| <= Pow2(depth) && |b| <= Pow2(depth)
    requires TxRoot(a, depth) == TxRoot(b, depth)
    ensures a == b
  {
    if |a| > 0 {
      NodeBindsLeaves(HashTree(a), HashTree(b), depth, 0);
      forall i | 0 <= i < |a|
        ensures a[i] == b[i]
      {
        InDomain(i, depth);
        assert HashTree(a).Leaf(i) == HashTree(b).Leaf(i);
      }
    }
  }

  // The witness side: all levels stored, then one path per leaf.

  datatype MerklePathInputs = MerklePathInputs(
    leaf: Digest, siblings: seq<Digest>, directions: seq<bool>, expectedRoot: Digest, activeDepth: nat)

  /** The inputs of one leaf: its path and index bits, padded out to the fixed width. */
  predicate PathInputsFor(inputs: MerklePathInputs, hashes: seq<Digest>, index: nat, depth: nat)
    requires depth <= MAX_MERKLE_DEPTH
  {
    && index < |hashes| && inputs.leaf == hashes[index]
    && |inputs.siblings| == |inputs.directions| == MAX_MERKLE_DEPTH && inputs.activeDepth == depth
    && inputs.siblings[..depth] == Path(HashTree(hashes), index, depth)
    && (forall level :: 0 <= level < depth ==> inputs.directions[level] == (Shr(index, level) % 2 == 1))
    && (forall level :: depth <= level < MAX_MERKLE_DEPTH ==>
         inputs.siblings[level] == ZeroDigest && !inputs.directions[level])
    && inputs.expectedRoot == HashTree(hashes).At(depth, 0)
  }

  method BuildLevels(hashes: seq<Digest>, depth: nat) returns (levels: seq<seq<Digest>>)
    requires |hashes| <= Pow2(depth)
    ensures |levels| == depth + 1
    ensures forall level :: 0 <= level <= depth ==> IsLayer(levels[level], HashTree(hashes), level, depth)
  {
    var level := Padded(hashes, depth);
    levels := [level];
    while |level| > 1
      invariant 0 < |levels| <= depth + 1 && level == levels[|levels| - 1]
      invariant forall k :: 0 <= k < |levels| ==> IsLayer(levels[k], HashTree(hashes), k, depth)
      decreases |level|
    {
      level := NextLayer(level);
      levels := levels + [level];
    }
  }

  /** Reading a sibling out of the stored levels. */
  lemma {:induction false} StoredSibling(layer: seq<Digest>, t: Tree, index: nat, level: nat, depth: nat)
    requires IsLayer(layer, t, level, depth) && level < depth && index < Pow2(depth)
    ensures Flip(Shr(index, level)) < |layer| && layer[Flip(Shr(index, level))] == SiblingAt(t, index, level)
  {
    IndexStaysInLayer(index, level, depth);
  }

  /** Walk from a leaf to the root; `spots` are the indices met on the way. */
  method FillPath(levels: seq<seq<Digest>>, ghost path: seq<Digest>, ghost spots: seq<nat>, leafIndex: nat)
    returns (siblings: array<Digest>, directions: array<bool>)
    requires |path| <= MAX_MERKLE_DEPTH && |levels| == |path| + 1 == |spots| && spots[0] == leafIndex
    requires forall k :: 0 <= k < |path| ==> spots[k + 1] == spots[k] / 2
    requires forall k :: 0 <= k < |path| ==> Flip(spots[k]) < |levels[k]| && levels[k][Flip(spots[k])] == path[k]
    ensures siblings.Length == directions.Length == MAX_MERKLE_DEPTH
    ensures forall k :: 0 <= k < |path| ==> siblings[k] == path[k]
    ensures forall k :: 0 <= k < |path| ==> directions[k] == (spots[k] % 2 == 1)
    ensures forall k :: |path| <= k < MAX_MERKLE_DEPTH ==> siblings[k] == ZeroDigest && !directions[k]
  {
    siblings := new Digest[MAX_MERKLE_DEPTH](_ => ZeroDigest);
    directions := new bool[MAX_MERKLE_DEPTH](_ => false);
    var index := leafIndex;
    for level := 0 to |levels| - 1
      invariant index == spots[level]
      invariant forall k :: 0 <= k < level ==> siblings[k] == path[k]
      invariant forall k :: 0 <= k < level ==> directions[k] == (spots[k] % 2 == 1)
      invariant forall k :: level <= k < MAX_MERKLE_DEPTH ==> siblings[k] == ZeroDigest && !directions[k]
    {
      siblings[level] := levels[level][Flip(index)];
      directions[level] := index % 2 == 1;
      index := index / 2;
    }
  }

  method LeafInputs(levels: seq<seq<Digest>>, hashes: seq<Digest>, leafIndex: nat, depth: nat, root: Digest)
    returns (inputs: MerklePathInputs)
    requires depth <= MAX_MERKLE_DEPTH && leafIndex < |hashes| <= Pow2(depth) && |levels| == depth + 1
    requires forall level :: 0 <= level <= depth ==> IsLayer(levels[level], HashTree(hashes), level, depth)
    requires root == HashTree(hashes).At(depth, 0)
    ensures PathInputsFor(inputs, hashes, leafIndex, depth)
  {
    ghost var path := Path(HashTree(hashes), leafIndex, depth);
    forall k | 0 <= k < depth
      ensures Flip(Shr(leafIndex, k)) < |levels[k]| && levels[k][Flip(Shr(leafIndex, k))] == path[k]
    {
      StoredSibling(levels[k], HashTree(hashes), leafIndex, k, depth);
    }
    ghost var spots := seq(depth + 1, k requires 0 <= k => Shr(leafIndex, k));
    var siblings, directions := FillPath(levels, path, spots, leafIndex);
    assert IsLayer(levels[0], HashTree(hashes), 0, depth);
    inputs := MerklePathInputs(levels[0][leafIndex], siblings[..], directions[..], root, depth);
    assert inputs.siblings[..depth] == path;
  }

  /** `tx_root_merkle_inputs`; no result stands for the one error it returns. */
  method TxRootMerkleInputs(txRoot: Digest, hashes: seq<Digest>) returns (r: Option<seq<MerklePathInputs>>)
    ensures r.Some? <==> 1 <= |hashes| <= TX_TREE_LEAVES && txRoot == TxRoot(hashes, TX_TREE_DEPTH)
    ensures r.Some? ==> |r.value| == |hashes|
    ensures r.Some? ==> forall i :: 0 <= i < |hashes| ==> PathInputsFor(r.value[i], hashes, i, TX_TREE_DEPTH)
  {
    UniversalTreeSize();
    if |hashes| == 0 || |hashes| > TX_TREE_LEAVES {
      return None;
    }
    var levels := BuildLevels(hashes, TX_TREE_DEPTH);
    assert IsLayer(levels[TX_TREE_DEPTH], HashTree(hashes), TX_TREE_DEPTH, TX_TREE_DEPTH);
    var root := levels[TX_TREE_DEPTH][0];
    if BindTxCount(root, |hashes|) != txRoot {
      return None;
    }
    var inputs: seq<MerklePathInputs> := [];
    for i := 0 to |hashes|
      invariant |inputs| == i
      invariant forall k :: 0 <= k < i ==> PathInputsFor(inputs[k], hashes, k, TX_TREE_DEPTH)
    {
      var next := LeafInputs(levels, hashes, i, TX_TREE_DEPTH, root);
      inputs := inputs + [next];
    }
    r := Some(inputs);
  }

  /** The prover's inputs and the light client's path are the same evidence. */
  lemma {:induction false} PathInputsVerify(inputs: MerklePathInputs, hashes: seq<Digest>, index: nat, depth: nat)
    requires depth <= MAX_MERKLE_DEPTH && |hashes| <= Pow2(depth)
    requires PathInputsFor(inputs, hashes, index, depth)
    ensures Verifies(inputs.leaf, inputs.siblings[..depth], index, |hashes|, TxRoot(hashes, depth))
    ensures BindTxCount(inputs.expectedRoot, |hashes|) == TxRoot(hashes, depth)
  {
    VerifiesExactly(hashes, inputs.leaf, inputs.siblings[..depth], index, |hashes|);
  }
}
