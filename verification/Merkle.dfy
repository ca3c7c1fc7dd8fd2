/** Binary Merkle trees addressed by `(level, index)`. A tree is a vector of leaf digests followed
    by an endless run of one pad digest, so a node never depends on how far the vector is stored. */
module Merkle {
  import opened Powers
  import opened Types

  datatype Tree = Tree(tag: NodeTag, pad: Digest, leaves: seq<Digest>) {
    function Leaf(i: nat): Digest {
      if i < |leaves| then leaves[i] else pad
    }

    function At(level: nat, index: nat): Digest {
      if level == 0 then Leaf(index)
      else Node(tag, At(level - 1, 2 * index), At(level - 1, 2 * index + 1))
    }
  }

  /** The root of a perfect tree all of whose leaves are `pad`. */
  function UniformRoot(tag: NodeTag, pad: Digest, level: nat): Digest {
    if level == 0 then pad
    else Node(tag, UniformRoot(tag, pad, level - 1), UniformRoot(tag, pad, level - 1))
  }

  ghost predicate AgreeUnder(s: Tree, t: Tree, level: nat, index: nat) {
    forall i: nat :: Shr(i, level) == index ==> s.Leaf(i) == t.Leaf(i)
  }

  lemma {:induction false} ChildrenAgree(s: Tree, t: Tree, level: nat, index: nat)
    requires level > 0
    ensures AgreeUnder(s, t, level, index) <==>
            AgreeUnder(s, t, level - 1, 2 * index) && AgreeUnder(s, t, level - 1, 2 * index + 1)
  {
    forall i: nat
      ensures Shr(i, level) == index <==>
              Shr(i, level - 1) == 2 * index || Shr(i, level - 1) == 2 * index + 1
    {}
  }

  /** A node is a function of the leaves below it, and determines each of them. */
  lemma {:induction false} NodeBindsLeaves(s: Tree, t: Tree, level: nat, index: nat)
    requires s.tag == t.tag
    ensures s.At(level, index) == t.At(level, index) <==> AgreeUnder(s, t, level, index)
  {
    if level == 0 {
      assert Shr(index, 0) == index;
    } else {
      ChildrenAgree(s, t, level, index);
      NodeBindsLeaves(s, t, level - 1, 2 * index);
      NodeBindsLeaves(s, t, level - 1, 2 * index + 1);
    }
  }

  /** A region without stored leaves hashes to the uniform root. */
  lemma {:induction false} UnstoredRegion(t: Tree, level: nat, index: nat)
    requires forall i: nat :: Shr(i, level) == index ==> t.Leaf(i) == t.pad
    ensures t.At(level, index) == UniformRoot(t.tag, t.pad, level)
  {
    if level == 0 {
      assert Shr(index, 0) == index;
    } else {
      forall i: nat | Shr(i, level - 1) / 2 == index
        ensures t.Leaf(i) == t.pad
      {
        assert Shr(i, level) == index;
      }
      UnstoredRegion(t, level - 1, 2 * index);
      UnstoredRegion(t, level - 1, 2 * index + 1);
    }
  }

  /** Two levels of tree: the nodes at `base` are the leaves of a tree of their own. */
  lemma {:induction false} UpperTree(t: Tree, upper: Tree, base: nat, level: nat, index: nat)
    requires t.tag == upper.tag
    requires forall i: nat :: upper.Leaf(i) == t.At(base, i)
    ensures t.At(base + level, index) == upper.At(level, index)
  {
    if level == 0 {
    } else {
      UpperTree(t, upper, base, level - 1, 2 * index);
      UpperTree(t, upper, base, level - 1, 2 * index + 1);
    }
  }

  /** A subtree is the tree of its own leaves: `local` holds the leaves below `(span, block)`. */
  lemma {:induction false} LocalTree(t: Tree, local: Tree, span: nat, block: nat, level: nat, index: nat)
    requires t.tag == local.tag
    requires level <= span && Shr(index, span - level) == 0
    requires forall i: nat :: Shr(i, span) == 0 ==> local.Leaf(i) == t.Leaf(Shl(block, span) + i)
    ensures local.At(level, index) == t.At(level, Shl(block, span - level) + index)
  {
    if level == 0 {
    } else {
      var rest := span - level;
      assert Shl(block, rest + 1) == 2 * Shl(block, rest);
      ShrDouble(index, rest);
      ShrOddDouble(index, rest);
      LocalTree(t, local, span, block, level - 1, 2 * index);
      LocalTree(t, local, span, block, level - 1, 2 * index + 1);
    }
  }

  lemma {:induction false} ShrOddDouble(i: nat, n: nat)
    ensures Shr(2 * i + 1, n + 1) == Shr(i, n)
  {
    ShrSum(2 * i + 1, 1, n);
    assert Shr(2 * i + 1, 1) == i by { assert Shr(2 * i + 1, 0) == 2 * i + 1; }
  }
}
