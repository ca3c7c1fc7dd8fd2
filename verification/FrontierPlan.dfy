/** The hash plan derived from a touched set, and the evaluation of that plan. */
module FrontierPlan {
  import opened Powers
  import opened Types
  import opened Frontier

  datatype NodeRef = TouchedLeaf(ordinal: nat) | FrontierSibling(ordinal: nat) | Combine(ordinal: nat)

  datatype Pair = Pair(left: NodeRef, right: NodeRef)

  datatype Plan = Plan(
    touchedLeafCount: nat,
    frontierPositions: seq<Position>,
    combines: seq<Pair>,
    root: NodeRef)

  // Geometry: `cells[c]` is the tree cell whose hash combine `c` computes.

  predicate Known(indices: seq<nat>, positions: seq<Position>, cells: seq<Position>, r: NodeRef) {
    match r
    case TouchedLeaf(ordinal) => ordinal < |indices|
    case FrontierSibling(ordinal) => ordinal < |positions|
    case Combine(ordinal) => ordinal < |cells|
  }

  /** Reference `r` stands for the value of tree cell `(level, index)`. */
  predicate Sits(indices: seq<nat>, positions: seq<Position>, cells: seq<Position>, r: NodeRef, level: nat,
                 index: nat)
  {
    && Known(indices, positions, cells, r)
    && Position(level, index) == match r
       case TouchedLeaf(ordinal) => Position(0, indices[ordinal])
       case FrontierSibling(ordinal) => positions[ordinal]
       case Combine(ordinal) => cells[ordinal]
  }

  ghost predicate Touched(indices: seq<nat>, p: Position) {
    exists j :: 0 <= j < |indices| && Shr(indices[j], p.level) == p.nodeIndex
  }

  /** Combine `c` hashes the two children of its touched cell, using only earlier values. */
  ghost predicate CombineOk(indices: seq<nat>, positions: seq<Position>, combines: seq<Pair>, cells: seq<Position>,
                            c: nat)
    requires c < |combines| == |cells|
  {
    var cell, pair := cells[c], combines[c];
    && cell.level > 0 && Touched(indices, cell)
    && Sits(indices, positions, cells[..c], pair.left, cell.level - 1, 2 * cell.nodeIndex)
    && Sits(indices, positions, cells[..c], pair.right, cell.level - 1, 2 * cell.nodeIndex + 1)
  }

  ghost predicate CombinesOk(indices: seq<nat>, positions: seq<Position>, combines: seq<Pair>, cells: seq<Position>) {
    && |cells| == |combines|
    && forall c :: 0 <= c < |combines| ==> CombineOk(indices, positions, combines, cells, c)
  }

  /** `refs` holds the value of every touched node of one level. */
  ghost predicate LevelOk(indices: seq<nat>, positions: seq<Position>, cells: seq<Position>,
                          level: nat, keys: seq<nat>, refs: map<nat, NodeRef>) {
    && (forall x :: x in refs <==> x in keys)
    && (forall x :: x in refs ==> Sits(indices, positions, cells, refs[x], level, x))
  }

  ghost predicate WellFormed(indices: seq<nat>, depth: nat, plan: Plan, cells: seq<Position>) {
    && plan.touchedLeafCount == |indices|
    && CombinesOk(indices, plan.frontierPositions, plan.combines, cells)
    && Sits(indices, plan.frontierPositions, cells, plan.root, depth, 0)
  }

  lemma {:induction false} SitsExtends(indices: seq<nat>, positions: seq<Position>, positions': seq<Position>,
                    cells: seq<Position>, cells': seq<Position>, r: NodeRef, level: nat, index: nat)
    requires Sits(indices, positions, cells, r, level, index)
    requires positions <= positions' && cells <= cells'
    ensures Sits(indices, positions', cells', r, level, index)
  {}

  lemma {:induction false} LevelExtends(indices: seq<nat>, positions: seq<Position>, positions': seq<Position>,
                     cells: seq<Position>, cells': seq<Position>, level: nat, keys: seq<nat>, refs: map<nat, NodeRef>)
    requires LevelOk(indices, positions, cells, level, keys, refs)
    requires positions <= positions' && cells <= cells'
    ensures LevelOk(indices, positions', cells', level, keys, refs)
  {
    forall x | x in refs
      ensures Sits(indices, positions', cells', refs[x], level, x)
    {
      SitsExtends(indices, positions, positions', cells, cells', refs[x], level, x);
    }
  }

  /** Appending siblings and one more combine keeps every earlier combine in place. */
  lemma {:induction false} AppendCombine(indices: seq<nat>, positions: seq<Position>, positions': seq<Position>,
                      combines: seq<Pair>, cells: seq<Position>, pair: Pair, cell: Position)
    requires CombinesOk(indices, positions, combines, cells) && positions <= positions'
    requires cell.level > 0 && Touched(indices, cell)
    requires Sits(indices, positions', cells, pair.left, cell.level - 1, 2 * cell.nodeIndex)
    requires Sits(indices, positions', cells, pair.right, cell.level - 1, 2 * cell.nodeIndex + 1)
    ensures CombinesOk(indices, positions', combines + [pair], cells + [cell])
  {
    forall c | 0 <= c < |combines + [pair]|
      ensures CombineOk(indices, positions', combines + [pair], cells + [cell], c)
    {
      assert (cells + [cell])[..c] == cells[..c];
      if c < |combines| {
        assert CombineOk(indices, positions, combines, cells, c);
      } else {
        assert cells[..c] == cells;
      }
    }
  }

  /** The cells a plan hashes: the parents of the known nodes, level by level and left to right. */
  function CellsAt(nodes: seq<nat>, level: nat): seq<Position> {
    seq(|nodes|, i requires 0 <= i < |nodes| => Position(level, nodes[i]))
  }

  function CellsFrom(known: seq<nat>, level: nat, levels: nat): seq<Position>
    decreases levels
  {
    if levels == 0 then []
    else CellsAt(Parents(known), level + 1) + CellsFrom(Parents(known), level + 1, levels - 1)
  }

  /** The partial plan after the first `i` known nodes of a level. */
  ghost predicate Walked(indices: seq<nat>, level: nat, keys: seq<nat>, i: nat, combineBase: nat,
                         positions: seq<Position>, combines: seq<Pair>, refs: map<nat, NodeRef>, cells: seq<Position>)
    requires i <= |keys|
  {
    && |combines| == combineBase + |ParentsUpTo(keys, i)|
    && CombinesOk(indices, positions, combines, cells)
    && LevelOk(indices, positions, cells, level + 1, ParentsUpTo(keys, i), refs)
  }

  /** Hash the parent of the first-of-pair node `keys[i]`. */
  method AddParent(indices: seq<nat>, level: nat, keys: seq<nat>, refs: map<nat, NodeRef>, i: nat,
                   ghost combineBase: nat,
                   ghost positions0: seq<Position>, ghost cells0: seq<Position>,
                   positions: seq<Position>, combines: seq<Pair>, next: map<nat, NodeRef>, ghost cells: seq<Position>)
    returns (positions': seq<Position>, combines': seq<Pair>, next': map<nat, NodeRef>, ghost cells': seq<Position>)
    requires Sorted(keys) && i < |keys| && FirstOfPair(keys, i)
    requires LevelOk(indices, positions0, cells0, level, keys, refs)
    requires positions0 <= positions && cells0 <= cells
    requires Touched(indices, Position(level, keys[i]))
    requires Walked(indices, level, keys, i, combineBase, positions, combines, next, cells)
    ensures positions' == positions + (if HasPartner(keys, i) then [] else [Position(level, Sibling(keys[i]))])
    ensures cells' == cells + [Position(level + 1, keys[i] / 2)]
    ensures Walked(indices, level, keys, i + 1, combineBase, positions', combines', next', cells')
  {
    ghost var cell := Position(level + 1, keys[i] / 2);
    ParentTouched(indices, level, keys[i]);
    var pair;
    pair, positions' := FetchPair(indices, level, keys, refs, positions0, cells0, i, positions, cells);
    AppendCombine(indices, positions, positions', combines, cells, pair, cell);
    LevelAdd(indices, positions, positions', cells, level + 1, ParentsUpTo(keys, i), next, keys[i] / 2);
    next' := next[keys[i] / 2 := Combine(|combines|)];
    combines' := combines + [pair];
    cells' := cells + [cell];
  }

  /** One level of the plan: visit every parent of a known node once, left to right. */
  method CombineLevel(indices: seq<nat>, level: nat, keys: seq<nat>, refs: map<nat, NodeRef>,
                      positions: seq<Position>, combines: seq<Pair>, ghost cells: seq<Position>)
    returns (positions': seq<Position>, combines': seq<Pair>, keys': seq<nat>, refs': map<nat, NodeRef>,
             ghost cells': seq<Position>)
    requires Sorted(keys) && CombinesOk(indices, positions, combines, cells)
    requires LevelOk(indices, positions, cells, level, keys, refs)
    requires forall x :: x in keys ==> Touched(indices, Position(level, x))
    ensures positions' == positions + MissingUpTo(keys, level, |keys|)
    ensures keys' == Parents(keys)
    ensures cells' == cells + CellsAt(Parents(keys), level + 1)
    ensures Walked(indices, level, keys, |keys|, |combines|, positions', combines', refs', cells')
  {
    positions', combines', keys', refs', cells' := positions, combines, [], map[], cells;
    for i := 0 to |keys|
      invariant positions' == positions + MissingUpTo(keys, level, i)
      invariant keys' == ParentsUpTo(keys, i)
      invariant cells' == cells + CellsAt(ParentsUpTo(keys, i), level + 1)
      invariant Walked(indices, level, keys, i, |combines|, positions', combines', refs', cells')
    {
      SeenBefore(keys, i);
      assert keys[i] in keys;
      if keys[i] / 2 !in refs' {
        MovePart(positions, MissingUpTo(keys, level, i),
                 if HasPartner(keys, i) then [] else [Position(level, Sibling(keys[i]))]);
        positions', combines', refs', cells' := AddParent(indices, level, keys, refs, i, |combines|, positions, cells,
                                                          positions', combines', refs', cells');
        CellsSnoc(keys', keys[i] / 2, level + 1, cells);
        keys' := keys' + [keys[i] / 2];
      }
    }
  }

  lemma {:induction false} CellsSnoc(nodes: seq<nat>, node: nat, level: nat, cells: seq<Position>)
    ensures cells + CellsAt(nodes, level) + [Position(level, node)] == cells + CellsAt(nodes + [node], level)
  {
  }

  lemma {:induction false} SeenBefore(keys: seq<nat>, i: nat)
    requires Sorted(keys) && i < |keys|
    ensures keys[i] / 2 in ParentsUpTo(keys, i) <==> !FirstOfPair(keys, i)
  {
    PairFacts(keys, i);
    ParentsUpToFacts(keys, i);
  }

  lemma {:induction false} LevelAdd(indices: seq<nat>, positions: seq<Position>, positions': seq<Position>,
                 cells: seq<Position>, level: nat, keys: seq<nat>, refs: map<nat, NodeRef>, key: nat)
    requires LevelOk(indices, positions, cells, level, keys, refs) && positions <= positions'
    ensures LevelOk(indices, positions', cells + [Position(level, key)], level, keys + [key],
                    refs[key := Combine(|cells|)])
  {
    LevelExtends(indices, positions, positions', cells, cells + [Position(level, key)], level, keys, refs);
  }

  /** The two children of the parent of `keys[i]`; a missing one becomes the next frontier sibling. */
  method FetchPair(indices: seq<nat>, level: nat, keys: seq<nat>, refs: map<nat, NodeRef>,
                   ghost positions0: seq<Position>, ghost cells0: seq<Position>, i: nat,
                   positions: seq<Position>, ghost cells: seq<Position>)
    returns (pair: Pair, positions': seq<Position>)
    requires Sorted(keys) && i < |keys| && FirstOfPair(keys, i)
    requires LevelOk(indices, positions0, cells0, level, keys, refs)
    requires positions0 <= positions && cells0 <= cells
    ensures positions' == positions + (if HasPartner(keys, i) then [] else [Position(level, Sibling(keys[i]))])
    ensures Sits(indices, positions', cells, pair.left, level, keys[i] / 2 * 2)
    ensures Sits(indices, positions', cells, pair.right, level, keys[i] / 2 * 2 + 1)
  {
    var base := keys[i] / 2 * 2;
    PairFacts(keys, i);
    assert keys[i] in keys;
    if base in refs && base + 1 in refs {
      pair, positions' := Pair(refs[base], refs[base + 1]), positions;
      SitsExtends(indices, positions0, positions', cells0, cells, refs[base], level, base);
      SitsExtends(indices, positions0, positions', cells0, cells, refs[base + 1], level, base + 1);
    } else if base in refs {
      pair := Pair(refs[base], FrontierSibling(|positions|));
      positions' := positions + [Position(level, base + 1)];
      SitsExtends(indices, positions0, positions', cells0, cells, refs[base], level, base);
    } else {
      pair := Pair(FrontierSibling(|positions|), refs[base + 1]);
      positions' := positions + [Position(level, base)];
      SitsExtends(indices, positions0, positions', cells0, cells, refs[base + 1], level, base + 1);
    }
  }

  lemma {:induction false} ParentTouched(indices: seq<nat>, level: nat, x: nat)
    requires Touched(indices, Position(level, x))
    ensures Touched(indices, Position(level + 1, x / 2))
  {
    var j :| 0 <= j < |indices| && Shr(indices[j], level) == x;
    assert Shr(indices[j], level + 1) == x / 2;
  }

  /** Every parent consumes two values: its known children, or one child and one sibling. */
  lemma {:induction false} PairCount(keys: seq<nat>, level: nat, n: nat)
    requires Sorted(keys) && n <= |keys|
    ensures 2 * |ParentsUpTo(keys, n)|
         == n + |MissingUpTo(keys, level, n)| + (if 0 < n < |keys| && !FirstOfPair(keys, n) then 1 else 0)
  {
    if n == 0 {
    } else {
      PairCount(keys, level, n - 1);
      PairFacts(keys, n - 1);
      if n < |keys| {
        PairFacts(keys, n);
      }
    }
  }

  ghost predicate TouchedNodes(indices: seq<nat>, level: nat, keys: seq<nat>) {
    forall x: nat :: x in keys <==> Touched(indices, Position(level, x))
  }

  lemma {:induction false} ParentsAreTouched(indices: seq<nat>, level: nat, keys: seq<nat>)
    requires Sorted(keys) && TouchedNodes(indices, level, keys)
    ensures Sorted(Parents(keys)) && TouchedNodes(indices, level + 1, Parents(keys))
  {
    ParentsUpToFacts(keys, |keys|);
    forall x: nat
      ensures x in Parents(keys) <==> Touched(indices, Position(level + 1, x))
    {
      if x in Parents(keys) {
        var i :| 0 <= i < |keys| && keys[i] / 2 == x;
        assert keys[i] in keys;
        ParentTouched(indices, level, keys[i]);
      }
      if Touched(indices, Position(level + 1, x)) {
        var j :| 0 <= j < |indices| && Shr(indices[j], level + 1) == x;
        var node := Shr(indices[j], level);
        assert Touched(indices, Position(level, node));
        var i :| 0 <= i < |keys| && keys[i] == node;
      }
    }
  }

  method LeafRefs(indices: seq<nat>) returns (refs: map<nat, NodeRef>)
    requires Sorted(indices)
    ensures LevelOk(indices, [], [], 0, indices, refs)
  {
    refs := map[];
    for j := 0 to |indices|
      invariant forall x :: x in refs <==> x in indices[..j]
      invariant forall x :: x in refs ==> Sits(indices, [], [], refs[x], 0, x)
    {
      assert indices[..j + 1] == indices[..j] + [indices[j]];
      refs := refs[indices[j] := TouchedLeaf(j)];
    }
    assert indices[..|indices|] == indices;
  }

  /** The partial plan below `level`: one value for every touched node of that level. */
  ghost predicate Derived(indices: seq<nat>, level: nat, keys: seq<nat>, refs: map<nat, NodeRef>,
                          positions: seq<Position>, combines: seq<Pair>, cells: seq<Position>) {
    && Sorted(keys) && TouchedNodes(indices, level, keys)
    && CombinesOk(indices, positions, combines, cells)
    && LevelOk(indices, positions, cells, level, keys, refs)
    && |combines| + |keys| == |indices| + |positions|
  }

  method DeriveLevel(indices: seq<nat>, level: nat, keys: seq<nat>, refs: map<nat, NodeRef>,
                     positions: seq<Position>, combines: seq<Pair>, ghost cells: seq<Position>)
    returns (positions': seq<Position>, combines': seq<Pair>, keys': seq<nat>, refs': map<nat, NodeRef>,
             ghost cells': seq<Position>)
    requires Derived(indices, level, keys, refs, positions, combines, cells)
    ensures Derived(indices, level + 1, keys', refs', positions', combines', cells')
    ensures positions' == positions + MissingUpTo(keys, level, |keys|) && keys' == Parents(keys)
    ensures cells' == cells + CellsAt(Parents(keys), level + 1)
  {
    PairCount(keys, level, |keys|);
    ParentsAreTouched(indices, level, keys);
    positions', combines', keys', refs', cells' := CombineLevel(indices, level, keys, refs, positions, combines, cells);
  }

  method DeriveLevels(indices: seq<nat>, depth: nat)
    returns (positions: seq<Position>, combines: seq<Pair>, keys: seq<nat>, refs: map<nat, NodeRef>,
             ghost cells: seq<Position>)
    requires Sorted(indices)
    ensures Derived(indices, depth, keys, refs, positions, combines, cells)
    ensures positions == FrontierFrom(indices, 0, depth) && cells == CellsFrom(indices, 0, depth)
  {
    positions, combines, keys, cells := [], [], indices, [];
    refs := LeafRefs(indices);
    for level := 0 to depth
      invariant Derived(indices, level, keys, refs, positions, combines, cells)
      invariant positions + FrontierFrom(keys, level, depth - level) == FrontierFrom(indices, 0, depth)
      invariant cells + CellsFrom(keys, level, depth - level) == CellsFrom(indices, 0, depth)
    {
      MovePart(positions, MissingUpTo(keys, level, |keys|), FrontierFrom(Parents(keys), level + 1, depth - level - 1));
      MovePart(cells, CellsAt(Parents(keys), level + 1), CellsFrom(Parents(keys), level + 1, depth - level - 1));
      positions, combines, keys, refs, cells := DeriveLevel(indices, level, keys, refs, positions, combines, cells);
    }
  }

  /** The topology of a touched set: which values to hash, in which order, down to one root. */
  method DeriveStructuralFrontierPlan(indices: seq<nat>, depth: nat)
    returns (r: Result<Plan, SparseMerkleError>, ghost cells: seq<Position>)
    ensures r.Ok? <==> CanonicalIndices(indices, depth)
    ensures r.Ok? ==> WellFormed(indices, depth, r.value, cells)
    ensures r.Ok? ==> r.value.frontierPositions == FrontierFrom(indices, 0, depth)
    ensures r.Ok? ==> cells == CellsFrom(indices, 0, depth)
    ensures r.Ok? ==> |r.value.combines| + 1 == |indices| + |r.value.frontierPositions|
  {
    var error := ValidateIndices(indices, depth);
    if error.Some? {
      return Err(error.value), [];
    }
    var positions, combines, keys, refs;
    positions, combines, keys, refs, cells := DeriveLevels(indices, depth);
    SingleRoot(indices, depth, keys);
    if 0 in refs {
      r := Ok(Plan(|indices|, positions, combines, refs[0]));
    } else {
      r := Err(InvalidDepth(depth));
    }
  }

  lemma {:induction false} SingleRoot(indices: seq<nat>, depth: nat, keys: seq<nat>)
    requires CanonicalIndices(indices, depth) && Sorted(keys) && TouchedNodes(indices, depth, keys)
    ensures keys == [0]
  {
    forall i | 0 <= i < |keys|
      ensures keys[i] == 0
    {
      assert keys[i] in keys;
      var j :| 0 <= j < |indices| && Shr(indices[j], depth) == keys[i];
      InDomain(indices[j], depth);
    }
    InDomain(indices[0], depth);
    assert Touched(indices, Position(depth, 0));
    assert 0 in keys;
    SortedGrows(keys, |keys| - 1);
  }

  lemma {:induction false} SortedGrows(keys: seq<nat>, i: nat)
    requires Sorted(keys) && i < |keys|
    ensures i <= keys[i]
  {
    if i == 0 {
    } else {
      SortedGrows(keys, i - 1);
    }
  }
}
