/** Evaluating a frontier plan, and what the evaluated root proves about the tree behind it. */
module FrontierSoundness {
  import opened Powers
  import opened Types
  import opened Merkle
  import opened Frontier
  import opened FrontierPlan

  datatype Evaluation = Evaluation(root: Digest, combines: seq<Digest>)

  predicate InPlan(r: NodeRef, leaves: seq<Digest>, siblings: seq<Digest>, hashes: seq<Digest>) {
    match r
    case TouchedLeaf(ordinal) => ordinal < |leaves|
    case FrontierSibling(ordinal) => ordinal < |siblings|
    case Combine(ordinal) => ordinal < |hashes|
  }

  function RefValue(r: NodeRef, leaves: seq<Digest>, siblings: seq<Digest>, hashes: seq<Digest>): Digest
    requires InPlan(r, leaves, siblings, hashes)
  {
    match r
    case TouchedLeaf(ordinal) => leaves[ordinal]
    case FrontierSibling(ordinal) => siblings[ordinal]
    case Combine(ordinal) => hashes[ordinal]
  }

  /** Step `c` of a run hashes two earlier values. */
  predicate CombineRuns(pair: Pair, leaves: seq<Digest>, siblings: seq<Digest>, hashes: seq<Digest>, c: nat)
    requires c < |hashes|
  {
    && InPlan(pair.left, leaves, siblings, hashes[..c])
    && InPlan(pair.right, leaves, siblings, hashes[..c])
    && hashes[c] == Node(ExactStateNode,
                         RefValue(pair.left, leaves, siblings, hashes[..c]),
                         RefValue(pair.right, leaves, siblings, hashes[..c]))
  }

  /** `hashes` is the run of the plan over these leaves and siblings. */
  ghost predicate Evaluates(plan: Plan, leaves: seq<Digest>, siblings: seq<Digest>, hashes: seq<Digest>) {
    && |hashes| == |plan.combines|
    && forall c :: 0 <= c < |hashes| ==> CombineRuns(plan.combines[c], leaves, siblings, hashes, c)
  }

  method EvaluateStructuralFrontier(plan: Plan, leaves: seq<Digest>, siblings: seq<Digest>,
                                    ghost indices: seq<nat>, ghost depth: nat, ghost cells: seq<Position>)
    returns (r: Result<Evaluation, SparseMerkleError>)
    requires WellFormed(indices, depth, plan, cells)
    ensures r.Ok? <==> |leaves| == plan.touchedLeafCount && |siblings| == |plan.frontierPositions|
    ensures |leaves| != plan.touchedLeafCount ==> r == Err(LeafCountMismatch(plan.touchedLeafCount, |leaves|))
    ensures r.Ok? ==> Evaluates(plan, leaves, siblings, r.value.combines)
    ensures r.Ok? ==> InPlan(plan.root, leaves, siblings, r.value.combines)
    ensures r.Ok? ==> r.value.root == RefValue(plan.root, leaves, siblings, r.value.combines)
  {
    if |leaves| != plan.touchedLeafCount {
      return Err(LeafCountMismatch(plan.touchedLeafCount, |leaves|));
    }
    if |siblings| != |plan.frontierPositions| {
      return Err(ProofLengthMismatch(|plan.frontierPositions|, |siblings|));
    }
    var hashes := [];
    for c := 0 to |plan.combines|
      invariant |hashes| == c
      invariant forall k :: 0 <= k < c ==> CombineRuns(plan.combines[k], leaves, siblings, hashes, k)
    {
      var pair := plan.combines[c];
      assert CombineOk(indices, plan.frontierPositions, plan.combines, cells, c);
      var left := RefValue(pair.left, leaves, siblings, hashes);
      var right := RefValue(pair.right, leaves, siblings, hashes);
      ghost var before := hashes;
      hashes := hashes + [Node(ExactStateNode, left, right)];
      forall k | 0 <= k <= c
        ensures CombineRuns(plan.combines[k], leaves, siblings, hashes, k)
      {
        assert hashes[..k] == before[..k];
        if k < c {
          assert CombineRuns(plan.combines[k], leaves, siblings, before, k);
        } else {
          assert before[..k] == before;
        }
      }
    }
    r := Ok(Evaluation(RefValue(plan.root, leaves, siblings, hashes), hashes));
  }

  /** `values` gives every reference the value of its cell in `t`. */
  ghost predicate Matches(t: Tree, indices: seq<nat>, positions: seq<Position>, leaves: seq<Digest>,
                          siblings: seq<Digest>)
  {
    && |leaves| == |indices| && |siblings| == |positions|
    && (forall j :: 0 <= j < |indices| ==> leaves[j] == t.Leaf(indices[j]))
    && (forall k :: 0 <= k < |positions| ==> siblings[k] == t.At(positions[k].level, positions[k].nodeIndex))
  }

  lemma {:induction false} RefMatch(t: Tree, indices: seq<nat>, positions: seq<Position>, leaves: seq<Digest>,
                                    siblings: seq<Digest>,
                 r: NodeRef, cells: seq<Position>, hashes: seq<Digest>, level: nat, index: nat)
    requires Matches(t, indices, positions, leaves, siblings) && |hashes| == |cells|
    requires Sits(indices, positions, cells, r, level, index)
    requires forall c :: 0 <= c < |cells| ==> hashes[c] == t.At(cells[c].level, cells[c].nodeIndex)
    ensures InPlan(r, leaves, siblings, hashes)
    ensures RefValue(r, leaves, siblings, hashes) == t.At(level, index)
  {}

  lemma {:induction false} CombinesMatch(t: Tree, indices: seq<nat>, positions: seq<Position>, combines: seq<Pair>,
                                         cells: seq<Position>,
                                         leaves: seq<Digest>, siblings: seq<Digest>, hashes: seq<Digest>, n: nat)
    requires CombinesOk(indices, positions, combines, cells) && n <= |hashes| == |combines|
    requires t.tag == ExactStateNode && Matches(t, indices, positions, leaves, siblings)
    requires forall c :: 0 <= c < |hashes| ==> CombineRuns(combines[c], leaves, siblings, hashes, c)
    ensures forall c :: 0 <= c < n ==> hashes[c] == t.At(cells[c].level, cells[c].nodeIndex)
  {
    if n == 0 {
    } else {
      CombinesMatch(t, indices, positions, combines, cells, leaves, siblings, hashes, n - 1);
      var pair, cell := combines[n - 1], cells[n - 1];
      assert CombineOk(indices, positions, combines, cells, n - 1);
      assert CombineRuns(pair, leaves, siblings, hashes, n - 1);
      RefMatch(t, indices, positions, leaves, siblings, pair.left, cells[..n - 1], hashes[..n - 1],
               cell.level - 1, 2 * cell.nodeIndex);
      RefMatch(t, indices, positions, leaves, siblings, pair.right, cells[..n - 1], hashes[..n - 1],
               cell.level - 1, 2 * cell.nodeIndex + 1);
    }
  }

  /** Completeness: true leaves and true siblings rebuild the true root. */
  lemma {:induction false} FrontierComplete(t: Tree, indices: seq<nat>, depth: nat, plan: Plan, cells: seq<Position>,
                         leaves: seq<Digest>, siblings: seq<Digest>, hashes: seq<Digest>)
    requires WellFormed(indices, depth, plan, cells) && Evaluates(plan, leaves, siblings, hashes)
    requires t.tag == ExactStateNode && Matches(t, indices, plan.frontierPositions, leaves, siblings)
    ensures InPlan(plan.root, leaves, siblings, hashes)
    ensures RefValue(plan.root, leaves, siblings, hashes) == t.At(depth, 0)
  {
    CombinesMatch(t, indices, plan.frontierPositions, plan.combines, cells, leaves, siblings, hashes, |hashes|);
    RefMatch(t, indices, plan.frontierPositions, leaves, siblings, plan.root, cells, hashes, depth, 0);
  }

  // The canonical order names every missing sibling once.

  predicate Before(p: Position, q: Position) {
    p.level < q.level || (p.level == q.level && p.nodeIndex < q.nodeIndex)
  }

  ghost predicate Ordered(positions: seq<Position>) {
    forall a, b :: 0 <= a < b < |positions| ==> Before(positions[a], positions[b])
  }

  /** A frontier position hangs off the touched region without being inside it. */
  ghost predicate OnFrontier(indices: seq<nat>, p: Position) {
    !Touched(indices, p) && Touched(indices, Position(p.level, Sibling(p.nodeIndex)))
  }

  predicate Lone(keys: seq<nat>, i: nat, index: nat) {
    i < |keys| && FirstOfPair(keys, i) && !HasPartner(keys, i) && index == Sibling(keys[i])
  }

  lemma {:induction false} MissingParents(keys: seq<nat>, level: nat, n: nat, p: Position) returns (i: nat)
    requires n <= |keys| && p in MissingUpTo(keys, level, n)
    ensures p.level == level && i < n && Lone(keys, i, p.nodeIndex)
  {
    if p in MissingUpTo(keys, level, n - 1) {
      i := MissingParents(keys, level, n - 1, p);
    } else {
      i := n - 1;
    }
  }

  lemma {:induction false} SiblingsOrdered(keys: seq<nat>, i: nat, k: nat)
    requires Sorted(keys) && i < k < |keys| && FirstOfPair(keys, k)
    ensures Sibling(keys[i]) < Sibling(keys[k])
  {
    PairFacts(keys, k);
    assert keys[i] < keys[k];
  }

  lemma {:induction false} MissingOrdered(keys: seq<nat>, level: nat, n: nat)
    requires Sorted(keys) && n <= |keys|
    ensures Ordered(MissingUpTo(keys, level, n))
  {
    if n == 0 {
    } else {
      MissingOrdered(keys, level, n - 1);
      var before := MissingUpTo(keys, level, n - 1);
      if Lone(keys, n - 1, Sibling(keys[n - 1])) {
        forall a | 0 <= a < |before|
          ensures Before(before[a], Position(level, Sibling(keys[n - 1])))
        {
          var i := MissingParents(keys, level, n - 1, before[a]);
          SiblingsOrdered(keys, i, n - 1);
        }
      }
    }
  }

  lemma {:induction false} LoneOnFrontier(indices: seq<nat>, keys: seq<nat>, level: nat, i: nat, index: nat)
    requires Sorted(keys) && TouchedNodes(indices, level, keys) && Lone(keys, i, index)
    ensures OnFrontier(indices, Position(level, index))
  {
    PairFacts(keys, i);
    assert keys[i] in keys;
    assert index !in keys;
  }

  lemma {:induction false} MissingFacts(indices: seq<nat>, keys: seq<nat>, level: nat)
    requires Sorted(keys) && TouchedNodes(indices, level, keys)
    ensures Ordered(MissingUpTo(keys, level, |keys|))
    ensures forall p :: p in MissingUpTo(keys, level, |keys|) ==> p.level == level && OnFrontier(indices, p)
  {
    MissingOrdered(keys, level, |keys|);
    forall p | p in MissingUpTo(keys, level, |keys|)
      ensures p.level == level && OnFrontier(indices, p)
    {
      var i := MissingParents(keys, level, |keys|, p);
      LoneOnFrontier(indices, keys, level, i, p.nodeIndex);
    }
  }

  lemma {:induction false} FrontierFacts(indices: seq<nat>, keys: seq<nat>, level: nat, levels: nat)
    requires Sorted(keys) && TouchedNodes(indices, level, keys)
    ensures Ordered(FrontierFrom(keys, level, levels))
    ensures forall p :: p in FrontierFrom(keys, level, levels) ==>
            level <= p.level < level + levels && OnFrontier(indices, p)
    decreases levels
  {
    if levels == 0 {
    } else {
      MissingFacts(indices, keys, level);
      ParentsAreTouched(indices, level, keys);
      FrontierFacts(indices, Parents(keys), level + 1, levels - 1);
      var here, above := MissingUpTo(keys, level, |keys|), FrontierFrom(Parents(keys), level + 1, levels - 1);
      forall a, b | 0 <= a < b < |here + above|
        ensures Before((here + above)[a], (here + above)[b])
      {
        assert a < |here| ==> here[a] in here;
        assert b >= |here| ==> above[b - |here|] in above;
      }
    }
  }

  // What a witness claims: the value it implies for every cell on the way from the touched leaves
  // to the root.

  datatype Witness = Witness(indices: seq<nat>, positions: seq<Position>, leaves: seq<Digest>, siblings: seq<Digest>)

  ghost predicate WitnessOk(w: Witness, depth: nat) {
    && |w.leaves| == |w.indices| && |w.siblings| == |w.positions|
    && CanonicalIndices(w.indices, depth)
    && w.positions == FrontierFrom(w.indices, 0, depth)
  }

  /** The facts about a canonical witness that the argument uses. */
  ghost predicate Shaped(w: Witness, depth: nat) {
    && |w.leaves| == |w.indices| && |w.siblings| == |w.positions|
    && Ordered(w.positions) && Sorted(w.indices)
    && (forall j :: 0 <= j < |w.indices| ==> Shr(w.indices[j], depth) == 0)
    && (forall k :: 0 <= k < |w.positions| ==> w.positions[k].level < depth && OnFrontier(w.indices, w.positions[k]))
  }

  function Zip<K>(keys: seq<K>, values: seq<Digest>): map<K, Digest>
    requires |keys| == |values|
  {
    if |keys| == 0 then map[]
    else Zip(keys[..|keys| - 1], values[..|keys| - 1])[keys[|keys| - 1] := values[|keys| - 1]]
  }

  lemma {:induction false} ZipFacts<K>(keys: seq<K>, values: seq<Digest>)
    requires |keys| == |values|
    requires forall a, b :: 0 <= a < b < |keys| ==> keys[a] != keys[b]
    ensures forall x :: x in Zip(keys, values) <==> x in keys
    ensures forall k :: 0 <= k < |keys| ==> Zip(keys, values)[keys[k]] == values[k]
  {
    if |keys| == 0 {
    } else {
      var last := |keys| - 1;
      ZipFacts(keys[..last], values[..last]);
      assert keys == keys[..last] + [keys[last]];
      forall k | 0 <= k < |keys|
        ensures Zip(keys, values)[keys[k]] == values[k]
      {
        if k < last {
          assert keys[..last][k] == keys[k] != keys[last];
        }
      }
    }
  }

  /** The value a witness implies for a cell: a given sibling, a given leaf, or the hash of its
      children. */
  function Implied(siblings: map<Position, Digest>, leaves: map<nat, Digest>, level: nat, index: nat): Digest {
    if Position(level, index) in siblings then siblings[Position(level, index)]
    else if level > 0 then
      Node(ExactStateNode, Implied(siblings, leaves, level - 1, 2 * index),
           Implied(siblings, leaves, level - 1, 2 * index + 1))
    else if index in leaves then leaves[index]
    else ZeroDigest
  }

  function Claimed(w: Witness, level: nat, index: nat): Digest
    requires |w.leaves| == |w.indices| && |w.siblings| == |w.positions|
  {
    Implied(Zip(w.positions, w.siblings), Zip(w.indices, w.leaves), level, index)
  }

  lemma {:induction false} WitnessShaped(w: Witness, depth: nat)
    requires WitnessOk(w, depth)
    ensures Shaped(w, depth)
  {
    forall j | 0 <= j < |w.indices|
      ensures Shr(w.indices[j], depth) == 0
    {
      InDomain(w.indices[j], depth);
    }
    assert TouchedNodes(w.indices, 0, w.indices) by {
      forall x: nat
        ensures x in w.indices <==> Touched(w.indices, Position(0, x))
      {
        if x in w.indices {
          var j :| 0 <= j < |w.indices| && w.indices[j] == x;
          assert Shr(w.indices[j], 0) == x;
        }
      }
    }
    FrontierFacts(w.indices, w.indices, 0, depth);
    assert forall k :: 0 <= k < |w.positions| ==> w.positions[k] in w.positions;
  }

  lemma {:induction false} WitnessMaps(w: Witness, depth: nat)
    requires Shaped(w, depth)
    ensures forall p :: p in Zip(w.positions, w.siblings) <==> p in w.positions
    ensures forall k :: 0 <= k < |w.positions| ==> Zip(w.positions, w.siblings)[w.positions[k]] == w.siblings[k]
    ensures forall x :: x in Zip(w.indices, w.leaves) <==> x in w.indices
    ensures forall j :: 0 <= j < |w.indices| ==> Zip(w.indices, w.leaves)[w.indices[j]] == w.leaves[j]
  {
    ZipFacts(w.positions, w.siblings);
    ZipFacts(w.indices, w.leaves);
  }

  lemma {:induction false} ClaimedSibling(w: Witness, depth: nat, k: nat)
    requires Shaped(w, depth) && k < |w.positions|
    ensures Claimed(w, w.positions[k].level, w.positions[k].nodeIndex) == w.siblings[k]
  {
    WitnessMaps(w, depth);
    assert w.positions[k] == Position(w.positions[k].level, w.positions[k].nodeIndex);
  }

  lemma {:induction false} TouchedIsNoSibling(w: Witness, depth: nat, level: nat, index: nat)
    requires Shaped(w, depth) && Touched(w.indices, Position(level, index))
    ensures Position(level, index) !in Zip(w.positions, w.siblings)
  {
    WitnessMaps(w, depth);
    forall k | 0 <= k < |w.positions|
      ensures w.positions[k] != Position(level, index)
    {
      assert OnFrontier(w.indices, w.positions[k]);
    }
  }

  lemma {:induction false} ClaimedTouched(w: Witness, depth: nat, level: nat, index: nat)
    requires Shaped(w, depth) && level > 0 && Touched(w.indices, Position(level, index))
    ensures Claimed(w, level, index)
         == Node(ExactStateNode, Claimed(w, level - 1, 2 * index), Claimed(w, level - 1, 2 * index + 1))
  {
    TouchedIsNoSibling(w, depth, level, index);
  }

  lemma {:induction false} ClaimedLeaf(w: Witness, depth: nat, j: nat)
    requires Shaped(w, depth) && j < |w.indices|
    ensures Claimed(w, 0, w.indices[j]) == w.leaves[j]
  {
    assert Shr(w.indices[j], 0) == w.indices[j];
    assert Touched(w.indices, Position(0, w.indices[j]));
    TouchedIsNoSibling(w, depth, 0, w.indices[j]);
    WitnessMaps(w, depth);
  }

  /** The plan computes exactly the claimed value of every cell. */
  lemma {:induction false} PlanComputesClaims(w: Witness, depth: nat, plan: Plan, cells: seq<Position>,
                                              hashes: seq<Digest>, n: nat)
    requires Shaped(w, depth) && plan.frontierPositions == w.positions
    requires WellFormed(w.indices, depth, plan, cells) && Evaluates(plan, w.leaves, w.siblings, hashes)
    requires n <= |hashes|
    ensures forall c :: 0 <= c < n ==> hashes[c] == Claimed(w, cells[c].level, cells[c].nodeIndex)
  {
    if n == 0 {
    } else {
      PlanComputesClaims(w, depth, plan, cells, hashes, n - 1);
      var pair, cell := plan.combines[n - 1], cells[n - 1];
      assert CombineOk(w.indices, w.positions, plan.combines, cells, n - 1);
      ClaimedTouched(w, depth, cell.level, cell.nodeIndex);
      RefClaim(w, depth, pair.left, cells[..n - 1], hashes[..n - 1], cell.level - 1, 2 * cell.nodeIndex);
      RefClaim(w, depth, pair.right, cells[..n - 1], hashes[..n - 1], cell.level - 1, 2 * cell.nodeIndex + 1);
    }
  }

  lemma {:induction false} RefClaim(w: Witness, depth: nat, r: NodeRef, cells: seq<Position>, hashes: seq<Digest>,
                                    level: nat, index: nat)
    requires Shaped(w, depth) && |hashes| == |cells|
    requires Sits(w.indices, w.positions, cells, r, level, index)
    requires forall c :: 0 <= c < |cells| ==> hashes[c] == Claimed(w, cells[c].level, cells[c].nodeIndex)
    ensures RefValue(r, w.leaves, w.siblings, hashes) == Claimed(w, level, index)
  {
    match r
    case TouchedLeaf(j) =>
      ClaimedLeaf(w, depth, j);
    case FrontierSibling(k) =>
      ClaimedSibling(w, depth, k);
    case Combine(c) =>
  }

  predicate HashStep(claim: (nat, nat) -> Digest, level: nat, index: nat)
    requires level > 0
  {
    claim(level, index) == Node(ExactStateNode, claim(level - 1, 2 * index), claim(level - 1, 2 * index + 1))
  }

  lemma {:induction false} ChildrenForced(claim: (nat, nat) -> Digest, t: Tree, level: nat, x: nat)
    requires t.tag == ExactStateNode && level > 0 && HashStep(claim, level, x)
    requires claim(level, x) == t.At(level, x)
    ensures claim(level - 1, 2 * x) == t.At(level - 1, 2 * x)
    ensures claim(level - 1, 2 * x + 1) == t.At(level - 1, 2 * x + 1)
  {}

  /** Any values that hash along the path of leaf `i` and meet the root of `t` are the values of `t`. */
  lemma {:induction false} PathForced(claim: (nat, nat) -> Digest, t: Tree, depth: nat, i: nat, level: nat)
    requires t.tag == ExactStateNode && Shr(i, depth) == 0 && level <= depth
    requires claim(depth, 0) == t.At(depth, 0)
    requires forall l: nat :: 0 < l <= depth ==> HashStep(claim, l, Shr(i, l))
    ensures claim(level, Shr(i, level)) == t.At(level, Shr(i, level))
    decreases depth - level
  {
    if level >= depth {
    } else {
      PathForced(claim, t, depth, i, level + 1);
      var y := Shr(i, level);
      assert Shr(i, level + 1) == y / 2 && (y == 2 * (y / 2) || y == 2 * (y / 2) + 1);
      ChildrenForced(claim, t, level + 1, y / 2);
    }
  }

  /** A matching root forces the claims along every path from the root to a touched leaf. */
  lemma {:induction false} ClaimsForced(w: Witness, depth: nat, t: Tree, j: nat, level: nat)
    requires Shaped(w, depth) && j < |w.indices| && level <= depth && t.tag == ExactStateNode
    requires Claimed(w, depth, 0) == t.At(depth, 0)
    ensures Claimed(w, level, Shr(w.indices[j], level)) == t.At(level, Shr(w.indices[j], level))
  {
    var claim := (l: nat, x: nat) => Claimed(w, l, x);
    forall l: nat | 0 < l <= depth
      ensures HashStep(claim, l, Shr(w.indices[j], l))
    {
      assert Touched(w.indices, Position(l, Shr(w.indices[j], l)));
      ClaimedTouched(w, depth, l, Shr(w.indices[j], l));
    }
    PathForced(claim, t, depth, w.indices[j], level);
  }

  lemma {:induction false} LeafForced(w: Witness, depth: nat, t: Tree, j: nat)
    requires Shaped(w, depth) && j < |w.indices| && t.tag == ExactStateNode
    requires Claimed(w, depth, 0) == t.At(depth, 0)
    ensures w.leaves[j] == t.Leaf(w.indices[j])
  {
    ClaimsForced(w, depth, t, j, 0);
    assert Shr(w.indices[j], 0) == w.indices[j];
    ClaimedLeaf(w, depth, j);
  }

  lemma {:induction false} SiblingParent(w: Witness, depth: nat, k: nat) returns (j: nat)
    requires Shaped(w, depth) && k < |w.positions|
    ensures w.positions[k].level < depth && j < |w.indices|
    ensures Shr(w.indices[j], w.positions[k].level + 1) == w.positions[k].nodeIndex / 2
    ensures Touched(w.indices, Position(w.positions[k].level + 1, w.positions[k].nodeIndex / 2))
  {
    var p := w.positions[k];
    j :| 0 <= j < |w.indices| && Shr(w.indices[j], p.level) == Sibling(p.nodeIndex);
    assert Shr(w.indices[j], p.level + 1) == p.nodeIndex / 2;
  }

  lemma {:induction false} SiblingForced(w: Witness, depth: nat, t: Tree, k: nat)
    requires Shaped(w, depth) && k < |w.positions| && t.tag == ExactStateNode
    requires Claimed(w, depth, 0) == t.At(depth, 0)
    ensures w.siblings[k] == t.At(w.positions[k].level, w.positions[k].nodeIndex)
  {
    var p := w.positions[k];
    var j := SiblingParent(w, depth, k);
    ClaimsForced(w, depth, t, j, p.level + 1);
    ClaimedTouched(w, depth, p.level + 1, p.nodeIndex / 2);
    ClaimedSibling(w, depth, k);
    ChildrenForced((l: nat, x: nat) => Claimed(w, l, x), t, p.level + 1, p.nodeIndex / 2);
    assert p.nodeIndex == 2 * (p.nodeIndex / 2) || p.nodeIndex == 2 * (p.nodeIndex / 2) + 1;
  }

  /** Soundness: a plan that reproduces the root of `t` was fed the true leaves and the true roots of
      every untouched subtree. */
  lemma {:induction false} FrontierSound(w: Witness, depth: nat, plan: Plan, cells: seq<Position>, hashes: seq<Digest>,
                                         t: Tree)
    requires WitnessOk(w, depth) && plan.frontierPositions == w.positions && t.tag == ExactStateNode
    requires WellFormed(w.indices, depth, plan, cells) && Evaluates(plan, w.leaves, w.siblings, hashes)
    requires InPlan(plan.root, w.leaves, w.siblings, hashes)
    requires RefValue(plan.root, w.leaves, w.siblings, hashes) == t.At(depth, 0)
    ensures Matches(t, w.indices, w.positions, w.leaves, w.siblings)
  {
    WitnessShaped(w, depth);
    PlanComputesClaims(w, depth, plan, cells, hashes, |hashes|);
    RefClaim(w, depth, plan.root, cells, hashes, depth, 0);
    forall j | 0 <= j < |w.indices|
      ensures w.leaves[j] == t.Leaf(w.indices[j])
    {
      LeafForced(w, depth, t, j);
    }
    forall k | 0 <= k < |w.positions|
      ensures w.siblings[k] == t.At(w.positions[k].level, w.positions[k].nodeIndex)
    {
      SiblingForced(w, depth, t, k);
    }
  }

  /** Replacing exactly the touched leaves keeps every frontier sibling. */
  lemma {:induction false} SiblingsSurviveUpdate(w: Witness, depth: nat, t: Tree, t': Tree, newLeaves: seq<Digest>)
    requires Shaped(w, depth) && t.tag == t'.tag && |newLeaves| == |w.indices|
    requires Matches(t, w.indices, w.positions, w.leaves, w.siblings)
    requires forall j :: 0 <= j < |w.indices| ==> t'.Leaf(w.indices[j]) == newLeaves[j]
    requires forall i: nat :: i !in w.indices ==> t'.Leaf(i) == t.Leaf(i)
    ensures Matches(t', w.indices, w.positions, newLeaves, w.siblings)
  {
    forall k | 0 <= k < |w.positions|
      ensures w.siblings[k] == t'.At(w.positions[k].level, w.positions[k].nodeIndex)
    {
      var p := w.positions[k];
      forall i: nat | Shr(i, p.level) == p.nodeIndex
        ensures t'.Leaf(i) == t.Leaf(i)
      {}
      NodeBindsLeaves(t', t, p.level, p.nodeIndex);
    }
  }
}
