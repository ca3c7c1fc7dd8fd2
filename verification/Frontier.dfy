/** The canonical sparse-Merkle frontier: which sibling digests a touched set needs, the hash plan
    that consumes them, and what a matching root says about the state behind them. */
module Frontier {
  import opened Powers
  import opened Types

  datatype Position = Position(level: nat, nodeIndex: nat)

  datatype SparseMerkleError =
    | InvalidDepth(depth: nat)
    | EmptyIndices
    | LeafCountMismatch(indices: nat, leaves: nat)
    | UnsortedIndices
    | DuplicateIndex(index: nat)
    | IndexOutOfRange(index: nat, depth: nat)
    | ProofLengthMismatch(expected: nat, actual: nat)

  const MAX_DEPTH: nat := 32

  predicate Sorted(s: seq<nat>) {
    forall i, j :: 0 <= i < j < |s| ==> s[i] < s[j]
  }

  predicate CanonicalIndices(indices: seq<nat>, depth: nat) {
    && depth <= MAX_DEPTH
    && |indices| > 0
    && Sorted(indices)
    && forall j :: 0 <= j < |indices| ==> indices[j] < Pow2(depth)
  }

  /** What is wrong with entry `k`, given that it follows entry `k - 1`: range first, then order. */
  function IndexErrorAt(indices: seq<nat>, depth: nat, k: nat): Option<SparseMerkleError>
    requires k < |indices|
  {
    if indices[k] >= Pow2(depth) then Some(IndexOutOfRange(indices[k], depth))
    else if k > 0 && indices[k] < indices[k - 1] then Some(UnsortedIndices)
    else if k > 0 && indices[k] == indices[k - 1] then Some(DuplicateIndex(indices[k]))
    else None
  }

  predicate FirstIndexError(indices: seq<nat>, depth: nat, k: nat) {
    && k < |indices| && IndexErrorAt(indices, depth, k).Some?
    && forall j :: 0 <= j < k ==> IndexErrorAt(indices, depth, j).None?
  }

  /** Depth, then emptiness, then the first offending entry decide the error. */
  method ValidateIndices(indices: seq<nat>, depth: nat) returns (error: Option<SparseMerkleError>)
    ensures error.None? <==> CanonicalIndices(indices, depth)
    ensures depth > MAX_DEPTH ==> error == Some(InvalidDepth(depth))
    ensures depth <= MAX_DEPTH && |indices| == 0 ==> error == Some(EmptyIndices)
    ensures depth <= MAX_DEPTH && |indices| > 0 && error.Some? ==>
              exists k :: FirstIndexError(indices, depth, k) && error == IndexErrorAt(indices, depth, k)
  {
    if depth > MAX_DEPTH {
      return Some(InvalidDepth(depth));
    }
    if |indices| == 0 {
      return Some(EmptyIndices);
    }
    for k := 0 to |indices|
      invariant Sorted(indices[..k])
      invariant forall j :: 0 <= j < k ==> indices[j] < Pow2(depth) && IndexErrorAt(indices, depth, j).None?
    {
      assert IndexErrorAt(indices, depth, k).Some? ==> FirstIndexError(indices, depth, k);
      if indices[k] >= Pow2(depth) {
        return Some(IndexOutOfRange(indices[k], depth));
      }
      if k > 0 && indices[k] < indices[k - 1] {
        assert !(indices[k - 1] < indices[k]);
        return Some(UnsortedIndices);
      }
      if k > 0 && indices[k] == indices[k - 1] {
        return Some(DuplicateIndex(indices[k]));
      }
      assert indices[..k + 1] == indices[..k] + [indices[k]];
      assert forall i :: 0 <= i < k ==> indices[..k][i] == indices[i];
    }
    assert indices[..|indices|] == indices;
    error := None;
  }

  // One level of the walk. `known` holds the indices of the nodes whose hash is available.

  predicate FirstOfPair(known: seq<nat>, i: nat)
    requires i < |known|
  {
    i == 0 || known[i - 1] / 2 != known[i] / 2
  }

  predicate HasPartner(known: seq<nat>, i: nat)
    requires i < |known|
  {
    i + 1 < |known| && known[i + 1] / 2 == known[i] / 2
  }

  function Sibling(index: nat): nat {
    if index % 2 == 0 then index + 1 else index - 1
  }

  function ParentsUpTo(known: seq<nat>, n: nat): (parents: seq<nat>)
    requires n <= |known|
    ensures |parents| <= n
  {
    if n == 0 then []
    else ParentsUpTo(known, n - 1) + (if FirstOfPair(known, n - 1) then [known[n - 1] / 2] else [])
  }

  function MissingUpTo(known: seq<nat>, level: nat, n: nat): seq<Position>
    requires n <= |known|
  {
    if n == 0 then []
    else MissingUpTo(known, level, n - 1)
         + (if FirstOfPair(known, n - 1) && !HasPartner(known, n - 1)
            then [Position(level, Sibling(known[n - 1]))] else [])
  }

  function Parents(known: seq<nat>): seq<nat> {
    ParentsUpTo(known, |known|)
  }

  /** The canonical sibling order: level by level, left to right. */
  function FrontierFrom(known: seq<nat>, level: nat, levels: nat): seq<Position>
    decreases levels
  {
    if levels == 0 then []
    else MissingUpTo(known, level, |known|) + FrontierFrom(Parents(known), level + 1, levels - 1)
  }

  lemma {:induction false} MovePart(a: seq<Position>, b: seq<Position>, c: seq<Position>)
    ensures a + (b + c) == a + b + c
  {
  }

  /** Membership facts about the two children of the parent of `known[i]`. */
  lemma {:induction false} PairFacts(known: seq<nat>, i: nat)
    requires Sorted(known) && i < |known|
    ensures FirstOfPair(known, i) <==> forall k :: 0 <= k < i ==> known[k] / 2 != known[i] / 2
    ensures FirstOfPair(known, i) && HasPartner(known, i) ==>
              known[i] % 2 == 0 && known[i + 1] == known[i] + 1
    ensures FirstOfPair(known, i) && !HasPartner(known, i) ==> Sibling(known[i]) !in known
    ensures !FirstOfPair(known, i) ==> known[i - 1] == known[i] - 1 && known[i] % 2 == 1
  {
    if FirstOfPair(known, i) {
      forall k | 0 <= k < i
        ensures known[k] / 2 != known[i] / 2
      {
        if k < i - 1 {
          assert known[k] < known[i - 1] < known[i];
        }
      }
      if !HasPartner(known, i) {
        forall k | 0 <= k < |known|
          ensures known[k] != Sibling(known[i])
        {
          if k > i + 1 {
            assert known[i] < known[i + 1] < known[k];
          }
        }
      }
    }
  }

  lemma {:induction false} ParentsMembers(known: seq<nat>, n: nat, p: nat)
    requires Sorted(known) && n <= |known|
    ensures p in ParentsUpTo(known, n) <==> exists i :: 0 <= i < n && known[i] / 2 == p
  {
    if n == 0 {
    } else {
      ParentsMembers(known, n - 1, p);
      if exists i :: 0 <= i < n && known[i] / 2 == p {
        var i :| 0 <= i < n && known[i] / 2 == p;
        if i == n - 1 && !FirstOfPair(known, n - 1) {
          assert known[n - 2] / 2 == p;
        }
      }
    }
  }

  lemma {:induction false} ParentsSorted(known: seq<nat>, n: nat)
    requires Sorted(known) && n <= |known|
    ensures Sorted(ParentsUpTo(known, n))
  {
    if n == 0 {
    } else {
      ParentsSorted(known, n - 1);
      PairFacts(known, n - 1);
      var before := ParentsUpTo(known, n - 1);
      forall j | 0 <= j < |before|
        ensures FirstOfPair(known, n - 1) ==> before[j] < known[n - 1] / 2
      {
        assert before[j] in before;
        ParentsMembers(known, n - 1, before[j]);
        var i :| 0 <= i < n - 1 && known[i] / 2 == before[j];
      }
    }
  }

  lemma {:induction false} ParentsUpToFacts(known: seq<nat>, n: nat)
    requires Sorted(known) && n <= |known|
    ensures Sorted(ParentsUpTo(known, n))
    ensures forall p :: p in ParentsUpTo(known, n) <==> exists i :: 0 <= i < n && known[i] / 2 == p
  {
    ParentsSorted(known, n);
    forall p
      ensures p in ParentsUpTo(known, n) <==> exists i :: 0 <= i < n && known[i] / 2 == p
    {
      if p >= 0 {
        ParentsMembers(known, n, p);
      }
    }
  }

  /** The inner loop: walk the known nodes in order and visit every parent once. */
  method ScanLevel(known: seq<nat>, level: nat) returns (missing: seq<Position>, next: seq<nat>)
    requires Sorted(known)
    ensures missing == MissingUpTo(known, level, |known|)
    ensures next == Parents(known)
  {
    missing, next := [], [];
    var processed: set<nat> := {};
    for i := 0 to |known|
      invariant missing == MissingUpTo(known, level, i)
      invariant next == ParentsUpTo(known, i)
      invariant forall base: nat :: base in processed <==> exists k :: 0 <= k < i && known[k] / 2 * 2 == base
    {
      var base := known[i] / 2 * 2;
      PairFacts(known, i);
      if base !in processed {
        assert FirstOfPair(known, i);
        processed := processed + {base};
        var leftKnown, rightKnown := base in known, (base + 1) in known;
        assert known[i] in known;
        if leftKnown && !rightKnown {
          missing := missing + [Position(level, base + 1)];
        } else if !leftKnown && rightKnown {
          missing := missing + [Position(level, base)];
        }
        next := next + [base / 2];
      } else {
        assert !FirstOfPair(known, i);
      }
    }
  }

  /** The missing-sibling coordinates of a touched set, in canonical order. */
  method FrontierSiblingPositions(indices: seq<nat>, depth: nat) returns (r: Result<seq<Position>, SparseMerkleError>)
    ensures r.Ok? <==> CanonicalIndices(indices, depth)
    ensures r.Ok? ==> r.value == FrontierFrom(indices, 0, depth)
  {
    var error := ValidateIndices(indices, depth);
    if error.Some? {
      return Err(error.value);
    }
    var known := indices;
    var positions := [];
    for level := 0 to depth
      invariant Sorted(known)
      invariant positions + FrontierFrom(known, level, depth - level) == FrontierFrom(indices, 0, depth)
    {
      var missing, next := ScanLevel(known, level);
      ParentsUpToFacts(known, |known|);
      MovePart(positions, missing, FrontierFrom(next, level + 1, depth - level - 1));
      positions := positions + missing;
      known := next;
    }
    r := Ok(positions);
  }
}
