/** From the cap of a column commitment to a segment root: pairwise compression of a list of hashes,
    with a pad for odd layers, then the segment depth mixed in. */
module SegmentCap {
  import opened Powers
  import opened Types
  import opened Merkle
  import opened Wire

  const MERKLE_CAP_DEPTH: nat := 5
  const LOG_RATE: nat := 2

  /** The label the code puts in the last sixteen bytes of an odd layer's pad. */
  const PAD_LABEL: string := "JETSAM_STATE_PADv"

  /** `copy_from_slice`: succeeds exactly on equal lengths. */
  function CopyInto(length: nat, bytes: seq<byte>): Option<seq<byte>> {
    if |bytes| == length then Some(bytes) else None
  }

  function LabelBytes(padLabel: string): (bytes: seq<byte>)
    ensures |bytes| == |padLabel|
  {
    seq(|padLabel|, i requires 0 <= i < |padLabel| => padLabel[i] as int % 256)
  }

  /** The pad as two little-endian words: level and length, then the label. */
  function PadBlock(level: nat, layerLen: nat, tail: seq<byte>): Digest
    requires |tail| == 16
  {
    WordSizes();
    Opaque(Word256(level % U64_LIMIT + layerLen % U64_LIMIT * U64_LIMIT, FromLittleEndian(tail)))
  }

  /** `state_cap_odd_pad`: level, layer length and label in one 32-byte block. */
  function OddPad(level: nat, layerLen: nat, padLabel: string): (pad: Option<Digest>)
    ensures pad.Some? <==> |padLabel| == 16
  {
    match CopyInto(16, LabelBytes(padLabel))
    case None => None
    case Some(tail) => Some(PadBlock(level, layerLen, tail))
  }

  /** One round: pad to an even length if the label allows it, then compress neighbours. */
  function Padded(layer: seq<Digest>, level: nat, padLabel: string): (padded: Option<seq<Digest>>)
    ensures padded.Some? <==> |layer| % 2 == 0 || |padLabel| == 16
    ensures padded.Some? ==> |padded.value| == |layer| + |layer| % 2 && padded.value[..|layer|] == layer
  {
    if |layer| % 2 == 0 then Some(layer)
    else match OddPad(level, |layer|, padLabel)
      case None => None
      case Some(pad) => Some(layer + [pad])
  }

  function Compressed(layer: seq<Digest>): (next: seq<Digest>)
    requires |layer| % 2 == 0
    ensures |next| == |layer| / 2
  {
    seq(|layer| / 2, j requires 0 <= j < |layer| / 2 => Node(PlainNode, layer[2 * j], layer[2 * j + 1]))
  }

  /** The cap root; `None` where the code stops without a result. */
  function CapRoot(layer: seq<Digest>, level: nat, padLabel: string): Option<Digest>
    decreases |layer|
  {
    if |layer| == 0 then None
    else if |layer| == 1 then Some(layer[0])
    else match Padded(layer, level, padLabel)
      case None => None
      case Some(padded) => CapRoot(Compressed(padded), level + 1, padLabel)
  }

  method CompressLayer(layer: seq<Digest>) returns (next: seq<Digest>)
    requires |layer| % 2 == 0
    ensures next == Compressed(layer)
  {
    next := [];
    for j := 0 to |layer| / 2
      invariant next == Compressed(layer)[..j]
    {
      next := next + [Node(PlainNode, layer[2 * j], layer[2 * j + 1])];
    }
  }

  method PadLayer(layer: seq<Digest>, level: nat, padLabel: string) returns (padded: Option<seq<Digest>>)
    ensures padded == Padded(layer, level, padLabel)
  {
    padded := Some(layer);
    if |layer| % 2 == 1 {
      var pad := OddPad(level, |layer|, padLabel);
      padded := if pad.None? then None else Some(layer + [pad.value]);
    }
  }

  /** One turn of the loop: half as many hashes with the same cap root, or no root. */
  method OneRound(layer: seq<Digest>, level: nat, padLabel: string) returns (next: Option<seq<Digest>>)
    requires |layer| > 1
    ensures next.Some? ==> 0 < |next.value| < |layer|
    ensures next.Some? ==> CapRoot(next.value, level + 1, padLabel) == CapRoot(layer, level, padLabel)
    ensures next.None? ==> CapRoot(layer, level, padLabel) == None
  {
    var padded := PadLayer(layer, level, padLabel);
    if padded.None? {
      return None;
    }
    var half := CompressLayer(padded.value);
    next := Some(half);
  }

  /** `cap_to_seg_root`. */
  method CapToSegRoot(hashes: seq<Digest>, padLabel: string) returns (root: Option<Digest>)
    ensures root == CapRoot(hashes, 0, padLabel)
  {
    if |hashes| == 0 {
      return None;
    }
    var layer, level := hashes, 0;
    while |layer| > 1
      invariant |layer| > 0 && CapRoot(layer, level, padLabel) == CapRoot(hashes, 0, padLabel)
      decreases |layer|
    {
      var next := OneRound(layer, level, padLabel);
      if next.None? {
        return None;
      }
      layer, level := next.value, level + 1;
    }
    root := Some(layer[0]);
  }

  predicate IsPowerOfTwo(n: nat) {
    exists d: nat :: d <= n && n == Pow2(d)
  }

  lemma {:induction false} Pow2Exceeds(d: nat)
    ensures d < Pow2(d)
  {
    if d == 0 {
    } else {
      Pow2Exceeds(d - 1);
    }
  }

  lemma {:induction false} HalfIsPower(n: nat)
    requires n > 1
    ensures IsPowerOfTwo(n) <==> n % 2 == 0 && IsPowerOfTwo(n / 2)
  {
    if IsPowerOfTwo(n) {
      var d: nat :| d <= n && n == Pow2(d);
      assert d > 0 && n / 2 == Pow2(d - 1);
      Pow2Exceeds(d - 1);
    }
    if n % 2 == 0 && IsPowerOfTwo(n / 2) {
      var d: nat :| d <= n / 2 && n / 2 == Pow2(d);
      assert n == Pow2(d + 1);
      Pow2Exceeds(d + 1);
    }
  }

  /** A root comes out exactly for a non-empty cap whose label fits or whose length is a power of two. */
  lemma {:induction false} CompletesExactly(layer: seq<Digest>, level: nat, padLabel: string)
    ensures CapRoot(layer, level, padLabel).Some? <==> |layer| > 0 && (|padLabel| == 16 || IsPowerOfTwo(|layer|))
    decreases |layer|
  {
    if |layer| == 1 {
      assert 1 == Pow2(0);
    } else if |layer| > 1 {
      HalfIsPower(|layer|);
      match Padded(layer, level, padLabel)
      case None =>
      case Some(padded) => CompletesExactly(Compressed(padded), level + 1, padLabel);
    } else {
      assert forall d: nat :: Pow2(d) > 0;
    }
  }

  /** With the label as written, seventeen bytes for sixteen places, only a power of two completes. */
  lemma {:induction false} CompletesOnPowersOfTwo(hashes: seq<Digest>)
    ensures CapRoot(hashes, 0, PAD_LABEL).Some? <==> IsPowerOfTwo(|hashes|)
  {
    CompletesExactly(hashes, 0, PAD_LABEL);
    assert |PAD_LABEL| == 17;
  }

  /** The documented cap, thirty-two hashes and one source root, has no segment root. */
  lemma {:induction false} DocumentedCapStops(hashes: seq<Digest>)
    requires |hashes| == 33
    ensures CapRoot(hashes, 0, PAD_LABEL) == None
  {
    CompletesOnPowersOfTwo(hashes);
    HalfIsPower(33);
  }

  /** `source_cap_depth` for the rows a segment of depth `effLog` is padded to. */
  function SourceCapDepth(effLog: nat): nat {
    var logRows := if effLog < MERKLE_CAP_DEPTH then MERKLE_CAP_DEPTH else effLog;
    var treeDepth := logRows + LOG_RATE - 1;
    if MERKLE_CAP_DEPTH < treeDepth then MERKLE_CAP_DEPTH else treeDepth
  }

  /** How many hashes the commitment's cap holds: its own, then the source tree's. */
  function CapLength(effLog: nat): nat {
    Pow2(MERKLE_CAP_DEPTH) + Pow2(SourceCapDepth(effLog))
  }

  /** The caps the commitment builds always hold sixty-four hashes, so their roots always exist. */
  lemma {:induction false} BuiltCapsComplete(effLog: nat, hashes: seq<Digest>)
    requires |hashes| == CapLength(effLog)
    ensures |hashes| == 64 && CapRoot(hashes, 0, PAD_LABEL).Some?
  {
    assert Pow2(2) == 4 && Pow2(5) == 32 && Pow2(6) == 64;
    CompletesOnPowersOfTwo(hashes);
  }

  // Binding.

  lemma {:induction false} CompressedBinds(a: seq<Digest>, b: seq<Digest>)
    requires |a| == |b| && |a| % 2 == 0 && Compressed(a) == Compressed(b)
    ensures a == b
  {
    forall i | 0 <= i < |a|
      ensures a[i] == b[i]
    {
      assert Compressed(a)[i / 2] == Compressed(b)[i / 2];
      assert i == 2 * (i / 2) || i == 2 * (i / 2) + 1;
    }
  }

  lemma {:induction false} RoundBinds(a: seq<Digest>, b: seq<Digest>, pa: seq<Digest>, pb: seq<Digest>)
    requires |a| == |b| && |pa| == |pb| && |pa| % 2 == 0 && |a| <= |pa| && pa[..|a|] == a && pb[..|b|] == b
    requires Compressed(pa) == Compressed(pb)
    ensures a == b
  {
    CompressedBinds(pa, pb);
  }

  /** One round of a cap that has a root. */
  lemma {:induction false} RoundOf(layer: seq<Digest>, level: nat, padLabel: string)
    returns (padded: seq<Digest>, half: seq<Digest>)
    requires |layer| > 1 && CapRoot(layer, level, padLabel).Some?
    ensures |padded| % 2 == 0 && |padded| == |layer| + |layer| % 2 && padded[..|layer|] == layer
    ensures half == Compressed(padded) && |half| < |layer|
    ensures CapRoot(layer, level, padLabel) == CapRoot(half, level + 1, padLabel)
  {
    padded := Padded(layer, level, padLabel).value;
    half := Compressed(padded);
  }

  /** No hash of a cap is dropped: one root, whatever the label, comes from one cap of its length. */
  lemma {:induction false} RootBindsCap(a: seq<Digest>, b: seq<Digest>, level: nat, padLabel: string)
    requires |a| == |b| && CapRoot(a, level, padLabel).Some?
             && CapRoot(a, level, padLabel) == CapRoot(b, level, padLabel)
    ensures a == b
    decreases |a|
  {
    if |a| > 1 {
      var pa, ha := RoundOf(a, level, padLabel);
      var pb, hb := RoundOf(b, level, padLabel);
      RootBindsCap(ha, hb, level + 1, padLabel);
      RoundBinds(a, b, pa, pb);
    } else {
      assert a == [a[0]] && b == [b[0]];
    }
  }

  lemma {:induction false} TreeOfHalf(hashes: seq<Digest>, depth: nat)
    requires depth > 0 && |hashes| == Pow2(depth)
    ensures Tree(PlainNode, ZeroDigest, hashes).At(depth, 0)
         == Tree(PlainNode, ZeroDigest, Compressed(hashes)).At(depth - 1, 0)
  {
    ShlIsProduct(1, depth - 1);
    var t, upper := Tree(PlainNode, ZeroDigest, hashes), Tree(PlainNode, ZeroDigest, Compressed(hashes));
    LayerUp(t, upper, depth - 1, 0);
  }

  /** A full cap's root is the root of the binary tree over its hashes. */
  lemma {:induction false} RootIsTreeRoot(hashes: seq<Digest>, depth: nat, level: nat, padLabel: string)
    requires |hashes| == Pow2(depth)
    ensures CapRoot(hashes, level, padLabel) == Some(Tree(PlainNode, ZeroDigest, hashes).At(depth, 0))
    decreases depth
  {
    if depth == 0 {
    } else {
      TreeOfHalf(hashes, depth);
      RootIsTreeRoot(Compressed(hashes), depth - 1, level + 1, padLabel);
    }
  }

  lemma {:induction false} LayerUp(t: Tree, upper: Tree, level: nat, index: nat)
    requires t.tag == upper.tag == PlainNode && |t.leaves| % 2 == 0 && upper.leaves == Compressed(t.leaves)
    requires Shl(index + 1, level) <= |upper.leaves|
    ensures t.At(level + 1, index) == upper.At(level, index)
  {
    if level == 0 {
      assert t.At(1, index) == Node(PlainNode, t.At(0, 2 * index), t.At(0, 2 * index + 1));
    } else {
      ShlDouble(index + 1, level - 1);
      ShlMonotone(2 * index + 1, 2 * index + 2, level - 1);
      LayerUp(t, upper, level - 1, 2 * index);
      LayerUp(t, upper, level - 1, 2 * index + 1);
    }
  }

  /** `cap_to_seg_root_with_depth`. */
  function SegRoot(hashes: seq<Digest>, effLog: u64, padLabel: string): Option<Digest> {
    match CapRoot(hashes, 0, padLabel)
    case None => None
    case Some(base) => Some(Node(PlainNode, base, Opaque(Word256(effLog, 0))))
  }

  /** A segment root binds the depth and every hash of the cap. */
  lemma {:induction false} SegRootBinds(a: seq<Digest>, b: seq<Digest>, effLogA: u64, effLogB: u64)
    requires |a| == CapLength(effLogA) && |b| == CapLength(effLogB)
    ensures SegRoot(b, effLogB, PAD_LABEL).Some?
    ensures SegRoot(a, effLogA, PAD_LABEL)
         == Some(Node(PlainNode, Tree(PlainNode, ZeroDigest, a).At(6, 0), Opaque(Word256(effLogA, 0))))
    ensures SegRoot(a, effLogA, PAD_LABEL) == SegRoot(b, effLogB, PAD_LABEL) <==> a == b && effLogA == effLogB
  {
    BuiltCapsComplete(effLogA, a);
    BuiltCapsComplete(effLogB, b);
    assert Pow2(6) == 64 by { Pow2Sum(3, 3); }
    RootIsTreeRoot(a, 6, 0, PAD_LABEL);
    if SegRoot(a, effLogA, PAD_LABEL) == SegRoot(b, effLogB, PAD_LABEL) {
      RootBindsCap(a, b, 0, PAD_LABEL);
    }
  }
}
