/** Groups in the transaction tree: where each logical transaction sits and what proves it. */
module LogicalTree {
  import opened Types
  import opened TxHash
  import opened Transactions
  import opened TxTree
  import opened BlockLedger
  import opened BlockInterpreter

  /** The header's transaction root proves, at a group's logical index, that group and nothing else. */
  lemma {:induction false} GroupInclusion(txs: seq<Body>, g: nat, leaf: Digest, path: seq<Digest>)
    requires PageStream(txs, V1).Ok? && g < |PageStream(txs, V1).value.groups| && |path| == TX_TREE_DEPTH
    ensures LogicalTxids(txs).Ok? && BlockTxRoot(txs).Ok?
    ensures var facts, ids := PageStream(txs, V1).value, LogicalTxids(txs).value;
            Verifies(leaf, path, facts.UserLogicalIndex(g), facts.LogicalCount(), BlockTxRoot(txs).value) <==>
            leaf == HashPagedSpend(facts.groups[g])
                && path == Path(HashTree(ids), facts.UserLogicalIndex(g), TX_TREE_DEPTH)
  {
    var facts, ids := PageStream(txs, V1).value, LogicalTxids(txs).value;
    GroupSitsAtLogicalIndex(txs, g);
    LogicalIdsFit(txs);
    UniversalTreeSize();
    VerifiesExactly(ids, leaf, path, facts.UserLogicalIndex(g), facts.LogicalCount());
  }

  /** At the index of a system record the same root proves that record's body hash and nothing else:
      the coinbase at zero, the payout, when there is one, at one. */
  lemma {:induction false} SystemInclusion(txs: seq<Body>, k: nat, leaf: Digest, path: seq<Digest>)
    requires PageStream(txs, V1).Ok? && k < UserStart(txs) && |path| == TX_TREE_DEPTH
    ensures k < |txs| && LogicalTxids(txs).Ok? && BlockTxRoot(txs).Ok?
    ensures var count := UserStart(txs) + |PageStream(txs, V1).value.groups|;
            Verifies(leaf, path, k, count, BlockTxRoot(txs).value) <==>
            && leaf == HashTxBody(txs[k])
            && path == Path(HashTree(LogicalTxids(txs).value), k, TX_TREE_DEPTH)
  {
    SystemSitsFirst(txs, k);
    LogicalIdsFit(txs);
    UniversalTreeSize();
    VerifiesExactly(LogicalTxids(txs).value, leaf, path, k, |LogicalTxids(txs).value|);
  }

  // From ids back to bodies.

  lemma {:induction false} FlattenMember(groups: seq<seq<TxBody<Digest>>>, g: nat, p: nat)
    requires g < |groups| && p < |groups[g]|
    ensures groups[g][p] in Flatten(groups)
  {
    if g == 0 {
    } else {
      FlattenMember(groups[1..], g - 1, p);
    }
  }

  /** The pages of a valid stream's groups have the fixed shape, being the stream's own pages. */
  lemma {:induction false} GroupsOfStream(txs: seq<Body>)
    requires PageStream(txs, V1).Ok?
    ensures UserStart(txs) <= |txs| && Flatten(PageStream(txs, V1).value.groups) == txs[UserStart(txs)..]
    ensures var groups := PageStream(txs, V1).value.groups;
            forall g, p :: 0 <= g < |groups| && 0 <= p < |groups[g]| ==> FixedShape(groups[g][p])
  {
    StreamGroups(txs);
    GroupsPartition<Digest>(txs[UserStart(txs)..]);
    FlattenedShape(PageStream(txs, V1).value.groups, txs[UserStart(txs)..]);
  }

  lemma {:induction false} StreamGroups(txs: seq<Body>)
    requires PageStream(txs, V1).Ok?
    ensures UserStart(txs) <= |txs| && Groups(txs[UserStart(txs)..]) == Some(PageStream(txs, V1).value.groups)
  {
  }

  lemma {:induction false} FlattenedShape(groups: seq<seq<TxBody<Digest>>>, pages: seq<Body>)
    requires Flatten(groups) == pages
    ensures forall g, p :: 0 <= g < |groups| && 0 <= p < |groups[g]| ==> FixedShape(groups[g][p])
  {
    forall g, p | 0 <= g < |groups| && 0 <= p < |groups[g]|
      ensures FixedShape(groups[g][p])
    {
      FlattenMember(groups, g, p);
      var k :| 0 <= k < |pages| && pages[k] == groups[g][p];
    }
  }

  /** Two groups with one id are the same pages. */
  lemma {:induction false} GroupBack(a: seq<TxBody<Digest>>, b: seq<TxBody<Digest>>)
    requires forall p :: 0 <= p < |a| ==> FixedShape(a[p])
    requires forall p :: 0 <= p < |b| ==> FixedShape(b[p])
    requires HashPagedSpend(a) == HashPagedSpend(b)
    ensures a == b
  {
    var a': seq<Body>, b': seq<Body> := a, b;
    PagedHashBinds(a', b');
  }

  /** Both lists have a payout or neither has: an id of a system record is no id of a group. */
  lemma {:induction false} SamePayout(a: seq<Body>, b: seq<Body>)
    requires PageStream(a, V1).Ok? && PageStream(b, V1).Ok? && LogicalTxids(a) == LogicalTxids(b) && HasPayout(a)
    ensures HasPayout(b) && a[1] == b[1]
  {
    var s, t := LogicalTxids(a).value, LogicalTxids(b).value;
    assert s[1] == HashTxBody(a[1]);
    assert t[1] == HashTxBody(b[1]);
    BodyHashBinds(a[1], b[1]);
  }

  lemma {:induction false} SameGroups(a: seq<Body>, b: seq<Body>)
    requires PageStream(a, V1).Ok? && PageStream(b, V1).Ok? && LogicalTxids(a) == LogicalTxids(b)
    requires HasPayout(a) <==> HasPayout(b)
    ensures PageStream(a, V1).value.groups == PageStream(b, V1).value.groups
  {
    var ga, gb := PageStream(a, V1).value.groups, PageStream(b, V1).value.groups;
    SystemSitsFirst(a, 0);
    SystemSitsFirst(b, 0);
    GroupsOfStream(a);
    GroupsOfStream(b);
    forall g | 0 <= g < |ga|
      ensures ga[g] == gb[g]
    {
      GroupSitsAtLogicalIndex(a, g);
      GroupSitsAtLogicalIndex(b, g);
      GroupBack(ga[g], gb[g]);
    }
  }

  lemma {:induction false} IdsBindTransactions(a: seq<Body>, b: seq<Body>)
    requires PageStream(a, V1).Ok? && PageStream(b, V1).Ok? && LogicalTxids(a) == LogicalTxids(b)
    ensures a == b
  {
    var s, t := LogicalTxids(a).value, LogicalTxids(b).value;
    assert s[0] == HashTxBody(a[0]) && t[0] == HashTxBody(b[0]);
    BodyHashBinds(a[0], b[0]);
    if HasPayout(a) {
      SamePayout(a, b);
    } else if HasPayout(b) {
      SamePayout(b, a);
    }
    GroupsOfStream(a);
    GroupsOfStream(b);
    SameGroups(a, b);
    var k := UserStart(a);
    assert a == a[..k] + a[k..] && b == b[..k] + b[k..] && a[..k] == b[..k];
  }

  /** Two valid blocks with one transaction root hold the same transactions, page for page. */
  lemma {:induction false} TxRootBindsTransactions(a: seq<Body>, b: seq<Body>)
    requires PageStream(a, V1).Ok? && PageStream(b, V1).Ok? && BlockTxRoot(a) == BlockTxRoot(b)
    ensures a == b
  {
    LogicalIdsFit(a);
    LogicalIdsFit(b);
    UniversalTreeSize();
    TxRootInjective(LogicalTxids(a).value, LogicalTxids(b).value, TX_TREE_DEPTH);
    IdsBindTransactions(a, b);
  }

  /** `tx_root_merkle_inputs` on a valid block: it succeeds exactly when the header states the block's
      own root, and the entry of every group proves that group under it. */
  method WitnessTxInputs(txRoot: Digest, txs: seq<Body>) returns (r: Option<seq<MerklePathInputs>>)
    requires PageStream(txs, V1).Ok?
    ensures r.Some? <==> BlockTxRoot(txs) == Ok(txRoot)
    ensures r.Some? ==> |r.value| == PageStream(txs, V1).value.LogicalCount()
    ensures r.Some? ==> forall g :: 0 <= g < |PageStream(txs, V1).value.groups| ==>
              r.value[PageStream(txs, V1).value.UserLogicalIndex(g)].leaf
                  == HashPagedSpend(PageStream(txs, V1).value.groups[g])
    ensures r.Some? ==> forall k :: 0 <= k < UserStart(txs) ==> r.value[k].leaf == HashTxBody(txs[k])
  {
    LogicalIdsFit(txs);
    var ids := LogicalTxids(txs).value;
    r := TxRootMerkleInputs(txRoot, ids);
    ghost var facts := PageStream(txs, V1).value;
    if r.Some? {
      assert |ids| == facts.LogicalCount();
      forall g | 0 <= g < |facts.groups|
        ensures r.value[facts.UserLogicalIndex(g)].leaf == HashPagedSpend(facts.groups[g])
      {
        GroupSitsAtLogicalIndex(txs, g);
        assert PathInputsFor(r.value[facts.UserLogicalIndex(g)], ids, facts.UserLogicalIndex(g), TX_TREE_DEPTH);
      }
      forall k | 0 <= k < UserStart(txs)
        ensures r.value[k].leaf == HashTxBody(txs[k])
      {
        SystemSitsFirst(txs, k);
        assert PathInputsFor(r.value[k], ids, k, TX_TREE_DEPTH);
      }
    }
  }
}
