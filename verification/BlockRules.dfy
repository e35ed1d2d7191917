/**
 * Which blocks the parser accepts and what it reports, by meaning (crates/usdd-bitcoin-bmm/src/block.rs):
 * canonical transactions, the Merkle tree level by level, BIP141's witness commitment, and the fields of
 * the header by position.
 */
module BlockRules {
  import opened Machine
  import opened Blocks
  import opened TransactionCodec
  import opened BlockParser
  import OrderedMerkle

  // ----- Merkle trees level by level -----

  /** Two neighbours in a row, left before right; an odd last one twice. */
  function Neighbours(level: seq<Hash>, k: nat): Bytes
    requires 2 * k < |level|
  {
    var left: Bytes := level[2 * k];
    var right: Bytes := if 2 * k + 1 < |level| then level[2 * k + 1] else level[2 * k];
    left + right
  }

  /** `next` holds the double SHA-256 of each two neighbours. */
  ghost predicate Pairs(next: seq<Hash>, level: seq<Hash>, sha: HashFunction) {
    && |next| == (|level| + 1) / 2
    && forall k :: 0 <= k < |next| ==> next[k] == sha(Neighbours(level, k))
  }

  /** All levels of the tree over `leaves`, up to a single hash. */
  ghost predicate Levels(levels: seq<seq<Hash>>, leaves: seq<Hash>, sha: HashFunction) {
    && levels != [] && levels[0] == leaves && |levels[|levels| - 1]| == 1
    && forall n :: 0 <= n < |levels| - 1 ==> |levels[n]| > 1 && Pairs(levels[n + 1], levels[n], sha)
  }

  /** Two equal hashes are paired with each other at some level. */
  ghost predicate Twins(levels: seq<seq<Hash>>) {
    exists n :: 0 <= n < |levels| && OrderedMerkle.HasTwins(levels[n])
  }

  ghost predicate TopIs(levels: seq<seq<Hash>>, root: Hash) {
    levels != [] && levels[|levels| - 1] == [root]
  }

  lemma {:induction false} PairsIsPairUp(next: seq<Hash>, level: seq<Hash>, sha: HashFunction)
    ensures Pairs(next, level, sha) <==> next == OrderedMerkle.PairUp(OrderedMerkle.Concatenated(sha), level)
  {
    var node := OrderedMerkle.Concatenated(sha);
    forall k | 0 <= k < |OrderedMerkle.PairUp(node, level)|
      ensures OrderedMerkle.PairUp(node, level)[k] == sha(Neighbours(level, k))
    {
      OrderedMerkle.PairUpAt(node, level, k);
    }
  }

  lemma {:induction false} UpperLevels(levels: seq<seq<Hash>>, leaves: seq<Hash>, sha: HashFunction)
    requires Levels(levels, leaves, sha) && |levels| > 1
    ensures Levels(levels[1..], levels[1], sha)
    ensures Twins(levels) <==> OrderedMerkle.HasTwins(leaves) || Twins(levels[1..])
    ensures forall root :: TopIs(levels[1..], root) <==> TopIs(levels, root)
  {
    var upper := levels[1..];
    forall n | 0 <= n < |upper| - 1
      ensures |upper[n]| > 1 && Pairs(upper[n + 1], upper[n], sha)
    {
      assert Pairs(levels[n + 2], levels[n + 1], sha);
    }
    if Twins(levels) {
      var n :| 0 <= n < |levels| && OrderedMerkle.HasTwins(levels[n]);
      if n > 0 {
        assert OrderedMerkle.HasTwins(upper[n - 1]);
      }
    }
    if Twins(upper) {
      var n :| 0 <= n < |upper| && OrderedMerkle.HasTwins(upper[n]);
      assert OrderedMerkle.HasTwins(levels[n + 1]);
    }
  }

  /** The reduction computes the top of the tree, and its flag says whether any level has twins. */
  lemma {:induction false} LevelsMean(levels: seq<seq<Hash>>, leaves: seq<Hash>, sha: HashFunction)
    requires Levels(levels, leaves, sha) && leaves != []
    ensures TopIs(levels, MerkleRoot(leaves, sha)) && (Twins(levels) <==> MerkleMutated(leaves, sha))
    decreases |levels|
  {
    if |levels| > 1 {
      assert Pairs(levels[1], levels[0], sha);
      PairsIsPairUp(levels[1], leaves, sha);
      UpperLevels(levels, leaves, sha);
      LevelsMean(levels[1..], levels[1], sha);
    } else {
      assert leaves == [leaves[0]];
    }
  }

  lemma {:induction false} LevelsExist(leaves: seq<Hash>, sha: HashFunction) returns (levels: seq<seq<Hash>>)
    requires leaves != []
    ensures Levels(levels, leaves, sha)
    decreases |leaves|
  {
    if |leaves| == 1 {
      levels := [leaves];
    } else {
      var next := OrderedMerkle.PairUp(OrderedMerkle.Concatenated(sha), leaves);
      PairsIsPairUp(next, leaves, sha);
      var upper := LevelsExist(next, sha);
      levels := [leaves] + upper;
      forall n | 0 <= n < |levels| - 1
        ensures |levels[n]| > 1 && Pairs(levels[n + 1], levels[n], sha)
      {
        if n > 0 {
          assert |upper[n - 1]| > 1 && Pairs(upper[n], upper[n - 1], sha);
        }
      }
    }
  }

  // ----- the witness commitment -----

  /** The script starts like a witness commitment and has room for its hash. */
  predicate LooksCommitted(script: Bytes) {
    |script| >= 38 && script[..6] == [0x6a, 0x24, 0xaa, 0x21, 0xa9, 0xed]
  }

  ghost predicate IsLastCommitment(outputs: seq<TxOut>, index: nat) {
    && index < |outputs| && LooksCommitted(outputs[index].script)
    && forall k :: index < k < |outputs| ==> !LooksCommitted(outputs[k].script)
  }

  lemma {:induction false} LastCommitmentIs(outputs: seq<TxOut>)
    ensures forall index: nat :: CommitmentIndex(outputs) == Some(index) <==> IsLastCommitment(outputs, index)
    ensures CommitmentIndex(outputs) == None <==> forall k :: 0 <= k < |outputs| ==> !LooksCommitted(outputs[k].script)
  {
    assert forall k :: 0 <= k < |outputs| ==> (IsCommitment(outputs[k].script) <==> LooksCommitted(outputs[k].script));
  }

  /** The hashes with witness, the coinbase's own replaced by zero. */
  ghost predicate WitnessLeaves(leaves: seq<Hash>, txs: seq<Transaction>, sha: HashFunction) {
    |leaves| == |txs| && forall k :: 0 <= k < |txs| ==> leaves[k] == if k == 0 then ZERO_HASH else sha(Serialize(txs[k]))
  }

  ghost predicate NeedsNoCommitment(txs: seq<Transaction>)
    requires txs != []
  {
    && (forall k :: 0 <= k < |txs| ==> !txs[k].segwit)
    && forall k :: 0 <= k < |txs[0].outputs| ==> !LooksCommitted(txs[0].outputs[k].script)
  }

  /** The last commitment holds the hash of the witness root and of the coinbase's one 32-byte stack item. */
  ghost predicate Commits(txs: seq<Transaction>, index: nat, levels: seq<seq<Hash>>, root: Hash, sha: HashFunction)
    requires txs != []
  {
    && IsLastCommitment(txs[0].outputs, index)
    && levels != [] && Levels(levels, levels[0], sha) && WitnessLeaves(levels[0], txs, sha) && TopIs(levels, root)
    && |txs[0].stacks| > 0 && |txs[0].stacks[0]| == 1 && |txs[0].stacks[0][0]| == 32
    && txs[0].outputs[index].script[6..38] == sha(root + txs[0].stacks[0][0])
  }

  /** What the parser knows of a transaction. */
  ghost predicate Reports(view: ParsedTransaction, t: Transaction, sha: HashFunction) {
    && view.txid == sha(Stripped(t)) && view.wtxid == sha(Serialize(t))
    && view.strippedSize == |Stripped(t)| && view.hasWitness == t.segwit && view.outputs == t.outputs
    && (view.coinbase.Some? <==> IsCoinbase(t.inputs))
    && |view.inputs| == |t.inputs| && multiset(view.inputs) == multiset(Outpoints(t.inputs))
    && (view.coinbase.Some? ==>
          && view.coinbase.value.version == t.version && view.coinbase.value.lockTime == t.lockTime
          && view.coinbase.value.inputsAndOutputCount == SerInputs(t.inputs) + EncodeCompactSize(|t.outputs|)
          && view.coinbase.value.outputs == t.outputs
          && view.coinbase.value.witnessItems == if t.stacks == [] then [] else t.stacks[0])
  }

  lemma {:induction false} ViewReports(t: Transaction, sha: HashFunction)
    ensures Reports(View(t, sha), t, sha)
  {
    SortPermutes(Outpoints(t.inputs));
    assert |multiset(View(t, sha).inputs)| == |multiset(Outpoints(t.inputs))|;
  }

  lemma {:induction false} ViewsReport(txs: seq<Transaction>, sha: HashFunction)
    ensures forall k :: 0 <= k < |txs| ==> Reports(Views(txs, sha)[k], txs[k], sha)
  {
    forall k | 0 <= k < |txs|
      ensures Reports(Views(txs, sha)[k], txs[k], sha)
    {
      ViewAt(txs, k, sha);
      ViewReports(txs[k], sha);
    }
  }

  lemma {:induction false} WtxidLeaves(txs: seq<Transaction>, sha: HashFunction)
    requires txs != []
    ensures WitnessLeaves(Wtxids(Views(txs, sha))[0 := ZERO_HASH], txs, sha)
    ensures AnyWitness(Views(txs, sha)) <==> exists k :: 0 <= k < |txs| && txs[k].segwit
  {
    forall k | 0 <= k < |txs|
      ensures Views(txs, sha)[k] == View(txs[k], sha)
    {
      ViewAt(txs, k, sha);
    }
  }

  /** The witness check passes exactly by the rule of BIP141. */
  lemma {:induction false} WitnessIff(txs: seq<Transaction>, coinbase: ParsedCoinbase, sha: HashFunction)
    requires txs != [] && coinbase.outputs == txs[0].outputs && coinbase.witnessItems == FirstStack(txs[0])
    ensures CheckWitness(coinbase, Wtxids(Views(txs, sha)), AnyWitness(Views(txs, sha)), sha).Ok? <==>
      NeedsNoCommitment(txs) || exists index, levels, root :: Commits(txs, index, levels, root, sha)
  {
    var leaves := Wtxids(Views(txs, sha))[0 := ZERO_HASH];
    WtxidLeaves(txs, sha);
    LastCommitmentIs(txs[0].outputs);
    var levels := LevelsExist(leaves, sha);
    LevelsMean(levels, leaves, sha);
    if CheckWitness(coinbase, Wtxids(Views(txs, sha)), AnyWitness(Views(txs, sha)), sha).Ok? && !NeedsNoCommitment(txs) {
      assert Commits(txs, CommitmentIndex(txs[0].outputs).value, levels, MerkleRoot(leaves, sha), sha);
    }
    forall index, others, root | Commits(txs, index, others, root, sha)
      ensures root == MerkleRoot(leaves, sha)
    {
      assert others[0] == leaves;
      LevelsMean(others, leaves, sha);
    }
  }

  // ----- the block -----

  ghost predicate TxidLeaves(leaves: seq<Hash>, txs: seq<Transaction>, sha: HashFunction) {
    |leaves| == |txs| && forall k :: 0 <= k < |txs| ==> leaves[k] == sha(Stripped(txs[k]))
  }

  /** The txids' tree, without twins and with this root. */
  ghost predicate Tree(txs: seq<Transaction>, levels: seq<seq<Hash>>, root: Hash, sha: HashFunction) {
    && levels != [] && Levels(levels, levels[0], sha) && TxidLeaves(levels[0], txs, sha)
    && !Twins(levels) && TopIs(levels, root)
  }

  lemma {:induction false} TreeIff(txs: seq<Transaction>, root: Hash, sha: HashFunction)
    requires txs != []
    ensures MerkleRoot(Txids(Views(txs, sha)), sha) == root && !MerkleMutated(Txids(Views(txs, sha)), sha) <==>
      exists levels :: Tree(txs, levels, root, sha)
  {
    var txids := Txids(Views(txs, sha));
    ViewTxids(txs, sha);
    var levels := LevelsExist(txids, sha);
    LevelsMean(levels, txids, sha);
    if MerkleRoot(txids, sha) == root && !MerkleMutated(txids, sha) {
      assert Tree(txs, levels, root, sha);
    }
    forall others | Tree(txs, others, root, sha)
      ensures MerkleRoot(txids, sha) == root && !MerkleMutated(txids, sha)
    {
      assert others[0] == txids;
      LevelsMean(others, txids, sha);
    }
  }

  /** Canonical transactions within the weight limit, whose Merkle tree has no twins and the header's root at
      its top, and a witness commitment if one is needed. */
  ghost predicate Acceptable(bytes: Bytes, txs: seq<Transaction>, sha: HashFunction) {
    && CanonicalBlock(bytes, txs)
    && 3 * StrippedSize(txs) + |bytes| <= 4_000_000
    && (exists levels :: Tree(txs, levels, bytes[36..68], sha))
    && (NeedsNoCommitment(txs) || exists index, tree, root :: Commits(txs, index, tree, root, sha))
  }

  /** The header's fields by their positions. */
  ghost predicate HeaderReported(header: Header, bytes: Bytes)
    requires |bytes| >= 80
  {
    && header.version == FromLittleEndian(bytes[0..4]) && header.previous == bytes[4..36]
    && header.merkleRoot == bytes[36..68] && header.time == FromLittleEndian(bytes[68..72])
    && header.bits == FromLittleEndian(bytes[72..76]) && header.nonce == FromLittleEndian(bytes[76..80])
  }

  ghost predicate ListReported(b: ParsedBlock, txs: seq<Transaction>, sha: HashFunction)
    requires txs != []
  {
    && |b.transactions| == |txs| && Some(b.coinbase) == b.transactions[0].coinbase
    && TxidLeaves(b.txids, txs, sha) && b.coinbaseTxid == sha(Stripped(txs[0]))
    && forall k :: 0 <= k < |txs| ==> Reports(b.transactions[k], txs[k], sha)
  }

  /** Every field that the parser reports. */
  ghost predicate Reported(b: ParsedBlock, bytes: Bytes, txs: seq<Transaction>, sha: HashFunction)
    requires |bytes| >= 80 && txs != []
  {
    && HeaderReported(b.header, bytes) && b.hash == sha(bytes[..80])
    && b.transactionCount == |txs| && b.strippedSize == StrippedSize(txs) && b.totalSize == |bytes|
    && b.weight == 3 * StrippedSize(txs) + |bytes|
    && ListReported(b, txs, sha)
  }

  lemma {:induction false} ViewTxids(txs: seq<Transaction>, sha: HashFunction)
    ensures TxidLeaves(Txids(Views(txs, sha)), txs, sha)
  {
    forall k | 0 <= k < |txs|
      ensures Views(txs, sha)[k] == View(txs[k], sha)
    {
      ViewAt(txs, k, sha);
    }
  }

  lemma {:induction false} BoundIs(header: Header, bytes: Bytes, txs: seq<Transaction>, views: seq<ParsedTransaction>, sha: HashFunction)
    requires CanonicalBlock(bytes, txs) && views == Views(txs, sha) && header == DecodeHeader(bytes[..HEADER_LEN]).value
    requires views[0].coinbase.Some? && views[0].coinbase.value.outputs == txs[0].outputs
    requires views[0].coinbase.value.witnessItems == FirstStack(txs[0])
    ensures Bound(header, bytes, |txs|, StrippedSize(txs), views, sha).Ok? <==> Acceptable(bytes, txs, sha)
  {
    assert header.merkleRoot == bytes[36..68];
    TreeIff(txs, header.merkleRoot, sha);
    WitnessIff(txs, views[0].coinbase.value, sha);
  }

  lemma {:induction false} FirstView(bytes: Bytes, txs: seq<Transaction>, sha: HashFunction)
    requires CanonicalBlock(bytes, txs)
    ensures Views(txs, sha)[0].coinbase.Some?
    ensures Views(txs, sha)[0].coinbase.value.outputs == txs[0].outputs
    ensures Views(txs, sha)[0].coinbase.value.witnessItems == FirstStack(txs[0])
  {
    ViewAt(txs, 0, sha);
  }

  lemma {:induction false} VerdictIs(bytes: Bytes, txs: seq<Transaction>, sha: HashFunction)
    requires BlockTransactions(bytes) == Some(txs)
    ensures ParseBlock(bytes, sha).Some? <==> Acceptable(bytes, txs, sha)
  {
    BlockFields(bytes, txs, sha);
    FirstView(bytes, txs, sha);
    BoundIs(DecodeHeader(bytes[..HEADER_LEN]).value, bytes, txs, Views(txs, sha), sha);
  }

  /** A block is accepted exactly when it is the canonical serialization of acceptable transactions. */
  lemma {:induction false} AcceptedIff(bytes: Bytes, sha: HashFunction)
    ensures ParseBlock(bytes, sha).Some? <==> exists txs :: Acceptable(bytes, txs, sha)
  {
    if ParseBlock(bytes, sha).Some? {
      VerdictIs(bytes, BlockTransactions(bytes).value, sha);
    }
    forall txs | Acceptable(bytes, txs, sha)
      ensures ParseBlock(bytes, sha).Some?
    {
      BlockTransactionsExact(bytes, txs);
      VerdictIs(bytes, txs, sha);
    }
  }

  lemma {:induction false} BoundReports(header: Header, bytes: Bytes, txs: seq<Transaction>, b: ParsedBlock, sha: HashFunction)
    requires CanonicalBlock(bytes, txs) && header == DecodeHeader(bytes[..HEADER_LEN]).value && Views(txs, sha)[0].coinbase.Some?
    requires Bound(header, bytes, |txs|, StrippedSize(txs), Views(txs, sha), sha) == Ok(b)
    ensures Reported(b, bytes, txs, sha)
  {
    HeaderFields(bytes);
    BoundSizes(header, bytes, |txs|, StrippedSize(txs), Views(txs, sha), sha);
    BoundLists(header, bytes, txs, b, sha);
  }

  lemma {:induction false} BoundLists(header: Header, bytes: Bytes, txs: seq<Transaction>, b: ParsedBlock, sha: HashFunction)
    requires txs != [] && |bytes| >= HEADER_LEN && Views(txs, sha)[0].coinbase.Some?
    requires Bound(header, bytes, |txs|, StrippedSize(txs), Views(txs, sha), sha) == Ok(b)
    ensures ListReported(b, txs, sha)
    ensures b.header == header && b.hash == sha(bytes[..HEADER_LEN]) && b.transactionCount == |txs|
  {
    ViewTxids(txs, sha);
    ViewsReport(txs, sha);
  }

  lemma {:induction false} HeaderFields(bytes: Bytes)
    requires |bytes| >= HEADER_LEN
    ensures HeaderReported(DecodeHeader(bytes[..HEADER_LEN]).value, bytes)
  {
    var head := bytes[..HEADER_LEN];
    assert head[0..4] == bytes[0..4] && head[4..36] == bytes[4..36] && head[36..68] == bytes[36..68];
    assert head[68..72] == bytes[68..72] && head[72..76] == bytes[72..76] && head[76..80] == bytes[76..80];
  }

  /** What the parser reports of an accepted block is read off its bytes and its transactions. */
  lemma {:induction false} AcceptedReports(bytes: Bytes, txs: seq<Transaction>, sha: HashFunction)
    requires ParseBlock(bytes, sha).Some? && CanonicalBlock(bytes, txs)
    ensures Reported(ParseBlock(bytes, sha).value, bytes, txs, sha)
  {
    BlockTransactionsExact(bytes, txs);
    BlockFields(bytes, txs, sha);
    FirstView(bytes, txs, sha);
    BoundReports(DecodeHeader(bytes[..HEADER_LEN]).value, bytes, txs, ParseBlock(bytes, sha).value, sha);
  }
}
