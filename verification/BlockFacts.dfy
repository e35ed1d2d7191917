/**
 * What an accepted block guarantees the modules that consume it: the replay's assumptions, and output
 * limits under which the two M7 extractors agree.
 */
module BlockFacts {
  import opened Machine
  import opened Blocks
  import opened TransactionCodec
  import opened BlockParser
  import opened Commitments
  import opened Replay

  lemma {:induction false} ViewIsReplayable(t: Transaction, sha: HashFunction)
    requires ValidTransaction(t) && !IsCoinbase(t.inputs)
    ensures ReplayableTransaction(View(t, sha))
  {
    var outpoints := Outpoints(t.inputs);
    assert Distinct(outpoints);
    SortPermutes(outpoints);
    DistinctIsMultiplicityOne(outpoints);
    DistinctIsMultiplicityOne(Sort(outpoints));
  }

  lemma {:induction false} OtherIsReplayable(txs: seq<Transaction>, sha: HashFunction, k: nat)
    requires 0 < k < |txs| && ValidTransaction(txs[k]) && !IsCoinbase(txs[k].inputs)
    ensures ReplayableTransaction(Views(txs, sha)[k])
  {
    ViewAt(txs, k, sha);
    ViewIsReplayable(txs[k], sha);
  }

  lemma {:induction false} ViewsAreReplayable(txs: seq<Transaction>, sha: HashFunction, views: seq<ParsedTransaction>)
    requires AllValid(ValidTransaction, txs) && CoinbaseFirst(txs) && txs != [] && views == Views(txs, sha)
    ensures forall k :: 0 < k < |views| ==> ReplayableTransaction(views[k])
  {
    forall k | 0 < k < |views|
      ensures ReplayableTransaction(views[k])
    {
      OtherIsReplayable(txs, sha, k);
    }
  }

  lemma {:induction false} AcceptedOutputs(txs: seq<Transaction>)
    requires AllValid(ValidTransaction, txs) && txs != []
    ensures |txs[0].outputs| <= MAX_OUTPUTS
  {
    assert ValidTransaction(txs[0]);
  }

  /** Every accepted block meets the replay's assumptions about its input. */
  lemma {:induction false} ParsedBlocksAreReplayable(bytes: Bytes, sha: HashFunction)
    requires ParseBlock(bytes, sha).Some?
    ensures Replayable(ParseBlock(bytes, sha).value)
  {
    var b := ParseBlock(bytes, sha).value;
    var txs := AcceptedTransactions(bytes, sha);
    AcceptedOutputs(txs);
    ViewsAreReplayable(txs, sha, b.transactions);
  }

  /** On every parsed block the output limits of the strict extractor cannot fire, so the two agree. */
  lemma {:induction false} ExtractorsAgreeOnBlocks(bytes: Bytes, sha: HashFunction)
    requires ParseBlock(bytes, sha).Some?
    ensures var scripts := Scripts(ParseBlock(bytes, sha).value.coinbase.outputs);
      && Strict(scripts) != Err(M7Error.TooManyOutputs) && Strict(scripts) != Err(AggregateScriptBytesExceeded)
      && (forall i: u32, h: Hash ::
        Strict(scripts) == Ok(UnboundCanonicalM7(i, h)) <==> Observed(scripts) == Ok(Some(ObservedM7(i, h, true))))
  {
    WeightBoundsBase(bytes, sha);
    var outputs := ParseBlock(bytes, sha).value.coinbase.outputs;
    SameBytes(outputs);
    ExtractorsAgree(Scripts(outputs));
  }

  // ----- an outpoint is minted once -----

  /** The transaction without its witness. */
  function WithoutWitness(t: Transaction): Transaction {
    t.(segwit := false, stacks := [])
  }

  lemma {:induction false} WithoutWitnessText(t: Transaction)
    requires ValidTransaction(t)
    ensures ValidTransaction(WithoutWitness(t)) && Serialize(WithoutWitness(t)) == Stripped(t)
  {
    SizesAddUp(WithoutWitness(t));
  }

  /** Equal txid preimages have equal outputs. */
  lemma {:induction false} StrippedFixesOutputs(t: Transaction, t': Transaction)
    requires ValidTransaction(t) && ValidTransaction(t') && Stripped(t) == Stripped(t')
    ensures t.outputs == t'.outputs
  {
    WithoutWitnessText(t);
    WithoutWitnessText(t');
    TransactionComplete(WithoutWitness(t), []);
    TransactionComplete(WithoutWitness(t'), []);
  }

  ghost predicate ParsedFrom(blocks: seq<ParsedBlock>, bytes: seq<Bytes>, sha: HashFunction) {
    |blocks| == |bytes| && forall k :: 0 <= k < |bytes| ==> ParseBlock(bytes[k], sha) == Some(blocks[k])
  }

  lemma {:induction false} ListedIsValid(bytes: Bytes, txs: seq<Transaction>, k: nat)
    requires CanonicalBlock(bytes, txs) && k < |txs|
    ensures ValidTransaction(txs[k])
  {
  }

  lemma {:induction false} OtherView(b: ParsedBlock, txs: seq<Transaction>, k: nat, sha: HashFunction)
    requires b.transactions == Views(txs, sha) && k < |Others(b)|
    ensures k + 1 < |txs| && Others(b)[k] == View(txs[k + 1], sha)
  {
    ViewAt(txs, k + 1, sha);
  }

  /** The transaction behind a block's entry. */
  lemma {:induction false} BehindEntry(bytes: Bytes, b: ParsedBlock, k: nat, sha: HashFunction) returns (t: Transaction)
    requires ParseBlock(bytes, sha) == Some(b) && k < |Others(b)|
    ensures ValidTransaction(t) && Others(b)[k] == View(t, sha)
  {
    var txs := AcceptedTransactions(bytes, sha);
    OtherView(b, txs, k, sha);
    ListedIsValid(bytes, txs, k + 1);
    t := txs[k + 1];
  }

  lemma {:induction false} ViewFields(t: Transaction, sha: HashFunction)
    ensures View(t, sha).txid == sha(Stripped(t)) && View(t, sha).outputs == t.outputs
  {
  }

  /** The transaction behind an output that a deposit names. */
  lemma {:induction false} BehindDeposit(bytes: Bytes, b: ParsedBlock, d: Deposit, k: nat, sha: HashFunction)
    returns (t: Transaction)
    requires ParseBlock(bytes, sha) == Some(b) && NamesOutput(d, Others(b), k)
    ensures ValidTransaction(t) && d.outpoint.txid == sha(Stripped(t))
    ensures d.outpoint.vout < |t.outputs| && d.outpoint.value == Amount(t.outputs[d.outpoint.vout])
  {
    t := BehindEntry(bytes, b, k, sha);
    ViewFields(t, sha);
  }

  lemma {:induction false} DifferentOutputsCollide(t: Transaction, t': Transaction, sha: HashFunction) returns (x: (Bytes, Bytes))
    requires ValidTransaction(t) && ValidTransaction(t') && t.outputs != t'.outputs && sha(Stripped(t)) == sha(Stripped(t'))
    ensures ShaCollision(sha, x)
  {
    x := (Stripped(t), Stripped(t'));
    if x.0 == x.1 {
      StrippedFixesOutputs(t, t');
      assert false;
    }
  }

  /** On a run over parsed blocks, two mintable deposits with the same outpoint exhibit a double SHA-256
      collision of two transactions. */
  lemma {:induction false} RepeatedOutpointCollides(c: Config, blocks: seq<ParsedBlock>, bytes: seq<Bytes>, sha: HashFunction,
                                                    i: nat, j: nat) returns (x: (Bytes, Bytes))
    requires ParsedFrom(blocks, bytes, sha) && ValidConfig(c)
    requires forall k :: 0 <= k < |blocks| ==> NonzeroHashes(blocks[k], sha)
    requires Run(c, blocks, sha).Ok? && i < j < |AllDeposits(Run(c, blocks, sha).value.1)|
    requires AllDeposits(Run(c, blocks, sha).value.1)[i].outpoint.txid == AllDeposits(Run(c, blocks, sha).value.1)[j].outpoint.txid
    requires AllDeposits(Run(c, blocks, sha).value.1)[i].outpoint.vout == AllDeposits(Run(c, blocks, sha).value.1)[j].outpoint.vout
    ensures ShaCollision(sha, x)
  {
    GoodFromBytes(blocks, bytes, sha);
    DepositsAreBacked(c, blocks, sha);
    var deposits := AllDeposits(Run(c, blocks, sha).value.1);
    StackedIncreases(deposits, TreasuryValue(Run(c, blocks, sha).value.0), i, j);
    var bi, ki := RunDepositOrigin(c, blocks, sha, i);
    var bj, kj := RunDepositOrigin(c, blocks, sha, j);
    var t := BehindDeposit(bytes[bi], blocks[bi], deposits[i], ki, sha);
    var t' := BehindDeposit(bytes[bj], blocks[bj], deposits[j], kj, sha);
    x := DifferentOutputsCollide(t, t', sha);
  }

  lemma {:induction false} GoodFromBytes(blocks: seq<ParsedBlock>, bytes: seq<Bytes>, sha: HashFunction)
    requires ParsedFrom(blocks, bytes, sha) && forall k :: 0 <= k < |blocks| ==> NonzeroHashes(blocks[k], sha)
    ensures GoodBlocks(blocks, sha)
  {
    forall k | 0 <= k < |blocks|
      ensures Replayable(blocks[k])
    {
      ParsedBlocksAreReplayable(bytes[k], sha);
    }
  }

  // ----- the entry point on bytes -----

  datatype ApplyError = Block(block: BlockStructureError) | Replay(replay: ReplayError)

  /** The step that a serialized block takes the replay through. */
  ghost function StepBytes(s: State, bytes: Bytes, sha: HashFunction): Result<(State, Effects), ApplyError>
    requires Validate(s).Ok? && ParseBlock(bytes, sha).Some?
  {
    var step := Step(s, ParseBlock(bytes, sha).value, sha);
    if step.Ok? then Ok(step.value) else Err(Replay(step.error))
  }

  /** `apply_merkle_bound_elements_slot24_parent_block`: validate, parse, apply; every error leaves the
      state as it was. */
  method ApplyBytes(state: ReplayState, bytes: Bytes, sha: HashFunction) returns (r: Result<Effects, ApplyError>)
    modifies state
    ensures r.Err? ==> state.View() == old(state.View())
    ensures Validate(old(state.View())).Err? ==> r == Err(Replay(Validate(old(state.View())).error))
    ensures Validate(old(state.View())).Ok? ==> (r.Err? && r.error.Block? <==> ParseBlock(bytes, sha).None?)
    ensures Validate(old(state.View())).Ok? && ParseBlock(bytes, sha).Some? ==>
      var step := StepBytes(old(state.View()), bytes, sha);
      && (step.Ok? ==> r == Ok(step.value.1) && state.View() == step.value.0)
      && (step.Err? ==> r == Err(step.error))
  {
    var checked := Validate(state.View());
    if checked.Err? {
      return Err(Replay(checked.error));
    }
    var parsed := ReadBlock(bytes, sha);
    if parsed.Err? {
      return Err(Block(parsed.error));
    }
    var applied := state.ApplyBlock(parsed.value, sha);
    return if applied.Ok? then Ok(applied.value) else Err(Replay(applied.error));
  }
}
