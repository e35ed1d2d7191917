/**
 * Which Signet blocks are accepted, by meaning (crates/usdd-bitcoin-bmm/src/block/signet.rs): the split of
 * the commitment script, the canonical two-item solution, DER, and BIP143 over the two virtual transactions
 * of BIP325, without the verifier's own steps.
 */
module SignetRules {
  import opened Machine
  import opened Blocks
  import opened TransactionCodec
  import opened BlockParser
  import opened Commitments
  import opened Signet
  import opened BlockRules

  // ----- the virtual transactions -----

  const ZERO_4: Bytes4 := [0, 0, 0, 0]
  const ZERO_8: Bytes8 := [0, 0, 0, 0, 0, 0, 0, 0]

  /** The transaction that the challenge locks: its input script pushes the block data. */
  function ToSpend(h: Header, root: Hash): Transaction {
    var data := BlockData(h, root);
    Transaction(ZERO_4, false, [TxIn(NULL_OUTPOINT, [0x00, |data|] + data, ZERO_4)], [TxOut(ZERO_8, [0x00, 0x14] + CHALLENGE)],
                [], ZERO_4)
  }

  /** The transaction that the solution signs: it spends the locked output to nothing. */
  function ToSign(spent: Hash): Transaction {
    Transaction(ZERO_4, false, [TxIn(spent + [0, 0, 0, 0], [], ZERO_4)], [TxOut(ZERO_8, [0x6a])], [], ZERO_4)
  }

  /** The script code of the challenge's key hash. */
  function ScriptCode(): Bytes {
    [0x76, 0xa9, 0x14] + CHALLENGE + [0x88, 0xac]
  }

  function OutpointOf(i: TxIn): Bytes {
    i.outpoint
  }

  function SequenceOf(i: TxIn): Bytes {
    i.sequence
  }

  /** The digest of BIP143 for input `index` of any transaction. */
  function Bip143(t: Transaction, index: nat, scriptCode: Bytes, amount: Bytes8, hashType: byte, sha: HashFunction): Hash
    requires index < |t.inputs|
  {
    var anyoneCanPay, none, single := hashType >= 0x80, hashType % 0x20 == 2, hashType % 0x20 == 3;
    var prevouts := if anyoneCanPay then ZERO_HASH else sha(Concat(OutpointOf, t.inputs));
    var sequences := if anyoneCanPay || none || single then ZERO_HASH else sha(Concat(SequenceOf, t.inputs));
    var outputs := if none || (single && index >= |t.outputs|) then ZERO_HASH
                   else if single then sha(SerOutput(t.outputs[index])) else sha(Concat(SerOutput, t.outputs));
    sha(t.version + (prevouts + (sequences + (t.inputs[index].outpoint + (VarBytes(scriptCode) + (amount
        + (t.inputs[index].sequence + (outputs + (t.lockTime + LittleEndian(hashType, 4))))))))))
  }

  lemma {:induction false} ZeroBytes(n: nat)
    ensures |LittleEndian(0, n)| == n && forall k :: 0 <= k < n ==> LittleEndian(0, n)[k] == 0
  {
    if n > 0 {
      ZeroBytes(n - 1);
    }
  }

  lemma {:induction false} Zeroes()
    ensures LittleEndian(0, 4) == ZERO_4 && LittleEndian(0, 8) == ZERO_8
  {
    ZeroBytes(4);
    ZeroBytes(8);
  }

  lemma {:induction false} OneElement<T>(ser: T -> Bytes, x: T)
    ensures Concat(ser, [x]) == ser(x)
  {
    assert [x][1..] == [];
    assert ser(x) + [] == ser(x);
  }

  lemma {:induction false} AllOnes()
    ensures LittleEndian(U32_MAX, 4) == [0xff, 0xff, 0xff, 0xff]
  {
    assert LittleEndian(0xff, 1) == [0xff];
    assert LittleEndian(U16_MAX, 2) == [0xff] + LittleEndian(0xff, 1);
    assert LittleEndian(0xff_ffff, 3) == [0xff] + LittleEndian(U16_MAX, 2);
    assert LittleEndian(U32_MAX, 4) == [0xff] + LittleEndian(0xff_ffff, 3);
  }

  lemma {:induction false} SpentInput(h: Header, root: Hash)
    ensures SerInputs(ToSpend(h, root).inputs)
         == [1] + (NULL_OUTPOINT + (([74, 0x00, 0x48] + BlockData(h, root)) + ZERO_4))
  {
    var data, t := BlockData(h, root), ToSpend(h, root);
    assert |data| == 72;
    OneElement(SerInput, t.inputs[0]);
    assert VarBytes(t.inputs[0].script) == [74, 0x00, 0x48] + data;
  }

  lemma {:induction false} SpentOutput(h: Header, root: Hash)
    ensures SerOutputs(ToSpend(h, root).outputs) == [1] + (ZERO_8 + ([22] + ([0x00, 0x14] + CHALLENGE)))
  {
    OneElement(SerOutput, ToSpend(h, root).outputs[0]);
  }

  lemma {:induction false} FrontParts(a: Bytes, b: Bytes, c: Bytes, d: Bytes, e: Bytes)
    ensures a + b + c + d + e == a + (b + ((c + d) + e))
  {
  }

  lemma {:induction false} BackParts(a: Bytes, b: Bytes, c: Bytes, d: Bytes, e: Bytes, f: Bytes)
    ensures a + b + c + d + e + f == a + ((b + (c + (d + e))) + f)
  {
    Associate(c, d, e);
    Associate(b, c + d, e);
    assert ((b + c) + d) + e == b + (c + (d + e));
  }

  lemma {:induction false} FrontAndBack()
    ensures SpentFront() == ZERO_4 + ([1] + (NULL_OUTPOINT + [74, 0x00, 0x48]))
    ensures SpentBack() == ZERO_4 + (([1] + (ZERO_8 + ([22] + ([0x00, 0x14] + CHALLENGE)))) + ZERO_4)
  {
    Zeroes();
    AllOnes();
    FrontParts(ZERO_4, [1], ZERO_HASH, [0xff, 0xff, 0xff, 0xff], [74, 0x00, 0x48]);
    BackParts(ZERO_4, [1], ZERO_8, [22, 0x00, 0x14], CHALLENGE, ZERO_4);
    assert [22, 0x00, 0x14] == [22] + [0x00, 0x14];
    Associate([22], [0x00, 0x14], CHALLENGE);
  }

  lemma {:induction false} Regrouped(z: Bytes, n: Bytes, outpoint: Bytes, m: Bytes, data: Bytes, outputs: Bytes)
    ensures (z + (n + (outpoint + m))) + (data + (z + (outputs + z))) == z + ((n + (outpoint + ((m + data) + z))) + (outputs + z))
  {
    var last := outputs + z;
    Associate(z, n + (outpoint + m), data + (z + last));
    Associate(n, outpoint + m, data + (z + last));
    Associate(outpoint, m, data + (z + last));
    Associate(m, data, z + last);
    Associate(m + data, z, last);
    Associate(outpoint, (m + data) + z, last);
    Associate(n, outpoint + ((m + data) + z), last);
  }

  /** What is hashed as the spent transaction is the serialization of the transaction that BIP325 defines. */
  lemma {:induction false} SpentIsTransaction(h: Header, root: Hash)
    ensures VirtualSpent(h, root) == Stripped(ToSpend(h, root))
  {
    SpentInput(h, root);
    SpentOutput(h, root);
    FrontAndBack();
    Regrouped(ZERO_4, [1], NULL_OUTPOINT, [74, 0x00, 0x48], BlockData(h, root), [1] + (ZERO_8 + ([22] + ([0x00, 0x14] + CHALLENGE))));
  }

  /** The verifier's digest is BIP143's for the one input of the signing transaction. */
  lemma {:induction false} DigestIsBip143(spent: Hash, hashType: byte, sha: HashFunction)
    ensures Sighash(spent, hashType, sha) == Bip143(ToSign(spent), 0, ScriptCode(), ZERO_8, hashType, sha)
  {
    var t := ToSign(spent);
    Zeroes();
    OneElement(OutpointOf, t.inputs[0]);
    OneElement(SequenceOf, t.inputs[0]);
    SignedOutput(spent);
    InputTextParts();
    var outputs := if hashType % 0x20 == 2 then ZERO_HASH else sha([0, 0, 0, 0, 0, 0, 0, 0, 1, 0x6a]);
    var rest := outputs + (ZERO_4 + LittleEndian(hashType, 4));
    Associate(VarBytes(ScriptCode()), ZERO_8 + ZERO_4, rest);
    Associate(ZERO_8, ZERO_4, rest);
  }

  lemma {:induction false} SignedOutput(spent: Hash)
    ensures SerOutput(ToSign(spent).outputs[0]) == [0, 0, 0, 0, 0, 0, 0, 0, 1, 0x6a]
    ensures Concat(SerOutput, ToSign(spent).outputs) == [0, 0, 0, 0, 0, 0, 0, 0, 1, 0x6a]
  {
    OneElement(SerOutput, ToSign(spent).outputs[0]);
  }

  lemma {:induction false} InputTextParts()
    ensures InputText() == VarBytes(ScriptCode()) + (ZERO_8 + ZERO_4)
  {
    Zeroes();
    CodeText();
    InputParts([25], [0x76, 0xa9, 0x14], CHALLENGE, [0x88, 0xac], ZERO_8, ZERO_4);
  }

  lemma {:induction false} CodeText()
    ensures VarBytes(ScriptCode()) == [25] + ([0x76, 0xa9, 0x14] + CHALLENGE + [0x88, 0xac])
    ensures [25, 0x76, 0xa9, 0x14] == [25] + [0x76, 0xa9, 0x14]
  {
  }

  lemma {:induction false} InputParts(a: Bytes, b: Bytes, c: Bytes, d: Bytes, e: Bytes, f: Bytes)
    ensures (a + b) + c + d + e + f == (a + (b + c + d)) + (e + f)
  {
    Associate(a, b, c);
    Associate(a, b + c, d);
    Associate((a + b) + c + d, e, f);
  }

  // ----- the rewritten commitment -----

  function RewrittenAll(ops: seq<Op>): Bytes {
    if ops == [] then [] else Rewritten(ops[0]) + RewrittenAll(ops[1..])
  }

  /** An operation is rewritten to the shortest push of its data, or to its opcode if it pushes nothing. */
  lemma {:induction false} RewrittenIsShortest(op: Op)
    requires op.data.Some? ==> |op.data.value| <= U32_MAX
    ensures op.data.None? || op.data.value == [] ==> Rewritten(op) == [op.opcode]
    ensures op.data.Some? && op.data.value != [] ==> IsPush(Rewritten(op), op.data.value)
    ensures op.data.Some? && op.data.value != [] ==>
      forall text :: IsPush(text, op.data.value) ==> |Rewritten(op)| <= |text|
  {
  }

  /** `readable` is everything that can be read of the script's end. */
  ghost predicate Readable(suffix: Bytes, readable: Bytes, ops: seq<Op>) {
    && Decodes(readable, ops) && readable <= suffix && ReadOp(suffix[|readable|..]).None?
  }

  /** What replaces the commitment: everything readable in shortest form, with the solution cut off. */
  function Replacement(ops: seq<Op>, suffixOps: seq<Op>): Bytes {
    RewrittenAll(ops) + Push(SIGNET_HEADER) + RewrittenAll(suffixOps)
  }

  lemma {:induction false} OnOpsAppends(w: Rewrite, ops: seq<Op>)
    requires w.solution.Some? || NoSolution(ops)
    ensures OnOps(w, ops).replacement == w.replacement + RewrittenAll(ops)
    decreases |ops|
  {
    if ops == [] {
      assert w.replacement + [] == w.replacement;
    } else {
      assert forall k :: 0 <= k < |ops[1..]| ==> ops[1..][k] == ops[k + 1];
      OnOpsAppends(OnOp(w, ops[0]), ops[1..]);
      Associate(w.replacement, Rewritten(ops[0]), RewrittenAll(ops[1..]));
    }
  }

  lemma {:induction false} ReplacementIs(script: Bytes, prefix: Bytes, ops: seq<Op>, push: Bytes, solution: Bytes, suffix: Bytes,
                                         readable: Bytes, suffixOps: seq<Op>)
    requires SplitAt(script, prefix, ops, push, solution, suffix) && Readable(suffix, readable, suffixOps)
    ensures ExtractSolution(script) == Ok((solution, Replacement(ops, suffixOps)))
  {
    var w := Rewrite(Some(solution), RewrittenAll(ops) + Push(SIGNET_HEADER));
    SplitIsExtracted(script, prefix, ops, push, solution, suffix);
    OnOpsAppends(NOTHING, ops);
    assert [] + RewrittenAll(ops) == RewrittenAll(ops);
    assert suffix == readable + suffix[|readable|..];
    ScanThrough(w, readable, suffixOps, suffix[|readable|..]);
    OnOpsAppends(w, suffixOps);
  }

  lemma {:induction false} ReadsAsFarAsItCan(s: Bytes) returns (readable: Bytes, ops: seq<Op>)
    ensures Readable(s, readable, ops)
    decreases |s|
  {
    readable, ops := [], [];
    if ReadOp(s).Some? {
      var head := OpTextOf(s);
      var next := ReadOp(s).value;
      var tail, others := ReadsAsFarAsItCan(next.rest);
      readable, ops := head + tail, [next.value] + others;
      OneMoreRead(s, head, next.value, next.rest, tail, others);
    } else {
      assert s[0..] == s;
    }
  }

  lemma {:induction false} OneMoreRead(s: Bytes, head: Bytes, op: Op, rest: Bytes, tail: Bytes, others: seq<Op>)
    requires s == head + rest && IsOpText(head, op) && Readable(rest, tail, others)
    ensures Readable(s, head + tail, [op] + others)
  {
    OpReadsBack(head, op, tail);
    assert ([op] + others)[1..] == others;
    assert s[|head + tail|..] == rest[|tail|..];
  }

  // ----- the solution -----

  /** The solution holds an empty script and exactly a signature and a key of the challenge, the signature is
      DER with a hash type, and the key signed the digest. */
  ghost predicate Signs(solution: Bytes, spent: Hash, signature: Bytes, key: Bytes, r: Bytes, s: Bytes, hashType: byte,
                        sha: HashFunction, hash160: Bytes -> Bytes, check: SignatureCheck)
  {
    && solution == VarBytes([]) + SerStack([signature, key]) && |key| < U64_LIMIT
    && hash160(key) == CHALLENGE
    && IsDer(signature, r, s, hashType)
    && check(key, Bip143(ToSign(spent), 0, ScriptCode(), ZERO_8, hashType, sha), signature[..|signature| - 1]) == None
  }

  lemma {:induction false} TwoItems(solution: Bytes, signature: Bytes, key: Bytes)
    requires |signature| < U64_LIMIT && |key| < U64_LIMIT && solution == VarBytes([]) + SerStack([signature, key])
    ensures ParseSolution(solution) == Some(Solution([], [signature, key]))
  {
    SolutionIsCanonical(solution, Solution([], [signature, key]));
  }

  lemma {:induction false} SignedIsAccepted(solution: Bytes, spent: Hash, signature: Bytes, key: Bytes, r: Bytes, s: Bytes,
                                            hashType: byte, sha: HashFunction, hash160: Bytes -> Bytes, check: SignatureCheck)
    requires Signs(solution, spent, signature, key, r, s, hashType, sha, hash160, check)
    ensures Judge(solution, spent, sha, hash160, check) == Ok(())
  {
    TwoItems(solution, signature, key);
    DerIsStrict(signature, r, s, hashType);
    DigestIsBip143(spent, hashType, sha);
    LastByte(signature, r, s, hashType);
  }

  lemma {:induction false} LastByte(signature: Bytes, r: Bytes, s: Bytes, hashType: byte)
    requires IsDer(signature, r, s, hashType)
    ensures signature[|signature| - 1] == hashType
  {
  }

  lemma {:induction false} KeyFits(signature: Bytes, key: Bytes)
    requires SolutionFits(Solution([], [signature, key]))
    ensures |key| < U64_LIMIT
  {
    assert AnyItem([signature, key][1]);
  }

  lemma {:induction false} BothOf<T>(pair: seq<T>)
    requires |pair| == 2
    ensures pair == [pair[0], pair[1]]
  {
  }

  /** A solution without fault is a signature. */
  lemma {:induction false} FaultlessIsSigned(solution: Bytes, spent: Hash, v: Solution, sha: HashFunction,
                                             hash160: Bytes -> Bytes, check: SignatureCheck)
    returns (signature: Bytes, key: Bytes, r: Bytes, s: Bytes, hashType: byte)
    requires Serializes(solution, v) && FirstFault(Ok(()), spent, v, sha, hash160, check)
    ensures Signs(solution, spent, signature, key, r, s, hashType, sha, hash160, check)
  {
    signature, key := v.items[0], v.items[1];
    BothOf(v.items);
    KeyFits(signature, key);
    r, s, hashType :| IsDer(signature, r, s, hashType);
    LastByte(signature, r, s, hashType);
  }

  lemma {:induction false} AcceptedIsSigned(solution: Bytes, spent: Hash, sha: HashFunction, hash160: Bytes -> Bytes,
                                            check: SignatureCheck)
    returns (signature: Bytes, key: Bytes, r: Bytes, s: Bytes, hashType: byte)
    requires Judge(solution, spent, sha, hash160, check).Ok?
    ensures Signs(solution, spent, signature, key, r, s, hashType, sha, hash160, check)
  {
    var v := ParseSolution(solution).value;
    SolutionIsCanonical(solution, v);
    JudgeFindsFirstFault(solution, spent, v, sha, hash160, check);
    signature, key, r, s, hashType := FaultlessIsSigned(solution, spent, v, sha, hash160, check);
  }

  // ----- the block -----

  /** The txid of the transaction that locks the block data, with the commitment script rewritten in the
      coinbase and the Merkle root computed anew. */
  function SpentTxid(b: ParsedBlock, index: nat, replacement: Bytes, sha: HashFunction): Hash
    requires index < |b.coinbase.outputs| && b.txids != []
  {
    var root := MerkleRoot([sha(Reserialized(b.coinbase, index, replacement))] + b.txids[1..], sha);
    sha(Stripped(ToSpend(b.header, root)))
  }

  /** Everything a signed block shows: where its commitment is, how the script splits, and its signature. */
  datatype Authorization = Authorization(index: nat, prefix: Bytes, ops: seq<Op>, push: Bytes, suffix: Bytes, readable: Bytes,
                                         suffixOps: seq<Op>, solution: Bytes, signature: Bytes, key: Bytes, r: Bytes, s: Bytes,
                                         hashType: byte)

  ghost predicate Locates(b: ParsedBlock, a: Authorization) {
    && IsLastCommitment(b.coinbase.outputs, a.index)
    && SplitAt(b.coinbase.outputs[a.index].script, a.prefix, a.ops, a.push, a.solution, a.suffix)
    && Readable(a.suffix, a.readable, a.suffixOps)
  }

  ghost predicate Authorizes(b: ParsedBlock, a: Authorization, sha: HashFunction, hash160: Bytes -> Bytes, check: SignatureCheck)
    requires b.txids != []
  {
    && Locates(b, a)
    && Signs(a.solution, SpentTxid(b, a.index, Replacement(a.ops, a.suffixOps), sha), a.signature, a.key, a.r, a.s, a.hashType,
             sha, hash160, check)
  }

  lemma {:induction false} SpentTxidIs(b: ParsedBlock, index: nat, replacement: Bytes, sha: HashFunction)
    requires index < |b.coinbase.outputs| && b.txids != []
    ensures VirtualTxid(b, index, replacement, sha) == SpentTxid(b, index, replacement, sha)
  {
    var txid := sha(Reserialized(b.coinbase, index, replacement));
    assert b.txids[0 := txid] == [txid] + b.txids[1..];
    SpentIsTransaction(b.header, MerkleRoot(b.txids[0 := txid], sha));
  }

  lemma {:induction false} LocatedIsFound(b: ParsedBlock, a: Authorization, sha: HashFunction)
    requires b.txids != [] && Locates(b, a)
    ensures SolutionAndSpent(b, sha) == Ok((a.solution, SpentTxid(b, a.index, Replacement(a.ops, a.suffixOps), sha)))
  {
    LastCommitmentIs(b.coinbase.outputs);
    ReplacementIs(b.coinbase.outputs[a.index].script, a.prefix, a.ops, a.push, a.solution, a.suffix, a.readable, a.suffixOps);
    SpentTxidIs(b, a.index, Replacement(a.ops, a.suffixOps), sha);
  }

  lemma {:induction false} FoundIsLocated(b: ParsedBlock, sha: HashFunction) returns (a: Authorization)
    requires b.txids != [] && SolutionAndSpent(b, sha).Ok?
    ensures Locates(b, a)
  {
    LastCommitmentIs(b.coinbase.outputs);
    var index := CommitmentIndex(b.coinbase.outputs).value;
    var script := b.coinbase.outputs[index].script;
    var prefix, ops, push, suffix := ExtractedIsSplit(script);
    var readable, suffixOps := ReadsAsFarAsItCan(suffix);
    a := Authorization(index, prefix, ops, push, suffix, readable, suffixOps, ExtractSolution(script).value.0, [], [], [], [], 0);
  }

  /** A block is accepted exactly when it is the genesis block or somebody holding a key of the challenge has
      signed it: the last commitment script splits at a Signet push whose data is an empty script and the
      two-item stack of a DER signature and that key, over the BIP143 digest of the block. */
  lemma {:induction false} AcceptedIff(b: ParsedBlock, genesis: Hash, sha: HashFunction, hash160: Bytes -> Bytes, check: SignatureCheck)
    requires b.txids != []
    ensures VerifySignet(b, genesis, sha, hash160, check).Ok? <==>
      b.hash == genesis || exists a :: Authorizes(b, a, sha, hash160, check)
  {
    if b.hash != genesis && VerifySignet(b, genesis, sha, hash160, check).Ok? {
      var a := FoundIsLocated(b, sha);
      LocatedIsFound(b, a, sha);
      var signature, key, r, s, hashType :=
        AcceptedIsSigned(a.solution, SpentTxid(b, a.index, Replacement(a.ops, a.suffixOps), sha), sha, hash160, check);
      assert Authorizes(b, a.(signature := signature, key := key, r := r, s := s, hashType := hashType), sha, hash160, check);
    }
    if a :| Authorizes(b, a, sha, hash160, check) {
      LocatedIsFound(b, a, sha);
      SignedIsAccepted(a.solution, SpentTxid(b, a.index, Replacement(a.ops, a.suffixOps), sha), a.signature, a.key, a.r, a.s,
                       a.hashType, sha, hash160, check);
    }
  }

  // ----- why a block is refused -----

  lemma {:induction false} UncommittedIsRefused(b: ParsedBlock, genesis: Hash, sha: HashFunction, hash160: Bytes -> Bytes,
                                                check: SignatureCheck)
    requires b.txids != [] && b.hash != genesis
    requires forall k :: 0 <= k < |b.coinbase.outputs| ==> !LooksCommitted(b.coinbase.outputs[k].script)
    ensures VerifySignet(b, genesis, sha, hash160, check) == Err(SignetError.MissingWitnessCommitment)
  {
    LastCommitmentIs(b.coinbase.outputs);
  }

  /** A commitment script without any Signet push that carries data. */
  lemma {:induction false} UnsplitIsRefused(b: ParsedBlock, index: nat, genesis: Hash, sha: HashFunction,
                                            hash160: Bytes -> Bytes, check: SignatureCheck)
    requires b.txids != [] && b.hash != genesis
    requires IsLastCommitment(b.coinbase.outputs, index) && Unsplit(b.coinbase.outputs[index].script)
    ensures VerifySignet(b, genesis, sha, hash160, check) == Err(MissingSolution)
  {
    LastCommitmentIs(b.coinbase.outputs);
    UnsplitHasNone(b.coinbase.outputs[index].script);
  }

  ghost predicate Unsplit(script: Bytes) {
    forall prefix, ops, push, solution, suffix :: !SplitAt(script, prefix, ops, push, solution, suffix)
  }

  lemma {:induction false} UnsplitHasNone(script: Bytes)
    requires Unsplit(script)
    ensures ExtractSolution(script) == Err(MissingSolution)
  {
    if ExtractSolution(script).Ok? {
      var prefix, ops, push, suffix := ExtractedIsSplit(script);
      assert false;
    }
  }

  ghost predicate Serializes(solution: Bytes, v: Solution) {
    SolutionFits(v) && solution == VarBytes(v.scriptSig) + SerStack(v.items)
  }

  ghost predicate HasDer(signature: Bytes) {
    exists r, s, hashType :: IsDer(signature, r, s, hashType)
  }

  /** The verdict on the solution of a block, by the first of its conditions that fails. */
  ghost predicate FirstFault(verdict: Result<(), SignetError>, spent: Hash, v: Solution, sha: HashFunction,
                             hash160: Bytes -> Bytes, check: SignatureCheck)
  {
    if v.scriptSig != [] then verdict == Err(NonEmptyScriptSig)
    else if |v.items| != 2 || v.items[0] == [] then verdict == Err(WrongWitnessStack)
    else if hash160(v.items[1]) != CHALLENGE then verdict == Err(WrongPublicKeyHash)
    else if !HasDer(v.items[0]) then verdict == Err(InvalidDerSignature)
    else
      var n := |v.items[0]| - 1;
      var answer := check(v.items[1], Bip143(ToSign(spent), 0, ScriptCode(), ZERO_8, v.items[0][n], sha), v.items[0][..n]);
      verdict == if answer == None then Ok(()) else Err(answer.value)
  }

  lemma {:induction false} JudgeFindsFirstFault(solution: Bytes, spent: Hash, v: Solution, sha: HashFunction,
                                                hash160: Bytes -> Bytes, check: SignatureCheck)
    requires Serializes(solution, v)
    ensures FirstFault(Judge(solution, spent, sha, hash160, check), spent, v, sha, hash160, check)
  {
    SolutionIsCanonical(solution, v);
    if |v.items| == 2 && v.items[0] != [] {
      StrictDerIff(v.items[0]);
      DigestIsBip143(spent, v.items[0][|v.items[0]| - 1], sha);
    }
  }

  /** The error of every refusal once the commitment script has been split: no canonical solution, or the
      first fault of the one it serializes. */
  lemma {:induction false} SolutionVerdict(b: ParsedBlock, a: Authorization, genesis: Hash, sha: HashFunction,
                                           hash160: Bytes -> Bytes, check: SignatureCheck)
    requires b.txids != [] && b.hash != genesis && Locates(b, a)
    ensures var verdict, spent := VerifySignet(b, genesis, sha, hash160, check), SpentTxid(b, a.index, Replacement(a.ops, a.suffixOps), sha);
      && ((forall v :: !Serializes(a.solution, v)) ==> verdict == Err(NonCanonicalSolution))
      && (forall v :: Serializes(a.solution, v) ==> FirstFault(verdict, spent, v, sha, hash160, check))
  {
    var spent := SpentTxid(b, a.index, Replacement(a.ops, a.suffixOps), sha);
    LocatedIsFound(b, a, sha);
    forall v | Serializes(a.solution, v)
      ensures FirstFault(Judge(a.solution, spent, sha, hash160, check), spent, v, sha, hash160, check)
    {
      JudgeFindsFirstFault(a.solution, spent, v, sha, hash160, check);
    }
    if ParseSolution(a.solution).Some? {
      SolutionIsCanonical(a.solution, ParseSolution(a.solution).value);
      assert Serializes(a.solution, ParseSolution(a.solution).value);
    }
  }
}
