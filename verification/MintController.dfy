/**
 * The mint controller (crates/usdd-core/src/types.rs), the public outputs that restate its
 * transitions (crates/usdd-proof-core/src/claims.rs) and the two Ethereum guests
 * (crates/usdd-proof-core/src/guest.rs). Hashes, manifests and the Ethereum verifier are parameters.
 */
module MintController {
  import opened Machine

  const PROTOCOL_VERSION: u32 := 1
  const MAX_BATCH_SIZE: nat := 64
  const MAX_SCRIPT: nat := 128
  const MAX_BATCH_USDD: nat := 20_000_000 * 100_000_000
  const MAX_BATCH_USDT: nat := MAX_BATCH_USDD / UNITS_PER_MICRO
  const MAX_SLOT_GAP: nat := 4096

  /** Every refusal of the decoders and validators; which rule failed does not matter here. */
  datatype Refusal = InvalidValue

  type Checked<+T> = Result<T, Refusal>

  datatype VaultDeposit = VaultDeposit(chainId: u64, vault: nat, usdt: nat, nonce: u64, depositor: nat, amount: u64,
                                       script: Bytes, salt: Hash)

  /** Deposit IDs are SHA-256 commitments. */
  type IdFunction = VaultDeposit -> Hash

  datatype MintOutput = MintOutput(depositId: Hash, nonce: u64, usdt: u64, usdd: u64, script: Bytes)

  datatype MintBatch = MintBatch(firstNonce: u64, nextNonce: u64, outputs: seq<MintOutput>, totalUsdt: u64, totalUsdd: u64)

  // ----- batches -----

  predicate ScriptOk(script: Bytes) {
    0 < |script| <= MAX_SCRIPT
  }

  predicate DepositOk(d: VaultDeposit) {
    && d.chainId != 0 && d.vault != 0 && d.usdt != 0 && d.depositor != 0
    && 0 < d.amount <= MAX_BATCH_USDT && ScriptOk(d.script)
  }

  predicate OutputOk(o: MintOutput) {
    && o.depositId != ZERO_HASH && 0 < o.usdt <= MAX_BATCH_USDT && o.usdd == UNITS_PER_MICRO * o.usdt && ScriptOk(o.script)
  }

  function OutputOf(d: VaultDeposit, id: IdFunction): MintOutput
    requires DepositOk(d)
  {
    MintOutput(id(d), d.nonce, d.amount, UNITS_PER_MICRO * d.amount, d.script)
  }

  function UsdtSum(outputs: seq<MintOutput>): nat {
    if outputs == [] then 0 else UsdtSum(outputs[..|outputs| - 1]) + outputs[|outputs| - 1].usdt
  }

  function UsddSum(outputs: seq<MintOutput>): nat {
    if outputs == [] then 0 else UsddSum(outputs[..|outputs| - 1]) + outputs[|outputs| - 1].usdd
  }

  function DepositSum(deposits: seq<VaultDeposit>): nat {
    if deposits == [] then 0 else DepositSum(deposits[..|deposits| - 1]) + deposits[|deposits| - 1].amount
  }

  /** Deposits that one batch can mint: consecutive, of one vault, within the transaction budget. */
  ghost predicate Batchable(deposits: seq<VaultDeposit>) {
    && 0 < |deposits| <= MAX_BATCH_SIZE
    && (forall i :: 0 <= i < |deposits| ==> DepositFits(deposits, i))
    && deposits[0].nonce + |deposits| <= U64_MAX
    && DepositSum(deposits) <= MAX_BATCH_USDT
  }

  ghost predicate DepositFits(deposits: seq<VaultDeposit>, i: nat)
    requires i < |deposits|
  {
    && DepositOk(deposits[i]) && deposits[i].nonce == deposits[0].nonce + i
    && deposits[i].chainId == deposits[0].chainId && deposits[i].vault == deposits[0].vault
    && deposits[i].usdt == deposits[0].usdt
  }

  /** A batch mints exactly these deposits, in order. */
  ghost predicate Mints(b: MintBatch, deposits: seq<VaultDeposit>, id: IdFunction) {
    && |b.outputs| == |deposits| > 0
    && (forall i :: 0 <= i < |deposits| ==> DepositOk(deposits[i]) && b.outputs[i] == OutputOf(deposits[i], id))
    && b.firstNonce == deposits[0].nonce && b.nextNonce == deposits[0].nonce + |deposits|
    && b.totalUsdt == DepositSum(deposits) && b.totalUsdd == UNITS_PER_MICRO * b.totalUsdt
  }

  ghost predicate OutputFits(b: MintBatch, i: nat)
    requires i < |b.outputs|
  {
    OutputOk(b.outputs[i]) && b.outputs[i].nonce == b.firstNonce + i
  }

  ghost predicate ValidBatch(b: MintBatch) {
    && 0 < |b.outputs| <= MAX_BATCH_SIZE && b.nextNonce == b.firstNonce + |b.outputs|
    && (forall i :: 0 <= i < |b.outputs| ==> OutputFits(b, i))
    && b.totalUsdt == UsdtSum(b.outputs) <= MAX_BATCH_USDT
    && b.totalUsdd == UsddSum(b.outputs)
  }

  lemma {:induction false} SumsScale(outputs: seq<MintOutput>)
    requires forall i :: 0 <= i < |outputs| ==> outputs[i].usdd == UNITS_PER_MICRO * outputs[i].usdt
    ensures UsddSum(outputs) == UNITS_PER_MICRO * UsdtSum(outputs)
  {
    if outputs != [] {
      SumsScale(outputs[..|outputs| - 1]);
    }
  }

  lemma {:induction false} SumPrefix(outputs: seq<MintOutput>, n: nat)
    requires n <= |outputs|
    ensures UsdtSum(outputs[..n]) <= UsdtSum(outputs) && UsddSum(outputs[..n]) <= UsddSum(outputs)
    decreases |outputs|
  {
    if n == |outputs| {
      assert outputs[..n] == outputs;
    } else {
      var init := outputs[..|outputs| - 1];
      assert init[..n] == outputs[..n];
      SumPrefix(init, n);
    }
  }

  lemma {:induction false} SumsOfDeposits(deposits: seq<VaultDeposit>, outputs: seq<MintOutput>, id: IdFunction)
    requires |outputs| == |deposits|
    requires forall i :: 0 <= i < |deposits| ==> DepositOk(deposits[i]) && outputs[i] == OutputOf(deposits[i], id)
    ensures UsdtSum(outputs) == DepositSum(deposits) && UsddSum(outputs) == UNITS_PER_MICRO * DepositSum(deposits)
  {
    if deposits != [] {
      var n := |deposits| - 1;
      SumsOfDeposits(deposits[..n], outputs[..n], id);
    }
  }

  /** A few capped amounts cannot overflow a word. */
  lemma {:induction false} SumBound(outputs: seq<MintOutput>)
    requires forall i :: 0 <= i < |outputs| ==> outputs[i].usdt <= MAX_BATCH_USDT && outputs[i].usdd <= MAX_BATCH_USDD
    ensures UsdtSum(outputs) <= |outputs| * MAX_BATCH_USDT && UsddSum(outputs) <= |outputs| * MAX_BATCH_USDD
  {
    if outputs != [] {
      SumBound(outputs[..|outputs| - 1]);
    }
  }

  lemma {:induction false} SumsFitWords(outputs: seq<MintOutput>)
    requires |outputs| <= MAX_BATCH_SIZE
    requires forall i :: 0 <= i < |outputs| ==> outputs[i].usdt <= MAX_BATCH_USDT && outputs[i].usdd <= MAX_BATCH_USDD
    ensures UsdtSum(outputs) <= U64_MAX && UsddSum(outputs) <= U64_MAX
  {
    SumBound(outputs);
    MulLe(|outputs|, MAX_BATCH_SIZE, MAX_BATCH_USDT);
    MulLe(|outputs|, MAX_BATCH_SIZE, MAX_BATCH_USDD);
  }

  lemma {:induction false} NextSum(outputs: seq<MintOutput>, i: nat)
    requires i < |outputs|
    ensures UsdtSum(outputs[..i + 1]) == UsdtSum(outputs[..i]) + outputs[i].usdt <= UsdtSum(outputs)
    ensures UsddSum(outputs[..i + 1]) == UsddSum(outputs[..i]) + outputs[i].usdd <= UsddSum(outputs)
  {
    assert outputs[..i + 1][..i] == outputs[..i];
    SumPrefix(outputs, i + 1);
  }

  /** `try_fold` with `checked_add`; the batch size rules out an overflow. */
  method Totals(outputs: seq<MintOutput>) returns (usdt: u64, usdd: u64)
    requires |outputs| <= MAX_BATCH_SIZE
    requires forall i :: 0 <= i < |outputs| ==> outputs[i].usdt <= MAX_BATCH_USDT && outputs[i].usdd <= MAX_BATCH_USDD
    ensures usdt == UsdtSum(outputs) && usdd == UsddSum(outputs)
  {
    usdt, usdd := 0, 0;
    SumsFitWords(outputs);
    for i := 0 to |outputs|
      invariant usdt == UsdtSum(outputs[..i]) && usdd == UsddSum(outputs[..i])
    {
      NextSum(outputs, i);
      usdt, usdd := usdt + outputs[i].usdt, usdd + outputs[i].usdd;
    }
    assert outputs[..|outputs|] == outputs;
  }

  ghost function OutputsOf(deposits: seq<VaultDeposit>, id: IdFunction): (r: seq<MintOutput>)
    requires forall i :: 0 <= i < |deposits| ==> DepositOk(deposits[i])
    ensures |r| == |deposits|
  {
    seq(|deposits|, i requires 0 <= i < |deposits| => OutputOf(deposits[i], id))
  }

  lemma {:induction false} BatchableDeposits(deposits: seq<VaultDeposit>)
    requires Batchable(deposits)
    ensures forall i :: 0 <= i < |deposits| ==> DepositOk(deposits[i])
  {
    forall i | 0 <= i < |deposits|
      ensures DepositOk(deposits[i])
    {
      assert DepositFits(deposits, i);
    }
  }

  /** The batch that these deposits make. */
  ghost function BatchOf(deposits: seq<VaultDeposit>, id: IdFunction): MintBatch
    requires Batchable(deposits)
  {
    BatchableDeposits(deposits);
    MintBatch(deposits[0].nonce, deposits[0].nonce + |deposits|, OutputsOf(deposits, id), DepositSum(deposits),
              UNITS_PER_MICRO * DepositSum(deposits))
  }

  /** The output pays the deposit's own script, under its ID and nonce, a hundred units a micro-USDT. */
  predicate Carries(o: MintOutput, d: VaultDeposit, id: IdFunction) {
    && o.script == d.script && o.depositId == id(d) && o.nonce == d.nonce
    && o.usdt == d.amount && o.usdd == 100 * d.amount
  }

  /** The outputs pay the deposits, one each, in order. */
  ghost predicate CarriesAll(outputs: seq<MintOutput>, deposits: seq<VaultDeposit>, id: IdFunction) {
    |outputs| == |deposits| && forall i :: 0 <= i < |deposits| ==> Carries(outputs[i], deposits[i], id)
  }

  lemma {:induction false} MintsCarry(b: MintBatch, deposits: seq<VaultDeposit>, id: IdFunction)
    requires Mints(b, deposits, id)
    ensures CarriesAll(b.outputs, deposits, id)
  {
    forall i | 0 <= i < |deposits|
      ensures Carries(b.outputs[i], deposits[i], id)
    {
      assert b.outputs[i] == OutputOf(deposits[i], id);
    }
  }

  lemma {:induction false} BatchOfMints(deposits: seq<VaultDeposit>, id: IdFunction)
    requires Batchable(deposits)
    ensures Mints(BatchOf(deposits, id), deposits, id)
    ensures forall b :: Mints(b, deposits, id) ==> b == BatchOf(deposits, id)
  {
    BatchableDeposits(deposits);
    forall b | Mints(b, deposits, id)
      ensures b == BatchOf(deposits, id)
    {
      assert b.outputs == OutputsOf(deposits, id);
    }
  }

  method FromDeposits(deposits: seq<VaultDeposit>, id: IdFunction) returns (r: Checked<MintBatch>)
    ensures r.Ok? <==> Batchable(deposits)
    ensures r.Ok? ==> r.value == BatchOf(deposits, id) && Mints(r.value, deposits, id)
    ensures r.Ok? ==> CarriesAll(r.value.outputs, deposits, id)
  {
    if deposits == [] || |deposits| > MAX_BATCH_SIZE {
      return Err(InvalidValue);
    }
    var first := deposits[0];
    var outputs: seq<MintOutput> := [];
    for i := 0 to |deposits|
      invariant |outputs| == i
      invariant forall k :: 0 <= k < i ==> DepositFits(deposits, k) && outputs[k] == OutputOf(deposits[k], id)
    {
      var deposit := deposits[i];
      if !DepositOk(deposit) || first.nonce as nat + i > U64_MAX || deposit.nonce != first.nonce + i
         || deposit.chainId != first.chainId || deposit.vault != first.vault || deposit.usdt != first.usdt {
        assert !DepositFits(deposits, i);
        return Err(InvalidValue);
      }
      outputs := outputs + [OutputOf(deposit, id)];
    }
    if first.nonce as nat + |deposits| > U64_MAX {
      return Err(InvalidValue);
    }
    SumsOfDeposits(deposits, outputs, id);
    var usdt, usdd := Totals(outputs);
    if usdt > MAX_BATCH_USDT || usdd > MAX_BATCH_USDD {
      return Err(InvalidValue);
    }
    BatchOfMints(deposits, id);
    return Ok(MintBatch(first.nonce, first.nonce + |deposits|, outputs, usdt, usdd));
  }

  method ValidateBatch(b: MintBatch) returns (ok: bool)
    ensures ok <==> ValidBatch(b)
  {
    if b.outputs == [] || |b.outputs| > MAX_BATCH_SIZE || b.nextNonce != b.firstNonce as nat + |b.outputs| {
      return false;
    }
    for i := 0 to |b.outputs|
      invariant forall k :: 0 <= k < i ==> OutputFits(b, k)
    {
      if !OutputOk(b.outputs[i]) || b.outputs[i].nonce != b.firstNonce + i {
        assert !OutputFits(b, i);
        return false;
      }
    }
    forall k | 0 <= k < |b.outputs|
      ensures OutputOk(b.outputs[k])
    {
      assert OutputFits(b, k);
    }
    SumsScale(b.outputs);
    var usdt, usdd := Totals(b.outputs);
    return usdt == b.totalUsdt && usdd == b.totalUsdd && usdt <= MAX_BATCH_USDT && usdd <= MAX_BATCH_USDD;
  }

  /** A constructed batch passes validation exactly when no deposit ID is zero. */
  lemma {:induction false} ConstructedIsValid(b: MintBatch, deposits: seq<VaultDeposit>, id: IdFunction)
    requires Batchable(deposits) && Mints(b, deposits, id)
    ensures ValidBatch(b) <==> forall i :: 0 <= i < |deposits| ==> id(deposits[i]) != ZERO_HASH
  {
    SumsOfDeposits(deposits, b.outputs, id);
    forall i | 0 <= i < |deposits|
      ensures OutputFits(b, i) <==> id(deposits[i]) != ZERO_HASH
    {
      assert DepositFits(deposits, i);
    }
  }

  // ----- the controller -----

  datatype Finality = Finality(digest: Hash, slot: u64, beaconRoot: Hash, executionBlock: Hash, executionRoot: Hash,
                               blockNumber: u64, timestamp: u64)

  datatype Controller = Controller(version: u32, sequence: u64, nextNonce: u64, digest: Hash, slot: u64, beaconRoot: Hash,
                                   executionRoot: Hash, totalMinted: u64, configuration: Hash)

  predicate FinalityOk(f: Finality) {
    && f.slot != 0 && f.digest != ZERO_HASH && f.beaconRoot != ZERO_HASH && f.executionBlock != ZERO_HASH
    && f.executionRoot != ZERO_HASH
  }

  predicate ControllerOk(c: Controller) {
    && c.version == PROTOCOL_VERSION && c.configuration != ZERO_HASH && c.digest != ZERO_HASH
    && (if c.slot == 0
        then c.sequence == 0 && c.totalMinted == 0 && c.beaconRoot == ZERO_HASH && c.executionRoot == ZERO_HASH
        else c.beaconRoot != ZERO_HASH && c.executionRoot != ZERO_HASH)
    && c.totalMinted % UNITS_PER_MICRO == 0
  }

  function Bootstrap(configuration: Hash, firstNonce: u64, f: Finality): Checked<Controller> {
    var c := Controller(PROTOCOL_VERSION, 0, firstNonce, f.digest, f.slot, f.beaconRoot, f.executionRoot, 0, configuration);
    if FinalityOk(f) && ControllerOk(c) then Ok(c) else Err(InvalidValue)
  }

  /** Finality may repeat, unchanged, or advance by at most 4096 slots with a new digest. */
  predicate Advances(c: Controller, f: Finality) {
    && c.slot <= f.slot && f.slot - c.slot <= MAX_SLOT_GAP
    && !(f.slot == c.slot && c.slot != 0
         && (f.beaconRoot != c.beaconRoot || f.executionRoot != c.executionRoot || f.digest != c.digest))
    && !(f.slot > c.slot && f.digest == c.digest)
  }

  /** Adopts the finality of a transition. */
  function Following(c: Controller, f: Finality, nextNonce: u64, totalMinted: u64): Controller
    requires c.sequence < U64_MAX
  {
    Controller(c.version, c.sequence + 1, nextNonce, f.digest, f.slot, f.beaconRoot, f.executionRoot, totalMinted, c.configuration)
  }

  ghost function ApplyMintBatch(c: Controller, b: MintBatch, f: Finality): Checked<Controller> {
    if !ControllerOk(c) || !ValidBatch(b) || !FinalityOk(f) || b.firstNonce != c.nextNonce || !Advances(c, f)
       || c.sequence == U64_MAX || c.totalMinted + b.totalUsdd > U64_MAX
    then Err(InvalidValue)
    else
      var next := Following(c, f, b.nextNonce, c.totalMinted + b.totalUsdd);
      if ControllerOk(next) then Ok(next) else Err(InvalidValue)
  }

  function ApplyHeartbeat(c: Controller, f: Finality): Checked<Controller> {
    if !ControllerOk(c) || !FinalityOk(f) || f.slot <= c.slot || !Advances(c, f) || c.sequence == U64_MAX then Err(InvalidValue)
    else
      var next := Following(c, f, c.nextNonce, c.totalMinted);
      if ControllerOk(next) then Ok(next) else Err(InvalidValue)
  }

  lemma {:induction false} MultipleOfUnits(a: nat, b: nat)
    requires a % UNITS_PER_MICRO == 0
    ensures (a + UNITS_PER_MICRO * b) % UNITS_PER_MICRO == 0
  {
  }

  lemma {:induction false} BatchTotal(b: MintBatch)
    requires ValidBatch(b)
    ensures b.totalUsdd == UNITS_PER_MICRO * b.totalUsdt && b.totalUsdt == UsdtSum(b.outputs)
  {
    forall i | 0 <= i < |b.outputs|
      ensures b.outputs[i].usdd == UNITS_PER_MICRO * b.outputs[i].usdt
    {
      assert OutputFits(b, i);
    }
    SumsScale(b.outputs);
  }

  /** The final revalidation of a transition never fails. */
  lemma {:induction false} TransitionsStayValid(c: Controller, b: MintBatch, f: Finality)
    requires ControllerOk(c) && FinalityOk(f) && c.sequence < U64_MAX
    ensures ControllerOk(Following(c, f, c.nextNonce, c.totalMinted))
    ensures ValidBatch(b) && c.totalMinted + b.totalUsdd <= U64_MAX ==>
      ControllerOk(Following(c, f, b.nextNonce, c.totalMinted + b.totalUsdd))
  {
    if ValidBatch(b) {
      BatchTotal(b);
      MultipleOfUnits(c.totalMinted, b.totalUsdt);
    }
  }

  // ----- what a transition is -----

  /** The successor records the finality it was given and counts itself. */
  ghost predicate Adopts(c: Controller, f: Finality, n: Controller) {
    && n.version == c.version && n.configuration == c.configuration && n.sequence == c.sequence + 1
    && n.digest == f.digest && n.slot == f.slot && n.beaconRoot == f.beaconRoot && n.executionRoot == f.executionRoot
  }

  /** At most 4096 slots ahead with a new digest, or the same slot with the same roots and digest. */
  ghost predicate Follows(c: Controller, f: Finality) {
    && c.slot <= f.slot <= c.slot + 4096
    && (f.slot > c.slot ==> f.digest != c.digest)
    && (f.slot == c.slot ==> f.digest == c.digest && f.beaconRoot == c.beaconRoot && f.executionRoot == c.executionRoot)
  }

  /** Exactly which mints are transitions, and to which successor. */
  lemma {:induction false} MintIff(c: Controller, b: MintBatch, f: Finality, n: Controller)
    ensures ApplyMintBatch(c, b, f) == Ok(n) <==>
      && ControllerOk(c) && ValidBatch(b) && FinalityOk(f) && Follows(c, f)
      && c.sequence < U64_MAX && c.totalMinted + b.totalUsdd <= U64_MAX && b.firstNonce == c.nextNonce
      && Adopts(c, f, n) && n.nextNonce == b.nextNonce && n.totalMinted == c.totalMinted + b.totalUsdd
  {
    if ControllerOk(c) && FinalityOk(f) && c.sequence < U64_MAX {
      TransitionsStayValid(c, b, f);
    }
  }

  /** Exactly which heartbeats are transitions, and to which successor. */
  lemma {:induction false} HeartbeatIff(c: Controller, f: Finality, n: Controller)
    ensures ApplyHeartbeat(c, f) == Ok(n) <==>
      && ControllerOk(c) && FinalityOk(f) && Follows(c, f) && f.slot > c.slot && c.sequence < U64_MAX
      && Adopts(c, f, n) && n.nextNonce == c.nextNonce && n.totalMinted == c.totalMinted
  {
  }

  // ----- public outputs -----

  datatype DepositOutput = DepositOutput(manifest: Hash, claim: Hash, prior: Controller, next: Controller, timestamp: u64,
                                         batch: MintBatch)
  datatype HeartbeatOutput = HeartbeatOutput(manifest: Hash, claim: Hash, prior: Controller, next: Controller, timestamp: u64)

  /** `DepositPublicOutput::validate`, which sees no finality witness. */
  ghost predicate DepositOutputOk(o: DepositOutput) {
    var c, n, b := o.prior, o.next, o.batch;
    && o.manifest != ZERO_HASH && o.claim != ZERO_HASH && o.timestamp != 0
    && ControllerOk(c) && ControllerOk(n) && ValidBatch(b)
    && c.totalMinted + b.totalUsdd <= U64_MAX && c.sequence < U64_MAX
    && !(|| n.version != c.version || n.sequence != c.sequence + 1 || n.nextNonce != b.nextNonce
         || b.firstNonce != c.nextNonce || n.totalMinted != c.totalMinted + b.totalUsdd
         || n.configuration != c.configuration || n.slot < c.slot || n.slot - c.slot > MAX_SLOT_GAP
         || (n.slot == c.slot && (n.digest != c.digest || n.beaconRoot != c.beaconRoot || n.executionRoot != c.executionRoot))
         || (n.slot > c.slot && n.digest == c.digest))
  }

  /** `HeartbeatPublicOutput::validate`. */
  predicate HeartbeatOutputOk(o: HeartbeatOutput) {
    var c, n := o.prior, o.next;
    && o.manifest != ZERO_HASH && o.claim != ZERO_HASH && o.timestamp != 0
    && ControllerOk(c) && ControllerOk(n) && c.sequence < U64_MAX
    && !(|| n.version != c.version || n.sequence != c.sequence + 1 || n.nextNonce != c.nextNonce
         || n.totalMinted != c.totalMinted || n.configuration != c.configuration || n.slot <= c.slot
         || n.digest == c.digest || n.slot - c.slot > MAX_SLOT_GAP)
  }

  /** The witness that a successor state itself records. */
  function WitnessOf(n: Controller): Finality {
    Finality(n.digest, n.slot, n.beaconRoot, n.digest, n.executionRoot, 0, 0)
  }

  lemma {:induction false} OutputHasWitness(o: DepositOutput)
    requires DepositOutputOk(o)
    ensures ApplyMintBatch(o.prior, o.batch, WitnessOf(o.next)) == Ok(o.next)
  {
  }

  lemma {:induction false} WitnessMakesOutput(o: DepositOutput, f: Finality)
    requires ApplyMintBatch(o.prior, o.batch, f) == Ok(o.next)
    requires o.manifest != ZERO_HASH && o.claim != ZERO_HASH && o.timestamp != 0
    ensures DepositOutputOk(o)
  {
  }

  /** The relational validator accepts exactly the transitions that some finality witness produces. */
  lemma {:induction false} DepositOutputIffTransition(o: DepositOutput)
    requires o.manifest != ZERO_HASH && o.claim != ZERO_HASH && o.timestamp != 0
    ensures DepositOutputOk(o) <==> exists f :: ApplyMintBatch(o.prior, o.batch, f) == Ok(o.next)
  {
    if DepositOutputOk(o) {
      OutputHasWitness(o);
    }
    forall f | ApplyMintBatch(o.prior, o.batch, f) == Ok(o.next)
      ensures DepositOutputOk(o)
    {
      WitnessMakesOutput(o, f);
    }
  }

  lemma {:induction false} HeartbeatOutputIffTransition(o: HeartbeatOutput)
    requires o.manifest != ZERO_HASH && o.claim != ZERO_HASH && o.timestamp != 0
    ensures HeartbeatOutputOk(o) <==> exists f :: ApplyHeartbeat(o.prior, f) == Ok(o.next)
  {
    if HeartbeatOutputOk(o) {
      assert ApplyHeartbeat(o.prior, WitnessOf(o.next)) == Ok(o.next);
    }
  }

  // ----- the guests -----

  datatype DepositClaim = DepositClaim(manifest: Hash, prior: Controller, finality: Finality, deposits: seq<VaultDeposit>)
  /** `validated` is the outcome of `ProtocolManifest::validate`, whose rules are not modelled. */
  datatype Manifest = Manifest(validated: bool, id: Hash, configuration: Hash, chainId: u64, vault: nat, usdt: nat)
  datatype GuestError = InvalidManifest | ManifestMismatch | InvalidControllerState | ConfigurationMismatch
                      | DepositTargetsWrongVault | InvalidDepositBatch | DepositNonceNotNext | InvalidControllerTransition
                      | VerifierRejected

  predicate AllTarget(deposits: seq<VaultDeposit>, m: Manifest) {
    forall k :: 0 <= k < |deposits| ==> TargetsVault(deposits[k], m)
  }

  /** What `build_deposit_journal` commits to; `proved` is the Ethereum verifier. */
  ghost function DepositJournal(m: Manifest, claim: DepositClaim, claimId: Hash, proved: bool, id: IdFunction)
    : Result<DepositOutput, GuestError>
  {
    if !m.validated then Err(InvalidManifest)
    else if claim.manifest != m.id then Err(ManifestMismatch)
    else if !ControllerOk(claim.prior) then Err(InvalidControllerState)
    else if claim.prior.configuration != m.configuration then Err(ConfigurationMismatch)
    else if !AllTarget(claim.deposits, m) then Err(DepositTargetsWrongVault)
    else if !Batchable(claim.deposits) then Err(InvalidDepositBatch)
    else
      var batch := BatchOf(claim.deposits, id);
      var next := ApplyMintBatch(claim.prior, batch, claim.finality);
      if batch.firstNonce != claim.prior.nextNonce then Err(DepositNonceNotNext)
      else if next.Err? then Err(InvalidControllerTransition)
      else if !proved then Err(VerifierRejected)
      else Ok(DepositOutput(m.id, claimId, claim.prior, next.value, claim.finality.timestamp, batch))
  }

  method DepositGuest(m: Manifest, claim: DepositClaim, claimId: Hash, proved: bool, id: IdFunction)
    returns (r: Result<DepositOutput, GuestError>)
    ensures r == DepositJournal(m, claim, claimId, proved, id)
  {
    if !m.validated {
      return Err(InvalidManifest);
    }
    if claim.manifest != m.id {
      return Err(ManifestMismatch);
    }
    if !ControllerOk(claim.prior) {
      return Err(InvalidControllerState);
    }
    if claim.prior.configuration != m.configuration {
      return Err(ConfigurationMismatch);
    }
    for i := 0 to |claim.deposits|
      invariant forall k :: 0 <= k < i ==> TargetsVault(claim.deposits[k], m)
    {
      if !TargetsVault(claim.deposits[i], m) {
        return Err(DepositTargetsWrongVault);
      }
    }
    var built := FromDeposits(claim.deposits, id);
    if built.Err? {
      return Err(InvalidDepositBatch);
    }
    var batch := built.value;
    if batch.firstNonce != claim.prior.nextNonce {
      return Err(DepositNonceNotNext);
    }
    var next := MintTransition(claim.prior, batch, claim.finality);
    if next.Err? {
      return Err(InvalidControllerTransition);
    }
    if !proved {
      return Err(VerifierRejected);
    }
    return Ok(DepositOutput(m.id, claimId, claim.prior, next.value, claim.finality.timestamp, batch));
  }

  /** The guest commits exactly to proven, consecutive deposits of the manifest's vault that the
      controller can mint next; what it commits to mints exactly them, and its output validates exactly
      when the execution timestamp, which the guest does not look at, is not zero. */
  lemma {:induction false} DepositGuestCommits(m: Manifest, claim: DepositClaim, claimId: Hash, proved: bool, id: IdFunction)
    ensures DepositJournal(m, claim, claimId, proved, id).Ok? <==>
      && m.validated && claim.manifest == m.id && claim.prior.configuration == m.configuration
      && AllTarget(claim.deposits, m) && Batchable(claim.deposits) && proved
      && claim.deposits[0].nonce == claim.prior.nextNonce
      && ApplyMintBatch(claim.prior, BatchOf(claim.deposits, id), claim.finality).Ok?
    ensures DepositJournal(m, claim, claimId, proved, id).Ok? ==>
      var o := DepositJournal(m, claim, claimId, proved, id).value;
      && Mints(o.batch, claim.deposits, id) && CarriesAll(o.batch.outputs, claim.deposits, id)
      && o.prior == claim.prior && o.manifest == m.id && o.claim == claimId && o.timestamp == claim.finality.timestamp
      && ApplyMintBatch(o.prior, o.batch, claim.finality) == Ok(o.next)
      && (claimId != ZERO_HASH && m.id != ZERO_HASH ==> (DepositOutputOk(o) <==> claim.finality.timestamp != 0))
  {
    var r := DepositJournal(m, claim, claimId, proved, id);
    if r.Ok? {
      BatchOfMints(claim.deposits, id);
      MintsCarry(r.value.batch, claim.deposits, id);
      if claimId != ZERO_HASH && m.id != ZERO_HASH && r.value.timestamp != 0 {
        WitnessMakesOutput(r.value, claim.finality);
      }
    }
  }

  /** What `build_heartbeat_journal` commits to. */
  function HeartbeatGuest(m: Manifest, claimed: Hash, prior: Controller, f: Finality, claimId: Hash, proved: bool)
    : Result<HeartbeatOutput, GuestError>
  {
    if !m.validated then Err(InvalidManifest)
    else if claimed != m.id then Err(ManifestMismatch)
    else if prior.configuration != m.configuration then Err(ConfigurationMismatch)
    else
      var next := ApplyHeartbeat(prior, f);
      if next.Err? then Err(InvalidControllerTransition)
      else if !proved then Err(VerifierRejected)
      else Ok(HeartbeatOutput(m.id, claimId, prior, next.value, f.timestamp))
  }

  /** The guest commits exactly to a proven heartbeat of the manifest's controller, and to its successor. */
  lemma {:induction false} HeartbeatGuestCommits(m: Manifest, claimed: Hash, prior: Controller, f: Finality, claimId: Hash, proved: bool,
                                                 o: HeartbeatOutput)
    ensures HeartbeatGuest(m, claimed, prior, f, claimId, proved) == Ok(o) <==>
      && m.validated && claimed == m.id && prior.configuration == m.configuration && proved
      && o.manifest == m.id && o.claim == claimId && o.prior == prior && o.timestamp == f.timestamp
      && ControllerOk(prior) && FinalityOk(f) && Follows(prior, f) && f.slot > prior.slot && prior.sequence < U64_MAX
      && Adopts(prior, f, o.next) && o.next.nextNonce == prior.nextNonce && o.next.totalMinted == prior.totalMinted
  {
    HeartbeatIff(prior, f, o.next);
    if ApplyHeartbeat(prior, f).Ok? {
      HeartbeatIff(prior, f, ApplyHeartbeat(prior, f).value);
    }
  }

  /** The guests do not look at the timestamp, so their outputs validate exactly when it is not zero. */
  lemma {:induction false} HeartbeatGuestOutput(m: Manifest, claimed: Hash, prior: Controller, f: Finality, claimId: Hash, proved: bool)
    requires HeartbeatGuest(m, claimed, prior, f, claimId, proved).Ok? && m.id != ZERO_HASH && claimId != ZERO_HASH
    ensures HeartbeatOutputOk(HeartbeatGuest(m, claimed, prior, f, claimId, proved).value) <==> f.timestamp != 0
  {
    var o := HeartbeatGuest(m, claimed, prior, f, claimId, proved).value;
    if f.timestamp != 0 {
      assert ApplyHeartbeat(o.prior, f) == Ok(o.next);
      HeartbeatOutputIffTransition(o);
    }
  }

  /** A hash that is a small number in little-endian form. */
  function SmallHash(n: byte): (h: Hash)
    ensures h[0] == n
  {
    LittleEndian(n, 32)
  }

  /** A small instance on which both guests run. */
  function SampleFinality(slot: u64, digest: byte, timestamp: u64): Finality {
    Finality(SmallHash(digest), slot, SmallHash(1), SmallHash(1), SmallHash(1), 0, timestamp)
  }

  function SampleController(): Controller {
    Controller(PROTOCOL_VERSION, 0, 0, SmallHash(1), 1, SmallHash(1), SmallHash(1), 0, SmallHash(1))
  }

  const SAMPLE_MANIFEST: Manifest := Manifest(true, SmallHash(1), SmallHash(1), 1, 1, 1)
  const SAMPLE_DEPOSIT: VaultDeposit := VaultDeposit(1, 1, 1, 0, 1, 1, [0], ZERO_HASH)

  /** A heartbeat with timestamp zero that the guest accepts and whose output is refused. */
  lemma {:induction false} ZeroTimestampHeartbeat()
    ensures var f := SampleFinality(2, 2, 0);
      var r := HeartbeatGuest(SAMPLE_MANIFEST, SmallHash(1), SampleController(), f, SmallHash(1), true);
      r.Ok? && !HeartbeatOutputOk(r.value)
  {
    assert SmallHash(1) != SmallHash(2) && SmallHash(1) != ZERO_HASH && SmallHash(2) != ZERO_HASH;
  }

  /** A deposit claim with timestamp zero that the guest accepts and whose output is refused. */
  lemma {:induction false} ZeroTimestampDeposit(id: IdFunction)
    requires id(SAMPLE_DEPOSIT) != ZERO_HASH
    ensures var claim := DepositClaim(SmallHash(1), SampleController(), SampleFinality(2, 2, 0), [SAMPLE_DEPOSIT]);
      var r := DepositJournal(SAMPLE_MANIFEST, claim, SmallHash(1), true, id);
      r.Ok? && !DepositOutputOk(r.value)
  {
    var claim := DepositClaim(SmallHash(1), SampleController(), SampleFinality(2, 2, 0), [SAMPLE_DEPOSIT]);
    SampleBatch(id);
    SampleMints(BatchOf(claim.deposits, id));
    DepositGuestCommits(SAMPLE_MANIFEST, claim, SmallHash(1), true, id);
  }

  lemma {:induction false} SampleBatch(id: IdFunction)
    requires id(SAMPLE_DEPOSIT) != ZERO_HASH
    ensures Batchable([SAMPLE_DEPOSIT])
    ensures var b := BatchOf([SAMPLE_DEPOSIT], id);
      ValidBatch(b) && b.firstNonce == 0 && b.totalUsdd == UNITS_PER_MICRO
  {
    var deposits := [SAMPLE_DEPOSIT];
    assert deposits[..0] == [];
    assert DepositSum(deposits) == 1 && DepositFits(deposits, 0);
    BatchOfMints(deposits, id);
    ConstructedIsValid(BatchOf(deposits, id), deposits, id);
  }

  lemma {:induction false} SampleMints(b: MintBatch)
    requires ValidBatch(b) && b.firstNonce == 0 && b.totalUsdd == UNITS_PER_MICRO
    ensures ApplyMintBatch(SampleController(), b, SampleFinality(2, 2, 0)).Ok?
  {
    assert SmallHash(1) != SmallHash(2) && SmallHash(1) != ZERO_HASH && SmallHash(2) != ZERO_HASH;
    TransitionsStayValid(SampleController(), b, SampleFinality(2, 2, 0));
  }

  predicate TargetsVault(d: VaultDeposit, m: Manifest) {
    d.chainId == m.chainId && d.vault == m.vault && d.usdt == m.usdt
  }

  method MintTransition(c: Controller, b: MintBatch, f: Finality) returns (r: Checked<Controller>)
    ensures r == ApplyMintBatch(c, b, f)
  {
    var valid := ValidateBatch(b);
    if !ControllerOk(c) || !valid || !FinalityOk(f) || b.firstNonce != c.nextNonce || !Advances(c, f) {
      return Err(InvalidValue);
    }
    if c.sequence == U64_MAX || c.totalMinted as nat + b.totalUsdd > U64_MAX {
      return Err(InvalidValue);
    }
    var next := Following(c, f, b.nextNonce, c.totalMinted + b.totalUsdd);
    return if ControllerOk(next) then Ok(next) else Err(InvalidValue);
  }

  // ----- runs -----

  datatype Transition = Mint(batch: MintBatch, finality: Finality) | Heartbeat(finality: Finality)

  ghost function Apply(c: Controller, t: Transition): Checked<Controller> {
    match t
    case Mint(b, f) => ApplyMintBatch(c, b, f)
    case Heartbeat(f) => ApplyHeartbeat(c, f)
  }

  ghost function Run(c: Controller, ts: seq<Transition>): Checked<Controller> {
    if ts == [] then Ok(c)
    else
      var before :- Run(c, ts[..|ts| - 1]);
      Apply(before, ts[|ts| - 1])
  }

  function OutputsIn(t: Transition): seq<MintOutput> {
    if t.Mint? then t.batch.outputs else []
  }

  /** Everything a run mints, in order. */
  function Minted(ts: seq<Transition>): seq<MintOutput> {
    if ts == [] then [] else Minted(ts[..|ts| - 1]) + OutputsIn(ts[|ts| - 1])
  }

  lemma {:induction false} SumConcat(a: seq<MintOutput>, b: seq<MintOutput>)
    ensures UsdtSum(a + b) == UsdtSum(a) + UsdtSum(b)
    decreases |b|
  {
    if b == [] {
      assert a + b == a;
    } else {
      var n := |b| - 1;
      assert (a + b)[..|a + b| - 1] == a + b[..n];
      SumConcat(a, b[..n]);
    }
  }

  /** One transition: what it mints comes next, and finality moves forward by a bounded step. */
  ghost predicate Continues(c: Controller, t: Transition, n: Controller) {
    && ControllerOk(n) && n.sequence == c.sequence + 1 && n.configuration == c.configuration
    && n.nextNonce == c.nextNonce + |OutputsIn(t)|
    && (forall k :: 0 <= k < |OutputsIn(t)| ==> OutputsIn(t)[k].nonce == c.nextNonce + k)
    && n.totalMinted == c.totalMinted + UNITS_PER_MICRO * UsdtSum(OutputsIn(t))
    && c.slot <= n.slot <= c.slot + MAX_SLOT_GAP
    && (n.slot > c.slot ==> n.digest != c.digest)
    && (n.slot == c.slot ==> n.digest == c.digest && n.beaconRoot == c.beaconRoot && n.executionRoot == c.executionRoot)
    && (t.Heartbeat? ==> n.slot > c.slot)
  }

  lemma {:induction false} ApplyContinues(c: Controller, t: Transition)
    requires Apply(c, t).Ok?
    ensures Continues(c, t, Apply(c, t).value)
  {
    if t.Mint? {
      BatchTotal(t.batch);
      forall k | 0 <= k < |t.batch.outputs|
        ensures t.batch.outputs[k].nonce == c.nextNonce + k
      {
        assert OutputFits(t.batch, k);
      }
    }
  }

  ghost predicate MintsOnce(c: Controller, ts: seq<Transition>, n: Controller) {
    && n.sequence == c.sequence + |ts| && n.configuration == c.configuration
    && n.nextNonce == c.nextNonce + |Minted(ts)|
    && (forall k :: 0 <= k < |Minted(ts)| ==> Minted(ts)[k].nonce == c.nextNonce + k)
    && n.totalMinted == c.totalMinted + UNITS_PER_MICRO * UsdtSum(Minted(ts))
    && c.slot <= n.slot <= c.slot + MAX_SLOT_GAP * |ts|
  }

  lemma {:induction false} OneMoreTransition(c: Controller, init: seq<Transition>, t: Transition, before: Controller, n: Controller)
    requires MintsOnce(c, init, before) && Continues(before, t, n)
    ensures MintsOnce(c, init + [t], n)
  {
    var ts := init + [t];
    assert ts[..|init|] == init;
    SumConcat(Minted(init), OutputsIn(t));
    forall k | 0 <= k < |Minted(ts)|
      ensures Minted(ts)[k].nonce == c.nextNonce + k
    {
      if k >= |Minted(init)| {
        assert Minted(ts)[k] == OutputsIn(t)[k - |Minted(init)|];
      }
    }
  }

  /** Over every run: nonces are minted one after another, each once; the total is a hundred times the
      deposits; the sequence counts transitions; slots never go back and never jump. */
  lemma {:induction false} RunMintsOnce(c: Controller, ts: seq<Transition>)
    requires Run(c, ts).Ok?
    ensures MintsOnce(c, ts, Run(c, ts).value)
  {
    if ts != [] {
      var init, last := ts[..|ts| - 1], ts[|ts| - 1];
      RunMintsOnce(c, init);
      ApplyContinues(Run(c, init).value, last);
      OneMoreTransition(c, init, last, Run(c, init).value, Run(c, ts).value);
      assert init + [last] == ts;
    }
  }

  /** Every single transition of a run continues the one before it, so no slot step exceeds 4096. */
  lemma {:induction false} RunContinues(c: Controller, ts: seq<Transition>, k: nat)
    requires Run(c, ts).Ok? && k < |ts|
    ensures Run(c, ts[..k]).Ok? && Run(c, ts[..k + 1]).Ok?
    ensures Continues(Run(c, ts[..k]).value, ts[k], Run(c, ts[..k + 1]).value)
    decreases |ts|
  {
    var n := |ts| - 1;
    if k == n {
      assert ts[..k + 1] == ts;
      ApplyContinues(Run(c, ts[..n]).value, ts[n]);
    } else {
      assert ts[..n][..k] == ts[..k] && ts[..n][..k + 1] == ts[..k + 1];
      RunContinues(c, ts[..n], k);
    }
  }

  /** From bootstrap, no nonce below the first is ever minted, and no nonce twice. */
  lemma {:induction false} BootstrapRunMintsOnce(configuration: Hash, firstNonce: u64, f: Finality, ts: seq<Transition>)
    requires Bootstrap(configuration, firstNonce, f).Ok?
    requires Run(Bootstrap(configuration, firstNonce, f).value, ts).Ok?
    ensures var n := Run(Bootstrap(configuration, firstNonce, f).value, ts).value;
      && (forall i :: 0 <= i < |Minted(ts)| ==> firstNonce <= Minted(ts)[i].nonce < n.nextNonce)
      && (forall i, j :: 0 <= i < j < |Minted(ts)| ==> Minted(ts)[i].nonce < Minted(ts)[j].nonce)
      && n.sequence == |ts| && n.totalMinted == UNITS_PER_MICRO * UsdtSum(Minted(ts)) && n.slot >= f.slot > 0
  {
    RunMintsOnce(Bootstrap(configuration, firstNonce, f).value, ts);
  }

  // ----- whom a run pays -----

  function Flatten(lists: seq<seq<VaultDeposit>>): seq<VaultDeposit> {
    if lists == [] then [] else Flatten(lists[..|lists| - 1]) + lists[|lists| - 1]
  }

  /** Every mint of the run is the batch of its deposits; heartbeats have none. */
  ghost predicate MadeFrom(t: Transition, deposits: seq<VaultDeposit>, id: IdFunction) {
    match t
    case Mint(batch, _) => Batchable(deposits) && batch == BatchOf(deposits, id)
    case Heartbeat(_) => deposits == []
  }

  lemma {:induction false} MadeCarries(t: Transition, deposits: seq<VaultDeposit>, id: IdFunction)
    requires MadeFrom(t, deposits, id)
    ensures CarriesAll(OutputsIn(t), deposits, id)
  {
    if t.Mint? {
      BatchOfMints(deposits, id);
      MintsCarry(t.batch, deposits, id);
    }
  }

  lemma {:induction false} CarriesConcat(a: seq<MintOutput>, b: seq<MintOutput>, x: seq<VaultDeposit>, y: seq<VaultDeposit>, id: IdFunction)
    requires CarriesAll(a, x, id) && CarriesAll(b, y, id)
    ensures CarriesAll(a + b, x + y, id)
  {
  }

  /** A run over batches made from deposits mints to the recipients of those deposits, in order. */
  lemma {:induction false} RunPaysDeposits(ts: seq<Transition>, lists: seq<seq<VaultDeposit>>, id: IdFunction)
    requires |lists| == |ts| && forall k :: 0 <= k < |ts| ==> MadeFrom(ts[k], lists[k], id)
    ensures CarriesAll(Minted(ts), Flatten(lists), id)
  {
    if ts != [] {
      var n := |ts| - 1;
      RunPaysDeposits(ts[..n], lists[..n], id);
      MadeCarries(ts[n], lists[n], id);
      CarriesConcat(Minted(ts[..n]), OutputsIn(ts[n]), Flatten(lists[..n]), lists[n], id);
    }
  }
}
