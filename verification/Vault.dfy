/**
 * The Ethereum reserve (contracts/src/USDDVaultV1.sol). A revert rolls back the whole call, so
 * each entry point is a step that either fails and changes nothing or gives the next state. The
 * contract object updates its fields in the source's order and hands control to the token in between,
 * which may call back.
 */
module Vault {
  import opened Machine
  import opened Digests
  import opened BurnTree
  import opened ElementsGuest

  const MAX_SCRIPT_LENGTH: nat := 128
  const MAX_DEPOSIT: nat := 20_000_000_000_000
  const MAX_BURN: nat := 20_000_000_000_000
  const LIABILITY_CAP: nat := 1_000_000_000_000_000
  const U256_LIMIT: nat := 0x1_0000_0000_0000_0000_0000_0000_0000_0000_0000_0000_0000_0000_0000_0000_0000_0000

  datatype VaultError =
    | ReentrantCall | ZeroAmount | DepositAmountAboveMaximum | InvalidElementsScriptLength
    | LiabilityCapExceeded | ArithmeticPanic | TokenFailure | ReserveInsolvent
    | WrongStateSequence | DecreasingBurnCount | BurnCountGrowthAboveMaximum | NonCanonicalEmptyBurnRoot
    | BurnRootChangedWithoutNewBurn | ConsensusStateDidNotAdvance | InvalidElementsState
    | NonIncreasingBitcoinHeight | NonIncreasingElementsHeight | DecreasingMedianTimePast
    | NonIncreasingChainwork | ActivationChainworkNotReached
    | VerifierCodeChanged | ProgramIdMismatch | ConfigHashMismatch | StateProofRejected
    | BridgeNotActive | WrongProtocolVersion | WrongGenesis | WrongAsset | WrongVaultId | WrongBurnId
    | InvalidBurnClaim | BurnIndexNotFinalized | BurnAlreadySpent | LiabilityInsufficient | InvalidBurnProof

  datatype Config = Config(deployment: Deployment, token: Address, verifierCodehash: Digest, minimumChainwork: u256)

  datatype VaultState = VaultState(
    lock: nat,
    finalized: BridgeState,
    bridgeHash: Digest,
    nextNonce: u64,
    liability: u256,
    deposited: u256,
    redeemed: u256,
    commitments: map<u64, Digest>,
    spent: set<Digest>)

  /** What the token did during one transfer: whether the call succeeded and returned nothing or
      true, the balances it reported around the call, and how it called back into the vault. */
  datatype Transfer = Transfer(succeeded: bool, senderBefore: u256, senderAfter: u256,
                               receiverBefore: u256, receiverAfter: u256, callbacks: seq<Call>)
  {
    /** `ExactSafeERC20`: both balances moved by exactly `amount`. */
    predicate Exact(amount: nat) {
      && succeeded
      && senderAfter <= senderBefore && senderBefore - senderAfter == amount
      && receiverBefore <= receiverAfter && receiverAfter - receiverBefore == amount
    }
  }

  datatype DepositCall = DepositCall(sender: Address, amount: u64, script: seq<byte>, salt: Digest,
                                     pull: Transfer, reserveAfter: u256)

  datatype AdvanceCall = AdvanceCall(next: BridgeState, proof: nat,
                                     codehash: Digest, programId: Digest, configHash: Digest)

  datatype BurnClaim = BurnClaim(version: u32, genesis: Digest, asset: Digest, vaultId: Digest,
                                 txid: Digest, vout: u32, burnId: Digest, amount: u64, recipient: Address)

  datatype RedeemCall = RedeemCall(claim: BurnClaim, index: u64, branch: Branch,
                                   push: Transfer, reserveBefore: u256, reserveAfter: u256)

  // ----- deposit -----

  function CommitmentOf(c: Config, nonce: u64, d: DepositCall): Digest {
    DepositId(c.deployment.chainId, c.deployment.vault, c.token, nonce, d.sender, d.amount, d.script, d.salt)
  }

  function DepositStep(c: Config, s: VaultState, d: DepositCall): Result<VaultState, VaultError> {
    if s.lock != 1 then Err(ReentrantCall)
    else if d.amount == 0 then Err(ZeroAmount)
    else if d.amount > MAX_DEPOSIT then Err(DepositAmountAboveMaximum)
    else if |d.script| == 0 || |d.script| > MAX_SCRIPT_LENGTH then Err(InvalidElementsScriptLength)
    else if s.liability + d.amount >= U256_LIMIT then Err(ArithmeticPanic)
    else if s.liability + d.amount > LIABILITY_CAP then Err(LiabilityCapExceeded)
    else if s.nextNonce + 1 > U64_MAX then Err(ArithmeticPanic)
    else if !d.pull.Exact(d.amount) then Err(TokenFailure)
    else if s.deposited + d.amount >= U256_LIMIT then Err(ArithmeticPanic)
    else if d.reserveAfter < s.liability + d.amount then Err(ReserveInsolvent)
    else Ok(s.(nextNonce := s.nextNonce + 1,
               liability := s.liability + d.amount,
               deposited := s.deposited + d.amount,
               commitments := s.commitments[s.nextNonce := CommitmentOf(c, s.nextNonce, d)]))
  }

  // ----- advanceElementsState -----

  function CheckNextState(c: Config, bridgeHash: Digest, s: BridgeState, next: BridgeState): Result<(), VaultError> {
    if s.sequence + 1 > U64_MAX then Err(ArithmeticPanic)
    else if next.sequence != s.sequence + 1 then Err(WrongStateSequence)
    else if next.burnCount < s.burnCount then Err(DecreasingBurnCount)
    else if next.burnCount - s.burnCount > MAX_APPENDS then Err(BurnCountGrowthAboveMaximum)
    else if next.burnCount == 0 && next.burnRoot != EmptyAt(DEPTH) then Err(NonCanonicalEmptyBurnRoot)
    else if s.sequence != 0 && next.burnCount == s.burnCount && next.burnRoot != s.burnRoot then
      Err(BurnRootChangedWithoutNewBurn)
    else if s.sequence != 0 && next.consensusDigest == s.consensusDigest then Err(ConsensusStateDidNotAdvance)
    else if next.elementsTipHash == ZERO || next.consensusDigest == ZERO || next.burnRoot == ZERO
            || next.bitcoinBlockHash == ZERO then
      Err(InvalidElementsState)
    else if next.bitcoinHeight <= s.bitcoinHeight then Err(NonIncreasingBitcoinHeight)
    else if next.elementsHeight <= s.elementsHeight then Err(NonIncreasingElementsHeight)
    else if next.medianTimePast < s.medianTimePast then Err(DecreasingMedianTimePast)
    else if next.chainwork <= s.chainwork then Err(NonIncreasingChainwork)
    else if bridgeHash == ZERO && next.chainwork < c.minimumChainwork then Err(VaultError.ActivationChainworkNotReached)
    else Ok(())
  }

  function AdvanceStep(c: Config, verify: (Digest, nat) -> bool, s: VaultState, a: AdvanceCall)
    : Result<VaultState, VaultError>
  {
    if s.lock != 1 then Err(ReentrantCall)
    else
      var _ :- CheckNextState(c, s.bridgeHash, s.finalized, a.next);
      if a.codehash != c.verifierCodehash then Err(VerifierCodeChanged)
      else if a.programId != c.deployment.programId then Err(ProgramIdMismatch)
      else if a.configHash != c.deployment.configHash then Err(ConfigHashMismatch)
      else if !verify(StatementFor(c.deployment, s.bridgeHash, s.finalized, a.next), a.proof) then
        Err(StateProofRejected)
      else
        Ok(s.(finalized := a.next, bridgeHash := StateLink(s.bridgeHash, StateContents(a.next))))
  }

  // ----- redeem -----

  function ClaimLeaf(claim: BurnClaim, index: u64): Digest {
    BurnLeaf(claim.version, claim.genesis, claim.asset, claim.vaultId, claim.burnId, index, claim.amount, claim.recipient)
  }

  function CheckRedeem(c: Config, s: VaultState, r: RedeemCall): Result<(), VaultError> {
    var claim := r.claim;
    if s.bridgeHash == ZERO then Err(BridgeNotActive)
    else if claim.version != PROTOCOL_VERSION then Err(WrongProtocolVersion)
    else if claim.genesis != c.deployment.genesis then Err(WrongGenesis)
    else if claim.asset != c.deployment.asset then Err(WrongAsset)
    else if claim.vaultId != c.deployment.vaultId then Err(WrongVaultId)
    else if claim.burnId != BurnId(c.deployment.genesis, claim.txid, claim.vout) then Err(WrongBurnId)
    else if claim.burnId == ZERO || claim.amount == 0 || claim.amount > MAX_BURN || claim.recipient == 0
            || claim.recipient == c.deployment.vault then
      Err(InvalidBurnClaim)
    else if r.index >= s.finalized.burnCount then Err(BurnIndexNotFinalized)
    else if claim.burnId in s.spent then Err(BurnAlreadySpent)
    else if claim.amount > s.liability then Err(LiabilityInsufficient)
    else if Fold(r.branch, ClaimLeaf(claim, r.index), r.index) != s.finalized.burnRoot then Err(InvalidBurnProof)
    else Ok(())
  }

  function RedeemStep(c: Config, s: VaultState, r: RedeemCall): Result<VaultState, VaultError> {
    if s.lock != 1 then Err(ReentrantCall)
    else
      var _ :- CheckRedeem(c, s, r);
      if r.reserveBefore < s.liability then Err(ReserveInsolvent)
      else if s.redeemed + r.claim.amount >= U256_LIMIT then Err(ArithmeticPanic)
      else if !r.push.Exact(r.claim.amount) then Err(TokenFailure)
      else if r.reserveAfter < s.liability - r.claim.amount then Err(ReserveInsolvent)
      else Ok(s.(spent := s.spent + {r.claim.burnId},
                 liability := s.liability - r.claim.amount,
                 redeemed := s.redeemed + r.claim.amount))
  }

  // ----- the contract -----

  class USDDVaultV1 {
    const config: Config
    var reentrancyLock: nat
    var finalizedState: BridgeState
    var bridgeStateHash: Digest
    var nextDepositNonce: u64
    var principalLiability: u256
    var totalDeposited: u256
    var totalRedeemed: u256
    var depositCommitmentByNonce: map<u64, Digest>
    var spentBurnIds: set<Digest>

    function State(): VaultState
      reads this
    {
      VaultState(reentrancyLock, finalizedState, bridgeStateHash, nextDepositNonce, principalLiability,
                 totalDeposited, totalRedeemed, depositCommitmentByNonce, spentBurnIds)
    }

    constructor (config: Config)
      ensures this.config == config && State() == InitialState()
    {
      this.config := config;
      reentrancyLock, finalizedState, bridgeStateHash, nextDepositNonce := 1, ZERO_STATE, ZERO, 0;
      principalLiability, totalDeposited, totalRedeemed := 0, 0, 0;
      depositCommitmentByNonce, spentBurnIds := map[], {};
    }

    /** The `nonReentrant` modifier around the body; a failed body is rolled back. */
    method Deposit(d: DepositCall, verify: (Digest, nat) -> bool) returns (r: Result<(u64, Digest), VaultError>)
      modifies this
      ensures var step := DepositStep(config, old(State()), d);
        && State() == (if step.Ok? then step.value else old(State()))
        && r == if step.Ok? then Ok((old(nextDepositNonce), CommitmentOf(config, old(nextDepositNonce), d)))
                else Err(step.error)
      decreases d, 1
    {
      if reentrancyLock != 1 { return Err(ReentrantCall); }
      var before := State();
      reentrancyLock := 2;
      r := AcceptDeposit(d, verify);
      if r.Ok? {
        reentrancyLock := 1;
      } else {
        Revert(before);
      }
    }

    /** What a body leaves while the lock is still taken: the step's result, or any state on failure. */
    predicate Ran<T>(r: Result<T, VaultError>, step: Result<VaultState, VaultError>)
      reads this
    {
      && (r.Ok? <==> step.Ok?)
      && (r.Ok? ==> State() == step.value.(lock := 2))
      && (r.Err? ==> r.error == step.error)
    }

    method AcceptDeposit(d: DepositCall, verify: (Digest, nat) -> bool) returns (r: Result<(u64, Digest), VaultError>)
      requires reentrancyLock == 2
      modifies this
      ensures Ran(r, DepositStep(config, old(State()).(lock := 1), d))
      ensures r.Ok? ==> r.value == (old(nextDepositNonce), CommitmentOf(config, old(nextDepositNonce), d))
      decreases d, 0
    {
      if d.amount == 0 { return Err(ZeroAmount); }
      if d.amount > MAX_DEPOSIT { return Err(DepositAmountAboveMaximum); }
      if |d.script| == 0 || |d.script| > MAX_SCRIPT_LENGTH { return Err(InvalidElementsScriptLength); }
      var newLiability := principalLiability + d.amount;
      if newLiability >= U256_LIMIT { return Err(ArithmeticPanic); }
      if newLiability > LIABILITY_CAP { return Err(LiabilityCapExceeded); }
      var nonce := nextDepositNonce;
      if nonce + 1 > U64_MAX { return Err(ArithmeticPanic); }
      nextDepositNonce := nonce + 1;
      var depositId := CommitmentOf(config, nonce, d);
      CallToken(d.pull, verify);
      if !d.pull.Exact(d.amount) { return Err(TokenFailure); }
      depositCommitmentByNonce := depositCommitmentByNonce[nonce := depositId];
      principalLiability := newLiability;
      if totalDeposited + d.amount >= U256_LIMIT { return Err(ArithmeticPanic); }
      totalDeposited := totalDeposited + d.amount;
      if d.reserveAfter < newLiability { return Err(ReserveInsolvent); }
      return Ok((nonce, depositId));
    }

    method AdvanceElementsState(a: AdvanceCall, verify: (Digest, nat) -> bool) returns (r: Result<(), VaultError>)
      modifies this
      ensures var step := AdvanceStep(config, verify, old(State()), a);
        && State() == (if step.Ok? then step.value else old(State()))
        && r == if step.Ok? then Ok(()) else Err(step.error)
    {
      if reentrancyLock != 1 { return Err(ReentrantCall); }
      var before := State();
      reentrancyLock := 2;
      r := AcceptState(a, verify);
      if r.Ok? {
        reentrancyLock := 1;
      } else {
        Revert(before);
      }
    }

    /** The verifier's functions are `view`: they cannot change the vault. */
    method AcceptState(a: AdvanceCall, verify: (Digest, nat) -> bool) returns (r: Result<(), VaultError>)
      requires reentrancyLock == 2
      modifies this
      ensures Ran(r, AdvanceStep(config, verify, old(State()).(lock := 1), a)) && (r.Ok? ==> r.value == ())
    {
      var _ :- CheckNextState(config, bridgeStateHash, finalizedState, a.next);
      var nextStateHash := StateLink(bridgeStateHash, StateContents(a.next));
      var statement := StatementFor(config.deployment, bridgeStateHash, finalizedState, a.next);
      if a.codehash != config.verifierCodehash { return Err(VerifierCodeChanged); }
      if a.programId != config.deployment.programId { return Err(ProgramIdMismatch); }
      if a.configHash != config.deployment.configHash { return Err(ConfigHashMismatch); }
      if !verify(statement, a.proof) { return Err(StateProofRejected); }
      finalizedState := a.next;
      bridgeStateHash := nextStateHash;
      return Ok(());
    }

    method Redeem(q: RedeemCall, verify: (Digest, nat) -> bool) returns (r: Result<(), VaultError>)
      modifies this
      ensures var step := RedeemStep(config, old(State()), q);
        && State() == (if step.Ok? then step.value else old(State()))
        && r == if step.Ok? then Ok(()) else Err(step.error)
      decreases q, 1
    {
      if reentrancyLock != 1 { return Err(ReentrantCall); }
      var before := State();
      reentrancyLock := 2;
      r := PayOut(q, verify);
      if r.Ok? {
        reentrancyLock := 1;
      } else {
        Revert(before);
      }
    }

    method PayOut(q: RedeemCall, verify: (Digest, nat) -> bool) returns (r: Result<(), VaultError>)
      requires reentrancyLock == 2
      modifies this
      ensures Ran(r, RedeemStep(config, old(State()).(lock := 1), q)) && (r.Ok? ==> r.value == ())
      decreases q, 0
    {
      var claim := q.claim;
      var _ :- CheckClaim(q);
      var liability := principalLiability;
      if q.reserveBefore < liability { return Err(ReserveInsolvent); }
      spentBurnIds := spentBurnIds + {claim.burnId};
      principalLiability := liability - claim.amount;
      if totalRedeemed + claim.amount >= U256_LIMIT { return Err(ArithmeticPanic); }
      totalRedeemed := totalRedeemed + claim.amount;
      CallToken(q.push, verify);
      if !q.push.Exact(claim.amount) { return Err(TokenFailure); }
      if q.reserveAfter < principalLiability { return Err(ReserveInsolvent); }
      return Ok(());
    }

    method CheckClaim(q: RedeemCall) returns (r: Result<(), VaultError>)
      ensures r == CheckRedeem(config, State().(lock := 1), q)
    {
      var claim := q.claim;
      if bridgeStateHash == ZERO { return Err(BridgeNotActive); }
      if claim.version != PROTOCOL_VERSION { return Err(WrongProtocolVersion); }
      if claim.genesis != config.deployment.genesis { return Err(WrongGenesis); }
      if claim.asset != config.deployment.asset { return Err(WrongAsset); }
      if claim.vaultId != config.deployment.vaultId { return Err(WrongVaultId); }
      if claim.burnId != BurnId(config.deployment.genesis, claim.txid, claim.vout) { return Err(WrongBurnId); }
      if claim.burnId == ZERO || claim.amount == 0 || claim.amount > MAX_BURN || claim.recipient == 0
         || claim.recipient == config.deployment.vault {
        return Err(InvalidBurnClaim);
      }
      if q.index >= finalizedState.burnCount { return Err(BurnIndexNotFinalized); }
      if claim.burnId in spentBurnIds { return Err(BurnAlreadySpent); }
      if claim.amount > principalLiability { return Err(LiabilityInsufficient); }
      var proven := Verify(q.branch, finalizedState.burnRoot, ClaimLeaf(claim, q.index), q.index);
      return if proven then Ok(()) else Err(InvalidBurnProof);
    }

    /** Control passes to the token, whose callbacks all meet the lock: nothing changes until it returns. */
    method CallToken(t: Transfer, verify: (Digest, nat) -> bool)
      requires reentrancyLock == 2
      modifies this
      ensures State() == old(State())
      decreases t
    {
      for i := 0 to |t.callbacks|
        invariant State() == old(State())
      {
        var call := t.callbacks[i];
        match call {
          case Deposit(d) => var _ := Deposit(d, verify);
          case Advance(a) => var _ := AdvanceElementsState(a, verify);
          case Redeem(r) => var _ := Redeem(r, verify);
        }
      }
    }

    method Revert(before: VaultState)
      modifies this
      ensures State() == before
    {
      reentrancyLock, finalizedState, bridgeStateHash, nextDepositNonce :=
        before.lock, before.finalized, before.bridgeHash, before.nextNonce;
      principalLiability, totalDeposited, totalRedeemed := before.liability, before.deposited, before.redeemed;
      depositCommitmentByNonce, spentBurnIds := before.commitments, before.spent;
    }
  }

  function InitialState(): VaultState {
    VaultState(1, ZERO_STATE, ZERO, 0, 0, 0, 0, map[], {})
  }

  // ----- runs -----

  datatype Call = Deposit(d: DepositCall) | Advance(a: AdvanceCall) | Redeem(r: RedeemCall)

  function Step(c: Config, verify: (Digest, nat) -> bool, s: VaultState, call: Call): Result<VaultState, VaultError> {
    match call
    case Deposit(d) => DepositStep(c, s, d)
    case Advance(a) => AdvanceStep(c, verify, s, a)
    case Redeem(r) => RedeemStep(c, s, r)
  }

  /** The state after any sequence of calls; a reverted call leaves it as it was. */
  function Run(c: Config, verify: (Digest, nat) -> bool, calls: seq<Call>): VaultState {
    if calls == [] then InitialState()
    else
      var before := Run(c, verify, calls[..|calls| - 1]);
      var step := Step(c, verify, before, calls[|calls| - 1]);
      if step.Ok? then step.value else before
  }

  /** The calls of a run that did not revert. */
  function Accepted(c: Config, verify: (Digest, nat) -> bool, calls: seq<Call>): seq<Call> {
    if calls == [] then []
    else
      var earlier := calls[..|calls| - 1];
      var last := calls[|calls| - 1];
      Accepted(c, verify, earlier)
      + if Step(c, verify, Run(c, verify, earlier), last).Ok? then [last] else []
  }

  function Deposits(calls: seq<Call>): seq<DepositCall> {
    if calls == [] then []
    else Deposits(calls[..|calls| - 1]) + if calls[|calls| - 1].Deposit? then [calls[|calls| - 1].d] else []
  }

  function Payouts(calls: seq<Call>): seq<RedeemCall> {
    if calls == [] then []
    else Payouts(calls[..|calls| - 1]) + if calls[|calls| - 1].Redeem? then [calls[|calls| - 1].r] else []
  }

  function DepositTotal(deposits: seq<DepositCall>): nat {
    if deposits == [] then 0 else DepositTotal(deposits[..|deposits| - 1]) + deposits[|deposits| - 1].amount
  }

  function PayoutTotal(payouts: seq<RedeemCall>): nat {
    if payouts == [] then 0 else PayoutTotal(payouts[..|payouts| - 1]) + payouts[|payouts| - 1].claim.amount
  }

  function BurnTotal(burns: seq<Burn>): nat {
    if burns == [] then 0 else BurnTotal(burns[..|burns| - 1]) + burns[|burns| - 1].usdtMicro
  }

  /** Nonces are gap-free and each slot holds the commitment of its own deposit. */
  ghost predicate NoncesExact(c: Config, s: VaultState, deposits: seq<DepositCall>) {
    && s.nextNonce == |deposits|
    && (forall n: u64 :: n in s.commitments <==> n < |deposits|)
    && (forall n: u64 :: n < |deposits| ==> s.commitments[n] == CommitmentOf(c, n, deposits[n]))
  }

  /** The spent IDs are the IDs paid, each paid once. */
  ghost predicate SpentExact(spent: set<Digest>, payouts: seq<RedeemCall>) {
    && (forall i :: 0 <= i < |payouts| ==> payouts[i].claim.burnId in spent)
    && (forall id :: id in spent ==> exists i :: 0 <= i < |payouts| && payouts[i].claim.burnId == id)
    && (forall i, j :: 0 <= i < j < |payouts| ==> payouts[i].claim.burnId != payouts[j].claim.burnId)
  }

  /** The accounting every run keeps, whatever the verifier accepts. */
  ghost predicate Books(c: Config, s: VaultState, deposits: seq<DepositCall>, payouts: seq<RedeemCall>) {
    && s.lock == 1
    && s.liability + s.redeemed == s.deposited
    && s.liability <= LIABILITY_CAP
    && s.deposited == DepositTotal(deposits)
    && s.redeemed == PayoutTotal(payouts)
    && NoncesExact(c, s, deposits)
    && SpentExact(s.spent, payouts)
  }

  lemma {:induction false} SpentGrows(spent: set<Digest>, payouts: seq<RedeemCall>, r: RedeemCall)
    requires SpentExact(spent, payouts) && r.claim.burnId !in spent
    ensures SpentExact(spent + {r.claim.burnId}, payouts + [r])
  {
    var longer := payouts + [r];
    forall id | id in spent + {r.claim.burnId}
      ensures exists i :: 0 <= i < |longer| && longer[i].claim.burnId == id
    {
      if id in spent {
        var i :| 0 <= i < |payouts| && payouts[i].claim.burnId == id;
        assert longer[i].claim.burnId == id;
      } else {
        assert longer[|payouts|].claim.burnId == id;
      }
    }
  }

  lemma {:induction false} DepositKeepsBooks(c: Config, s: VaultState, d: DepositCall,
                                             deposits: seq<DepositCall>, payouts: seq<RedeemCall>)
    requires Books(c, s, deposits, payouts)
    requires DepositStep(c, s, d).Ok?
    ensures Books(c, DepositStep(c, s, d).value, deposits + [d], payouts)
  {
    DepositTotalGrows(deposits, d);
    NoncesGrow(c, s, DepositStep(c, s, d).value, deposits, d);
  }

  lemma {:induction false} DepositTotalGrows(deposits: seq<DepositCall>, d: DepositCall)
    ensures DepositTotal(deposits + [d]) == DepositTotal(deposits) + d.amount
  {
    assert (deposits + [d])[..|deposits|] == deposits;
  }

  lemma {:induction false} NoncesGrow(c: Config, s: VaultState, after: VaultState, deposits: seq<DepositCall>, d: DepositCall)
    requires NoncesExact(c, s, deposits) && s.nextNonce < U64_MAX && after.nextNonce == s.nextNonce + 1
    requires after.commitments == s.commitments[s.nextNonce := CommitmentOf(c, s.nextNonce, d)]
    ensures NoncesExact(c, after, deposits + [d])
  {
  }

  lemma {:induction false} RedeemKeepsBooks(c: Config, s: VaultState, r: RedeemCall,
                                            deposits: seq<DepositCall>, payouts: seq<RedeemCall>)
    requires Books(c, s, deposits, payouts)
    requires RedeemStep(c, s, r).Ok?
    ensures Books(c, RedeemStep(c, s, r).value, deposits, payouts + [r])
  {
    PaidTotalGrows(payouts, r);
    SpentGrows(s.spent, payouts, r);
    SameDeposits(c, s, RedeemStep(c, s, r).value, deposits);
  }

  lemma {:induction false} PaidTotalGrows(payouts: seq<RedeemCall>, r: RedeemCall)
    ensures PayoutTotal(payouts + [r]) == PayoutTotal(payouts) + r.claim.amount
  {
    assert (payouts + [r])[..|payouts|] == payouts;
  }

  /** A redemption does not touch what deposits left. */
  lemma {:induction false} SameDeposits(c: Config, s: VaultState, after: VaultState, deposits: seq<DepositCall>)
    requires NoncesExact(c, s, deposits) && after.nextNonce == s.nextNonce && after.commitments == s.commitments
    ensures NoncesExact(c, after, deposits)
  {
  }

  lemma {:induction false} CallKeepsBooks(c: Config, verify: (Digest, nat) -> bool, s: VaultState, call: Call,
                                          accepted: seq<Call>)
    requires Books(c, s, Deposits(accepted), Payouts(accepted))
    ensures Step(c, verify, s, call).Ok? ==>
              Books(c, Step(c, verify, s, call).value, Deposits(accepted + [call]), Payouts(accepted + [call]))
    ensures accepted + [] == accepted
  {
    if Step(c, verify, s, call).Ok? {
      var longer := accepted + [call];
      assert longer[..|longer| - 1] == accepted;
      match call {
        case Deposit(d) =>
          DepositKeepsBooks(c, s, d, Deposits(accepted), Payouts(accepted));
          assert Payouts(longer) == Payouts(accepted);
        case Advance(a) =>
          assert Deposits(longer) == Deposits(accepted) && Payouts(longer) == Payouts(accepted);
        case Redeem(r) =>
          RedeemKeepsBooks(c, s, r, Deposits(accepted), Payouts(accepted));
          assert Deposits(longer) == Deposits(accepted);
      }
    }
  }

  /** Over every run: liability is deposited minus redeemed and within the cap, nonces are
      gap-free with the right commitments, and no burn ID is paid twice. */
  lemma {:induction false} RunKeepsBooks(c: Config, verify: (Digest, nat) -> bool, calls: seq<Call>)
    ensures var accepted := Accepted(c, verify, calls);
      Books(c, Run(c, verify, calls), Deposits(accepted), Payouts(accepted))
  {
    if calls != [] {
      var earlier := calls[..|calls| - 1];
      RunKeepsBooks(c, verify, earlier);
      CallKeepsBooks(c, verify, Run(c, verify, earlier), calls[|calls| - 1], Accepted(c, verify, earlier));
    }
  }

  // ----- end to end: the vault behind a sound verifier -----

  ghost predicate Proven(verify: (Digest, nat) -> bool, statement: Digest, proof: nat) {
    verify(statement, proof)
  }

  /** Every statement the verifier accepts was produced by an accepting run of the guest. */
  ghost predicate SoundVerifier(m: Manifest, verify: (Digest, nat) -> bool) {
    forall statement, proof {:trigger Proven(verify, statement, proof)} :: Proven(verify, statement, proof) ==>
      exists claim :: Guest(m, claim, true).Ok? && OutputOf(m, claim).statement == statement
  }

  /** The payout has the amount, recipient and ID of the burn at its index. */
  ghost predicate PaysListedBurn(genesis: Digest, burns: seq<Burn>, r: RedeemCall) {
    && r.index < |burns|
    && r.claim.amount == burns[r.index].usdtMicro
    && r.claim.recipient == burns[r.index].destination
    && r.claim.burnId == BurnId(genesis, burns[r.index].txid, burns[r.index].vout)
  }

  ghost predicate AllPayListedBurns(genesis: Digest, burns: seq<Burn>, accepted: seq<Call>) {
    forall call :: call in accepted && call.Redeem? ==> PaysListedBurn(genesis, burns, call.r)
  }

  /** The Solidity and Rust successor rules accept the same states. */
  lemma {:induction false} ValidatorsAgree(c: Config, bridgeHash: Digest, s: BridgeState, next: BridgeState)
    requires ValidState(s)
    ensures CheckNextState(c, bridgeHash, s, next).Ok?
       <==> ValidSuccessor(s, next) && (bridgeHash == ZERO ==> next.chainwork >= c.minimumChainwork)
  {
  }

  lemma {:induction false} AdvanceCommits(c: Config, m: Manifest, verify: (Digest, nat) -> bool,
                                          s: VaultState, a: AdvanceCall, burns: seq<Burn>) returns (longer: seq<Burn>)
    requires SoundVerifier(m, verify) && m.deployment == c.deployment
    requires Commits(m, s.finalized, burns)
    requires AdvanceStep(c, verify, s, a).Ok?
    ensures burns <= longer && Commits(m, a.next, longer)
  {
    var statement := StatementFor(c.deployment, s.bridgeHash, s.finalized, a.next);
    assert Proven(verify, statement, a.proof);
    var claim :| Guest(m, claim, true).Ok? && OutputOf(m, claim).statement == statement;
    AcceptedExtends(m, claim, burns);
    longer := burns + BurnsOf(claim.appends);
  }

  lemma {:induction false} RedeemPaysListedBurn(c: Config, m: Manifest, s: VaultState, r: RedeemCall, burns: seq<Burn>)
    requires m.deployment == c.deployment
    requires Commits(m, s.finalized, burns) && (s.finalized == ZERO_STATE ==> s.bridgeHash == ZERO)
    requires RedeemStep(c, s, r).Ok?
    ensures PaysListedBurn(c.deployment.genesis, burns, r)
  {
    CommittedEntry(m, s.finalized, burns, ClaimLeaf(r.claim, r.index), r.index, r.branch);
  }

  /** What the state commits, and that the bridge hash tells whether it commits anything. */
  ghost predicate Backed(m: Manifest, s: VaultState, burns: seq<Burn>) {
    && Commits(m, s.finalized, burns)
    && (s.finalized == ZERO_STATE <==> s.bridgeHash == ZERO)
  }

  // ----- exactly which redemptions are paid -----

  /** The claim for a burn of this deployment. */
  function ClaimOf(d: Deployment, b: Burn): BurnClaim {
    BurnClaim(PROTOCOL_VERSION, d.genesis, d.asset, d.vaultId, b.txid, b.vout, BurnId(d.genesis, b.txid, b.vout),
              b.usdtMicro, b.destination)
  }

  /** What a redemption still needs once its claim and branch are right. */
  predicate Affordable(s: VaultState, r: RedeemCall) {
    && r.claim.burnId !in s.spent
    && r.claim.amount <= s.liability <= r.reserveBefore
    && r.push.Exact(r.claim.amount)
    && r.reserveAfter >= s.liability - r.claim.amount
  }

  lemma {:induction false} ListedClaimPasses(c: Config, m: Manifest, s: VaultState, r: RedeemCall, burns: seq<Burn>)
    requires m.deployment == c.deployment && Backed(m, s, burns) && s.liability + s.redeemed == s.deposited && s.lock == 1
    requires r.index < |burns| && r.claim == ClaimOf(c.deployment, burns[r.index])
    requires r.branch == PathSiblings(Leaves(c.deployment.genesis, burns), 0, r.index, DEPTH)
    ensures RedeemStep(c, s, r).Ok? <==> burns[r.index].destination != c.deployment.vault && Affordable(s, r)
  {
    var g := c.deployment.genesis;
    var burn := burns[r.index];
    assert AllowedBurn(m, burn);
    LeafAt(g, 0, burns, r.index);
    BranchIffEntry(Leaves(g, burns), ClaimLeaf(r.claim, r.index), r.index, r.branch);
    assert s.finalized != ZERO_STATE;
  }

  lemma {:induction false} PaidClaimIsListed(c: Config, m: Manifest, s: VaultState, r: RedeemCall, burns: seq<Burn>)
    requires m.deployment == c.deployment && Backed(m, s, burns)
    requires RedeemStep(c, s, r).Ok?
    ensures r.index < |burns| && r.claim == ClaimOf(c.deployment, burns[r.index])
    ensures r.branch == PathSiblings(Leaves(c.deployment.genesis, burns), 0, r.index, DEPTH)
  {
    var g := c.deployment.genesis;
    RedeemPaysListedBurn(c, m, s, r, burns);
    BranchIffEntry(Leaves(g, burns), ClaimLeaf(r.claim, r.index), r.index, r.branch);
  }

  /** It claims the committed burn at its index with the true branch, the burn's recipient is not the vault
      itself, and it is affordable. */
  ghost predicate Redeemable(c: Config, s: VaultState, r: RedeemCall, burns: seq<Burn>)
    requires |burns| <= U64_MAX
  {
    && r.index < |burns| && r.claim == ClaimOf(c.deployment, burns[r.index])
    && r.branch == PathSiblings(Leaves(c.deployment.genesis, burns), 0, r.index, DEPTH)
    && burns[r.index].destination != c.deployment.vault
    && Affordable(s, r)
  }

  lemma {:induction false} RedeemedIff(c: Config, m: Manifest, s: VaultState, r: RedeemCall, burns: seq<Burn>)
    requires m.deployment == c.deployment && Backed(m, s, burns) && s.liability + s.redeemed == s.deposited && s.lock == 1
    ensures RedeemStep(c, s, r).Ok? <==> Redeemable(c, s, r, burns)
  {
    if RedeemStep(c, s, r).Ok? {
      PaidClaimIsListed(c, m, s, r, burns);
      ListedClaimPasses(c, m, s, r, burns);
    } else if Redeemable(c, s, r, burns) {
      ListedClaimPasses(c, m, s, r, burns);
    }
  }

  /** The guest commits burns that name the vault as their recipient, which no redemption can ever pay. */
  lemma {:induction false} BurnToVault(c: Config, m: Manifest) returns (burn: Burn)
    requires m.deployment == c.deployment && c.deployment.vault != 0
    requires c.deployment.genesis != ZERO && c.deployment.asset != ZERO && c.deployment.vaultId != ZERO
    ensures AllowedBurn(m, burn)
    ensures forall s: VaultState, r: RedeemCall, burns: seq<Burn> :: |burns| <= U64_MAX && r.index < |burns| && burns[r.index] == burn ==>
      !Redeemable(c, s, r, burns)
  {
    burn := Burn(c.deployment.vaultId, c.deployment.asset, UNITS_PER_MICRO, 1, Raw(1), 0, c.deployment.vault);
  }

  lemma {:induction false} CallPaysListedBurns(c: Config, m: Manifest, verify: (Digest, nat) -> bool, s: VaultState,
                                               call: Call, accepted: seq<Call>, burns: seq<Burn>)
    returns (longer: seq<Burn>)
    requires SoundVerifier(m, verify) && m.deployment == c.deployment
    requires Backed(m, s, burns) && AllPayListedBurns(c.deployment.genesis, burns, accepted)
    ensures var step := Step(c, verify, s, call);
      && Backed(m, if step.Ok? then step.value else s, longer)
      && AllPayListedBurns(c.deployment.genesis, longer, accepted + if step.Ok? then [call] else [])
  {
    longer := burns;
    if Step(c, verify, s, call).Ok? {
      match call {
        case Deposit(d) =>
        case Advance(a) => longer := AdvanceCommits(c, m, verify, s, a, burns);
        case Redeem(r) => RedeemPaysListedBurn(c, m, s, r, burns);
      }
    }
  }

  /** A run's state commits the burns, and all its payouts pay them. */
  ghost predicate RunBacked(c: Config, m: Manifest, verify: (Digest, nat) -> bool, calls: seq<Call>, burns: seq<Burn>) {
    && Backed(m, Run(c, verify, calls), burns)
    && AllPayListedBurns(c.deployment.genesis, burns, Accepted(c, verify, calls))
  }

  lemma {:induction false} NothingBacked(c: Config, m: Manifest, verify: (Digest, nat) -> bool, calls: seq<Call>)
    returns (burns: seq<Burn>)
    requires calls == []
    ensures RunBacked(c, m, verify, calls, burns)
  {
    burns := CommittedByZero(m);
  }

  lemma {:induction false} RunSnoc(c: Config, verify: (Digest, nat) -> bool, calls: seq<Call>)
    requires calls != []
    ensures var earlier, last := calls[..|calls| - 1], calls[|calls| - 1];
      var step := Step(c, verify, Run(c, verify, earlier), last);
      && Run(c, verify, calls) == (if step.Ok? then step.value else Run(c, verify, earlier))
      && Accepted(c, verify, calls) == Accepted(c, verify, earlier) + if step.Ok? then [last] else []
  {
  }

  /** Over every run behind a sound verifier there is one list of burns, committed by the finalized
      state, and every payout pays an entry of it exactly. */
  lemma {:induction false} RunPaysListedBurns(c: Config, m: Manifest, verify: (Digest, nat) -> bool, calls: seq<Call>)
    returns (burns: seq<Burn>)
    requires SoundVerifier(m, verify) && m.deployment == c.deployment
    ensures RunBacked(c, m, verify, calls, burns)
  {
    if calls == [] {
      burns := NothingBacked(c, m, verify, calls);
    } else {
      var earlier := calls[..|calls| - 1];
      burns := RunPaysListedBurns(c, m, verify, earlier);
      assert Backed(m, Run(c, verify, earlier), burns);
      burns := CallPaysListedBurns(c, m, verify, Run(c, verify, earlier), calls[|calls| - 1],
                                   Accepted(c, verify, earlier), burns);
      assert RunBacked(c, m, verify, calls, burns) by {
        RunSnoc(c, verify, calls);
      }
    }
  }

  /** In every state that a run behind a sound verifier reaches, the committed list of burns decides exactly
      which redemptions are paid. */
  lemma {:induction false} RunRedeemsExactly(c: Config, m: Manifest, verify: (Digest, nat) -> bool, calls: seq<Call>)
    returns (burns: seq<Burn>)
    requires SoundVerifier(m, verify) && m.deployment == c.deployment
    ensures RunBacked(c, m, verify, calls, burns) && |burns| <= U64_MAX
    ensures forall r :: RedeemStep(c, Run(c, verify, calls), r).Ok? <==> Redeemable(c, Run(c, verify, calls), r, burns)
  {
    burns := RunPaysListedBurns(c, m, verify, calls);
    RunKeepsBooks(c, verify, calls);
    var s := Run(c, verify, calls);
    forall r
      ensures RedeemStep(c, s, r).Ok? <==> Redeemable(c, s, r, burns)
    {
      RedeemedIff(c, m, s, r, burns);
    }
  }

  // ----- payouts never exceed the burns -----

  /** The value of the burns at the given positions. */
  ghost function PaidValue(burns: seq<Burn>, paid: set<nat>): nat {
    if burns == [] then 0
    else PaidValue(burns[..|burns| - 1], paid) + if |burns| - 1 in paid then burns[|burns| - 1].usdtMicro else 0
  }

  lemma {:induction false} PaidValueGrows(burns: seq<Burn>, paid: set<nat>, i: nat)
    requires i !in paid
    ensures PaidValue(burns, paid + {i}) == PaidValue(burns, paid) + if i < |burns| then burns[i].usdtMicro else 0
  {
    if burns != [] {
      PaidValueGrows(burns[..|burns| - 1], paid, i);
    }
  }

  lemma {:induction false} PaidValueBounded(burns: seq<Burn>, paid: set<nat>)
    ensures PaidValue(burns, paid) <= BurnTotal(burns)
  {
    if burns != [] {
      PaidValueBounded(burns[..|burns| - 1], paid);
    }
  }

  /** Distinct burn IDs were paid at distinct positions, so the payouts sum to the burns there. */
  lemma {:induction false} PayoutsAreDistinctBurns(genesis: Digest, burns: seq<Burn>, payouts: seq<RedeemCall>)
    returns (paid: set<nat>)
    requires forall i :: 0 <= i < |payouts| ==> PaysListedBurn(genesis, burns, payouts[i])
    requires forall i, j :: 0 <= i < j < |payouts| ==> payouts[i].claim.burnId != payouts[j].claim.burnId
    ensures PaidAt(payouts, paid)
    ensures PayoutTotal(payouts) == PaidValue(burns, paid)
  {
    paid := {};
    if payouts == [] {
      NothingPaid(burns);
    } else {
      var n := |payouts| - 1;
      var init, last := payouts[..n], payouts[n].index;
      assert forall k :: 0 <= k < n ==> init[k] == payouts[k];
      var earlier := PayoutsAreDistinctBurns(genesis, burns, init);
      assert PaidAt(init, earlier);
      PaidAtNext(genesis, burns, payouts, earlier);
      PaidValueGrows(burns, earlier, last);
      paid := earlier + {last};
    }
  }

  ghost predicate PaidAt(payouts: seq<RedeemCall>, paid: set<nat>) {
    forall i :: i in paid ==> exists k :: 0 <= k < |payouts| && payouts[k].index == i
  }

  lemma {:induction false} PaidAtNext(genesis: Digest, burns: seq<Burn>, payouts: seq<RedeemCall>, earlier: set<nat>)
    requires payouts != [] && PaidAt(payouts[..|payouts| - 1], earlier)
    requires forall i :: 0 <= i < |payouts| ==> PaysListedBurn(genesis, burns, payouts[i])
    requires forall i, j :: 0 <= i < j < |payouts| ==> payouts[i].claim.burnId != payouts[j].claim.burnId
    ensures payouts[|payouts| - 1].index !in earlier
    ensures PaidAt(payouts, earlier + {payouts[|payouts| - 1].index})
  {
    var n := |payouts| - 1;
    var init, last := payouts[..n], payouts[n].index;
    forall k | 0 <= k < n
      ensures init[k].index != last
    {
      assert payouts[k].claim.burnId != payouts[n].claim.burnId;
    }
    forall i | i in earlier + {last}
      ensures exists k :: 0 <= k < |payouts| && payouts[k].index == i
    {
      if i != last {
        var k :| 0 <= k < n && init[k].index == i;
        assert payouts[k].index == i;
      }
    }
  }

  lemma {:induction false} PayoutsAreAccepted(accepted: seq<Call>)
    ensures forall i :: 0 <= i < |Payouts(accepted)| ==> Redeem(Payouts(accepted)[i]) in accepted
  {
    if accepted != [] {
      PayoutsAreAccepted(accepted[..|accepted| - 1]);
    }
  }

  lemma {:induction false} NothingPaid(burns: seq<Burn>)
    ensures PaidValue(burns, {}) == 0
  {
    if burns != [] {
      NothingPaid(burns[..|burns| - 1]);
    }
  }

  /** Behind a sound verifier the vault never pays out more than was burned. */
  lemma {:induction false} RedeemedAtMostBurned(c: Config, m: Manifest, verify: (Digest, nat) -> bool, calls: seq<Call>)
    returns (burns: seq<Burn>)
    requires SoundVerifier(m, verify) && m.deployment == c.deployment
    ensures Backed(m, Run(c, verify, calls), burns)
    ensures Run(c, verify, calls).redeemed <= BurnTotal(burns)
  {
    burns := RunPaysListedBurns(c, m, verify, calls);
    RunKeepsBooks(c, verify, calls);
    PayoutsAreAccepted(Accepted(c, verify, calls));
    var paid := PayoutsAreDistinctBurns(c.deployment.genesis, burns, Payouts(Accepted(c, verify, calls)));
    PaidValueBounded(burns, paid);
  }

  // ----- exactly which deposits are taken -----

  /** The amounts and lengths of the contract, room under the cap, a nonce left, and a token that moved
      exactly the amount from the sender to the vault and leaves the vault solvent. */
  predicate Depositable(s: VaultState, d: DepositCall) {
    && 1 <= d.amount <= 20_000_000_000_000 && 1 <= |d.script| <= 128
    && s.liability + d.amount <= 1_000_000_000_000_000 && s.nextNonce < U64_MAX
    && d.pull.succeeded
    && d.pull.senderBefore - d.pull.senderAfter == d.amount == d.pull.receiverAfter - d.pull.receiverBefore
    && d.reserveAfter >= s.liability + d.amount
  }

  /** What a taken deposit changes: the nonce, the two totals, and the commitment at the old nonce. */
  ghost predicate Deposited(c: Config, s: VaultState, d: DepositCall, after: VaultState) {
    && after.nextNonce == s.nextNonce + 1
    && after.liability == s.liability + d.amount && after.deposited == s.deposited + d.amount
    && after.commitments == s.commitments[s.nextNonce :=
         DepositId(c.deployment.chainId, c.deployment.vault, c.token, s.nextNonce, d.sender, d.amount, d.script, d.salt)]
    && after.lock == s.lock && after.finalized == s.finalized && after.bridgeHash == s.bridgeHash
    && after.redeemed == s.redeemed && after.spent == s.spent
  }

  lemma {:induction false} DepositedIff(c: Config, s: VaultState, d: DepositCall)
    requires s.lock == 1 && s.deposited + U64_MAX < U256_LIMIT
    ensures DepositStep(c, s, d).Ok? <==> Depositable(s, d)
    ensures DepositStep(c, s, d).Ok? ==> Deposited(c, s, d, DepositStep(c, s, d).value)
  {
  }

  lemma {:induction false} DepositTotalBound(deposits: seq<DepositCall>)
    ensures DepositTotal(deposits) <= |deposits| * U64_MAX
  {
    if deposits != [] {
      var n := |deposits| - 1;
      DepositTotalBound(deposits[..n]);
      Distribute(n, 1, U64_MAX);
    }
  }

  lemma {:induction false} NeverOverflows(s: VaultState, deposits: seq<DepositCall>)
    requires s.deposited == DepositTotal(deposits) && s.nextNonce == |deposits|
    ensures s.deposited + U64_MAX < U256_LIMIT
  {
    DepositTotalBound(deposits);
    MulLe(|deposits|, U64_MAX, U64_MAX);
  }

  /** In every state that any sequence of calls reaches, whatever the verifier accepts, a deposit is taken
      exactly under these conditions, and then changes exactly this. */
  lemma {:induction false} RunDepositsExactly(c: Config, verify: (Digest, nat) -> bool, calls: seq<Call>, d: DepositCall)
    ensures var s := Run(c, verify, calls);
      && (DepositStep(c, s, d).Ok? <==> Depositable(s, d))
      && (DepositStep(c, s, d).Ok? ==> Deposited(c, s, d, DepositStep(c, s, d).value))
  {
    var s := Run(c, verify, calls);
    RunKeepsBooks(c, verify, calls);
    NeverOverflows(s, Deposits(Accepted(c, verify, calls)));
    DepositedIff(c, s, d);
  }

  // ----- what the token really moved -----

  /** What the vault's balance gained in the deposits, and lost in the payouts. */
  function Received(deposits: seq<DepositCall>): int {
    if deposits == [] then 0
    else
      var pull := deposits[|deposits| - 1].pull;
      Received(deposits[..|deposits| - 1]) + (pull.receiverAfter - pull.receiverBefore)
  }

  function Sent(payouts: seq<RedeemCall>): int {
    if payouts == [] then 0
    else
      var push := payouts[|payouts| - 1].push;
      Sent(payouts[..|payouts| - 1]) + (push.senderBefore - push.senderAfter)
  }

  lemma {:induction false} ReceivedSnoc(deposits: seq<DepositCall>, d: DepositCall)
    ensures Received(deposits + [d]) == Received(deposits) + (d.pull.receiverAfter - d.pull.receiverBefore)
  {
    assert (deposits + [d])[..|deposits|] == deposits;
  }

  lemma {:induction false} SentSnoc(payouts: seq<RedeemCall>, r: RedeemCall)
    ensures Sent(payouts + [r]) == Sent(payouts) + (r.push.senderBefore - r.push.senderAfter)
  {
    assert (payouts + [r])[..|payouts|] == payouts;
  }

  /** The books match the token: what was received and sent, as far as the accepted calls observed it. */
  ghost predicate Matches(s: VaultState, accepted: seq<Call>) {
    s.deposited == Received(Deposits(accepted)) && s.redeemed == Sent(Payouts(accepted))
  }

  lemma {:induction false} CallKeepsMatch(c: Config, verify: (Digest, nat) -> bool, s: VaultState, call: Call, accepted: seq<Call>)
    requires Matches(s, accepted) && Step(c, verify, s, call).Ok?
    ensures Matches(Step(c, verify, s, call).value, accepted + [call])
  {
    MovedByStep(c, verify, s, call);
    MovesMatch(s, call, Step(c, verify, s, call).value, accepted);
  }

  function Gained(call: Call): int {
    if call.Deposit? then call.d.pull.receiverAfter - call.d.pull.receiverBefore else 0
  }

  function Lost(call: Call): int {
    if call.Redeem? then call.r.push.senderBefore - call.r.push.senderAfter else 0
  }

  lemma {:induction false} MovesMatch(s: VaultState, call: Call, after: VaultState, accepted: seq<Call>)
    requires Matches(s, accepted)
    requires after.deposited == s.deposited + Gained(call) && after.redeemed == s.redeemed + Lost(call)
    ensures Matches(after, accepted + [call])
  {
    ReceivedByCall(accepted, call);
    SentByCall(accepted, call);
  }

  lemma {:induction false} ReceivedByCall(accepted: seq<Call>, call: Call)
    ensures Received(Deposits(accepted + [call])) == Received(Deposits(accepted)) + Gained(call)
  {
    CallSnoc(accepted, call);
    if call.Deposit? {
      ReceivedSnoc(Deposits(accepted), call.d);
    }
  }

  lemma {:induction false} SentByCall(accepted: seq<Call>, call: Call)
    ensures Sent(Payouts(accepted + [call])) == Sent(Payouts(accepted)) + Lost(call)
  {
    CallSnoc(accepted, call);
    if call.Redeem? {
      SentSnoc(Payouts(accepted), call.r);
    }
  }

  lemma {:induction false} CallSnoc(accepted: seq<Call>, call: Call)
    ensures Deposits(accepted + [call]) == if call.Deposit? then Deposits(accepted) + [call.d] else Deposits(accepted)
    ensures Payouts(accepted + [call]) == if call.Redeem? then Payouts(accepted) + [call.r] else Payouts(accepted)
  {
    assert (accepted + [call])[..|accepted|] == accepted;
  }

  /** An accepted call moves a total by what the token moved. */
  lemma {:induction false} MovedByStep(c: Config, verify: (Digest, nat) -> bool, s: VaultState, call: Call)
    requires Step(c, verify, s, call).Ok?
    ensures var after := Step(c, verify, s, call).value;
      && after.deposited == s.deposited + Gained(call) && after.redeemed == s.redeemed + Lost(call)
  {
  }

  /** Over every sequence of calls the deposited total is what the vault's balance gained in the deposits,
      and the redeemed total what it lost in the payouts. */
  lemma {:induction false} RunMatchesToken(c: Config, verify: (Digest, nat) -> bool, calls: seq<Call>)
    ensures var s, accepted := Run(c, verify, calls), Accepted(c, verify, calls);
      && s.deposited == Received(Deposits(accepted)) && s.redeemed == Sent(Payouts(accepted))
      && s.liability == Received(Deposits(accepted)) - Sent(Payouts(accepted))
  {
    RunMatches(c, verify, calls);
    RunKeepsBooks(c, verify, calls);
  }

  lemma {:induction false} RunMatches(c: Config, verify: (Digest, nat) -> bool, calls: seq<Call>)
    ensures Matches(Run(c, verify, calls), Accepted(c, verify, calls))
  {
    if calls != [] {
      var earlier, last := calls[..|calls| - 1], calls[|calls| - 1];
      RunMatches(c, verify, earlier);
      RunSnoc(c, verify, calls);
      if Step(c, verify, Run(c, verify, earlier), last).Ok? {
        CallKeepsMatch(c, verify, Run(c, verify, earlier), last, Accepted(c, verify, earlier));
      } else {
        assert Accepted(c, verify, earlier) + [] == Accepted(c, verify, earlier);
      }
    }
  }

  // ----- exactly which states are adopted -----

  /** The next state follows, carries enough work on activation, and the configured verifier, unchanged in
      code and identity, accepts the statement that binds deployment, both states and the hash chain. */
  ghost predicate Adoptable(c: Config, verify: (Digest, nat) -> bool, s: VaultState, a: AdvanceCall) {
    && ValidSuccessor(s.finalized, a.next) && (s.bridgeHash == ZERO ==> a.next.chainwork >= c.minimumChainwork)
    && a.codehash == c.verifierCodehash && a.programId == c.deployment.programId && a.configHash == c.deployment.configHash
    && verify(Statement(c.deployment, s.bridgeHash, StateContents(s.finalized), StateLink(s.bridgeHash, StateContents(a.next)),
                        StateContents(a.next)), a.proof)
  }

  lemma {:induction false} AdoptedIff(c: Config, verify: (Digest, nat) -> bool, s: VaultState, a: AdvanceCall)
    requires s.lock == 1 && ValidState(s.finalized)
    ensures AdvanceStep(c, verify, s, a).Ok? <==> Adoptable(c, verify, s, a)
    ensures AdvanceStep(c, verify, s, a).Ok? ==>
      AdvanceStep(c, verify, s, a).value == s.(finalized := a.next, bridgeHash := StateLink(s.bridgeHash, StateContents(a.next)))
  {
    ValidatorsAgree(c, s.bridgeHash, s.finalized, a.next);
  }

  lemma {:induction false} RunStaysValid(c: Config, verify: (Digest, nat) -> bool, calls: seq<Call>)
    ensures ValidState(Run(c, verify, calls).finalized) && Run(c, verify, calls).lock == 1
  {
    if calls != [] {
      var earlier, last := calls[..|calls| - 1], calls[|calls| - 1];
      RunStaysValid(c, verify, earlier);
      RunSnoc(c, verify, calls);
      if last.Advance? {
        AdoptedIff(c, verify, Run(c, verify, earlier), last.a);
      }
    }
  }

  /** In every state that any sequence of calls reaches, an advance is taken exactly under these conditions,
      and then adopts the state and chains its hash. */
  lemma {:induction false} RunAdvancesExactly(c: Config, verify: (Digest, nat) -> bool, calls: seq<Call>, a: AdvanceCall)
    ensures var s := Run(c, verify, calls);
      && (AdvanceStep(c, verify, s, a).Ok? <==> Adoptable(c, verify, s, a))
      && (AdvanceStep(c, verify, s, a).Ok? ==>
            AdvanceStep(c, verify, s, a).value
            == s.(finalized := a.next, bridgeHash := StateLink(s.bridgeHash, StateContents(a.next))))
  {
    RunStaysValid(c, verify, calls);
    AdoptedIff(c, verify, Run(c, verify, calls), a);
  }
}
