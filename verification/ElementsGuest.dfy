/**
 * The outbound guest: `build_elements_state_journal` (crates/usdd-proof-core/src/guest.rs) and the
 * bridge-state rules it uses (crates/usdd-core/src/types.rs). The guest sees only roots and
 * branches; the main results show that it nevertheless appends to one plain list of burns.
 */
module ElementsGuest {
  import opened Machine
  import opened Digests
  import opened BurnTree

  const PROTOCOL_VERSION: u32 := 1
  const MAX_APPENDS: nat := 64
  const MAX_BURN_USDD_BASE: nat := 20_000_000 * 100_000_000

  datatype GuestError =
    | InvalidManifest
    | ManifestMismatch
    | InvalidElementsStateTransition
    | ActivationChainworkNotReached
    | InvalidBurn
    | BurnTargetsWrongAssetOrVault
    | BurnAccumulatorMismatch
    | VerifierRejected

  /** `validated` is the outcome of `ProtocolManifest::validate`, whose rules are not modelled. */
  datatype Manifest = Manifest(validated: bool, id: Digest, deployment: Deployment, minimumChainwork: u256)

  datatype Burn = Burn(
    vaultId: Digest, asset: Digest, usddBase: u64, usdtMicro: u64,
    txid: Digest, vout: u32, destination: Address)
  {
    predicate Valid() {
      && vaultId != ZERO && destination != 0
      && asset != ZERO && txid != ZERO && usddBase != 0
      && usddBase % UNITS_PER_MICRO == 0 && usddBase / UNITS_PER_MICRO == usdtMicro
      && usddBase <= MAX_BURN_USDD_BASE
    }

    /** `solidity_claim(genesis).burn_leaf(index)`; None when the claim is invalid. */
    function Leaf(genesis: Digest, index: u64): Option<Digest> {
      if genesis == ZERO || asset == ZERO || vaultId == ZERO || txid == ZERO || usdtMicro == 0 || destination == 0
      then None
      else Some(LeafOf(genesis, index))
    }

    function LeafOf(genesis: Digest, index: u64): Digest {
      BurnLeaf(PROTOCOL_VERSION, genesis, asset, vaultId, BurnId(genesis, txid, vout), index, usdtMicro, destination)
    }
  }

  datatype BurnAppend = BurnAppend(burn: Burn, branch: Branch)
  type Branch = s: seq<Digest> | |s| == DEPTH witness seq(DEPTH, i => ZERO)

  datatype Claim = Claim(
    manifestId: Digest, priorHash: Digest, prior: BridgeState, next: BridgeState, appends: seq<BurnAppend>)

  datatype Output = Output(priorHash: Digest, nextHash: Digest, statement: Digest, prior: BridgeState, next: BridgeState)

  // ----- bridge-state rules -----

  const ZERO_STATE: BridgeState := BridgeState(0, 0, ZERO, ZERO, ZERO, ZERO, 0, 0, 0, 0)

  predicate ValidState(s: BridgeState) {
    s == ZERO_STATE ||
    (&& s.elementsTipHash != ZERO && s.consensusDigest != ZERO && s.burnRoot != ZERO
     && s.bitcoinBlockHash != ZERO && s.chainwork != 0
     && (s.burnCount == 0 ==> s.burnRoot == EmptyAt(DEPTH)))
  }

  predicate ValidSuccessor(s: BridgeState, next: BridgeState) {
    && ValidState(s) && ValidState(next) && next != ZERO_STATE
    && s.sequence + 1 <= U64_MAX && next.sequence == s.sequence + 1
    && next.burnCount >= s.burnCount
    && next.burnCount - s.burnCount <= MAX_APPENDS
    && (s.sequence != 0 && next.burnCount == s.burnCount ==> next.burnRoot == s.burnRoot)
    && (s.sequence != 0 ==> next.consensusDigest != s.consensusDigest)
    && next.bitcoinHeight > s.bitcoinHeight
    && next.elementsHeight > s.elementsHeight
    && next.medianTimePast >= s.medianTimePast
    && next.chainwork > s.chainwork
  }

  // ----- the transition -----

  /** Every check made before the burns are appended. */
  function Precheck(m: Manifest, claim: Claim): Result<(), GuestError> {
    if !m.validated then Err(InvalidManifest)
    else if claim.manifestId != m.id then Err(ManifestMismatch)
    else if (claim.prior == ZERO_STATE) != (claim.priorHash == ZERO) then Err(InvalidElementsStateTransition)
    else if !ValidSuccessor(claim.prior, claim.next) then Err(InvalidElementsStateTransition)
    else if claim.priorHash == ZERO && claim.next.chainwork < m.minimumChainwork then Err(ActivationChainworkNotReached)
    else if claim.prior.burnCount + |claim.appends| > U64_MAX then Err(InvalidElementsStateTransition)
    else if claim.next.burnCount != claim.prior.burnCount + |claim.appends| then Err(InvalidElementsStateTransition)
    else Ok(())
  }

  function StartRoot(prior: BridgeState): Digest {
    if prior == ZERO_STATE then EmptyAt(DEPTH) else prior.burnRoot
  }

  function AppendOne(m: Manifest, root: Digest, index: u64, append: BurnAppend): Result<Digest, GuestError> {
    if !append.burn.Valid() then Err(InvalidBurn)
    else if append.burn.vaultId != m.deployment.vaultId || append.burn.asset != m.deployment.asset then
      Err(BurnTargetsWrongAssetOrVault)
    else if Fold(append.branch, BurnEmpty, index) != root then Err(BurnAccumulatorMismatch)
    else match append.burn.Leaf(m.deployment.genesis, index)
      case None => Err(InvalidBurn)
      case Some(leaf) => Ok(Fold(append.branch, leaf, index))
  }

  /** The append loop, as a left fold. */
  function AppendAll(m: Manifest, root: Digest, count: nat, appends: seq<BurnAppend>): Result<Digest, GuestError>
    requires count + |appends| <= U64_MAX
    decreases |appends|
  {
    if appends == [] then Ok(root)
    else
      var root' :- AppendOne(m, root, count, appends[0]);
      AppendAll(m, root', count + 1, appends[1..])
  }

  function StatementFor(d: Deployment, priorHash: Digest, prior: BridgeState, next: BridgeState): Digest {
    Statement(d, priorHash, StateContents(prior), StateLink(priorHash, StateContents(next)), StateContents(next))
  }

  function OutputOf(m: Manifest, claim: Claim): Output {
    Output(claim.priorHash, StateLink(claim.priorHash, StateContents(claim.next)),
           StatementFor(m.deployment, claim.priorHash, claim.prior, claim.next), claim.prior, claim.next)
  }

  /** What the guest accepts; `verified` is the answer of the Elements validity verifier. */
  function Guest(m: Manifest, claim: Claim, verified: bool): Result<Output, GuestError> {
    var _ :- Precheck(m, claim);
    var root :- AppendAll(m, StartRoot(claim.prior), claim.prior.burnCount, claim.appends);
    if root != claim.next.burnRoot then Err(BurnAccumulatorMismatch)
    else if !verified then Err(VerifierRejected)
    else Ok(OutputOf(m, claim))
  }

  method BuildElementsStateJournal(m: Manifest, claim: Claim, verified: bool) returns (r: Result<Output, GuestError>)
    ensures r == Guest(m, claim, verified)
  {
    var _ :- Precheck(m, claim);
    var root;
    if claim.prior == ZERO_STATE {
      var empty := EmptyRoot(DEPTH);
      root := empty.value;
    } else {
      root := claim.prior.burnRoot;
    }
    var count := claim.prior.burnCount;
    for offset := 0 to |claim.appends|
      invariant AppendAll(m, root, count + offset, claim.appends[offset..])
             == AppendAll(m, StartRoot(claim.prior), count, claim.appends)
    {
      var append := claim.appends[offset];
      assert claim.appends[offset..][1..] == claim.appends[offset + 1..];
      if !append.burn.Valid() {
        return Err(InvalidBurn);
      }
      if append.burn.vaultId != m.deployment.vaultId || append.burn.asset != m.deployment.asset {
        return Err(BurnTargetsWrongAssetOrVault);
      }
      var index: u64 := count + offset;
      var wasEmpty := Verify(append.branch, root, BurnEmpty, index);
      if !wasEmpty {
        return Err(BurnAccumulatorMismatch);
      }
      match append.burn.Leaf(m.deployment.genesis, index) {
        case None => return Err(InvalidBurn);
        case Some(leaf) => root := ComputeRoot(append.branch, leaf, index);
      }
    }
    if root != claim.next.burnRoot {
      return Err(BurnAccumulatorMismatch);
    }
    if !verified {
      return Err(VerifierRejected);
    }
    return Ok(OutputOf(m, claim));
  }

  // ----- refinement of list append -----

  /** The leaves of a list of burns, each bound to its position. */
  function LeavesFrom(genesis: Digest, start: nat, burns: seq<Burn>): (leaves: seq<Digest>)
    requires start + |burns| <= U64_MAX
    ensures |leaves| == |burns|
    decreases |burns|
  {
    if burns == [] then [] else [burns[0].LeafOf(genesis, start)] + LeavesFrom(genesis, start + 1, burns[1..])
  }

  function Leaves(genesis: Digest, burns: seq<Burn>): seq<Digest>
    requires |burns| <= U64_MAX
  {
    LeavesFrom(genesis, 0, burns)
  }

  lemma {:induction false} LeafAt(genesis: Digest, start: nat, burns: seq<Burn>, i: nat)
    requires start + |burns| <= U64_MAX && i < |burns|
    ensures LeavesFrom(genesis, start, burns)[i] == burns[i].LeafOf(genesis, start + i)
    decreases |burns|
  {
    if i > 0 {
      LeafAt(genesis, start + 1, burns[1..], i - 1);
    }
  }

  function BurnsOf(appends: seq<BurnAppend>): (burns: seq<Burn>)
    ensures |burns| == |appends|
    ensures forall i :: 0 <= i < |appends| ==> burns[i] == appends[i].burn
  {
    if appends == [] then [] else [appends[0].burn] + BurnsOf(appends[1..])
  }

  predicate AllowedBurn(m: Manifest, burn: Burn) {
    && burn.Valid()
    && burn.vaultId == m.deployment.vaultId && burn.asset == m.deployment.asset
    && m.deployment.genesis != ZERO
  }

  /** Every branch is the one an honest prover holding the whole list would send. */
  ghost predicate HonestBranches(m: Manifest, leaves: seq<Digest>, appends: seq<BurnAppend>)
    requires |leaves| + |appends| <= U64_MAX
    decreases |appends|
  {
    appends != [] ==>
      && appends[0].branch == PathSiblings(leaves, 0, |leaves|, DEPTH)
      && HonestBranches(m, leaves + [appends[0].burn.LeafOf(m.deployment.genesis, |leaves|)], appends[1..])
  }

  lemma {:induction false} BurnHasLeaf(m: Manifest, burn: Burn, index: u64)
    requires burn.Valid()
    ensures burn.Leaf(m.deployment.genesis, index)
         == if m.deployment.genesis == ZERO then None else Some(burn.LeafOf(m.deployment.genesis, index))
  {
    assert burn.usddBase == UNITS_PER_MICRO * burn.usdtMicro;
  }

  /** Starting from the root of a list, one append succeeds exactly for an allowed burn with the
      true branch of the first free slot, and then yields the root of the longer list. */
  lemma {:induction false} AppendOneExact(m: Manifest, leaves: seq<Digest>, append: BurnAppend)
    requires |leaves| < U64_MAX
    ensures var r := AppendOne(m, Root(leaves), |leaves|, append);
      && (r.Ok? <==> AllowedBurn(m, append.burn) && append.branch == PathSiblings(leaves, 0, |leaves|, DEPTH))
      && (r.Ok? ==> r.value == Root(leaves + [append.burn.LeafOf(m.deployment.genesis, |leaves|)]))
  {
    BranchIffEntry(leaves, BurnEmpty, |leaves|, append.branch);
    if append.burn.Valid() {
      BurnHasLeaf(m, append.burn, |leaves|);
    }
    if Fold(append.branch, BurnEmpty, |leaves|) == Root(leaves) {
      AppendByBranch(leaves, append.burn.LeafOf(m.deployment.genesis, |leaves|), append.branch);
    }
  }

  /** The root-only fold is list append: it accepts exactly allowed burns with honest branches,
      and its result is the root of the concatenated list. */
  lemma {:induction false} AppendAllExact(m: Manifest, leaves: seq<Digest>, appends: seq<BurnAppend>)
    requires |leaves| + |appends| <= U64_MAX
    ensures var r := AppendAll(m, Root(leaves), |leaves|, appends);
      && (r.Ok? <==> (forall a :: a in appends ==> AllowedBurn(m, a.burn)) && HonestBranches(m, leaves, appends))
      && (r.Ok? ==> r.value == Root(leaves + LeavesFrom(m.deployment.genesis, |leaves|, BurnsOf(appends))))
    decreases |appends|
  {
    var added := LeavesFrom(m.deployment.genesis, |leaves|, BurnsOf(appends));
    if appends == [] {
      assert leaves + added == leaves;
    } else {
      var leaf := appends[0].burn.LeafOf(m.deployment.genesis, |leaves|);
      var tail := LeavesFrom(m.deployment.genesis, |leaves| + 1, BurnsOf(appends[1..]));
      assert BurnsOf(appends)[1..] == BurnsOf(appends[1..]);
      assert added == [leaf] + tail;
      assert leaves + added == (leaves + [leaf]) + tail;
      AppendOneExact(m, leaves, appends[0]);
      AppendAllExact(m, leaves + [leaf], appends[1..]);
    }
  }

  // ----- whole runs -----

  /** The state commits exactly this list of allowed burns. */
  ghost predicate Commits(m: Manifest, s: BridgeState, burns: seq<Burn>) {
    && s.burnCount == |burns|
    && StartRoot(s) == Root(Leaves(m.deployment.genesis, burns))
    && forall b :: b in burns ==> AllowedBurn(m, b)
  }

  lemma {:induction false} ZeroCommitsNothing(m: Manifest, burns: seq<Burn>)
    requires burns == []
    ensures Commits(m, ZERO_STATE, burns)
  {
    EmptyListRoot(Leaves(m.deployment.genesis, burns));
  }

  lemma {:induction false} CommittedByZero(m: Manifest) returns (burns: seq<Burn>)
    ensures Commits(m, ZERO_STATE, burns)
  {
    burns := [];
    ZeroCommitsNothing(m, burns);
  }

  lemma {:induction false} LeavesConcat(g: Digest, start: nat, a: seq<Burn>, b: seq<Burn>)
    requires start + |a| + |b| <= U64_MAX
    ensures LeavesFrom(g, start, a + b) == LeavesFrom(g, start, a) + LeavesFrom(g, start + |a|, b)
    decreases |a|
  {
    if a == [] {
      assert a + b == b;
    } else {
      var head, left, right := [a[0].LeafOf(g, start)], LeavesFrom(g, start + 1, a[1..]), LeavesFrom(g, start + |a|, b);
      LeavesConcat(g, start + 1, a[1..], b);
      assert (a + b)[1..] == a[1..] + b;
      assert head + (left + right) == (head + left) + right;
    }
  }

  lemma {:induction false} AcceptedRoot(m: Manifest, claim: Claim)
    requires Guest(m, claim, true).Ok?
    ensures claim.prior.burnCount + |claim.appends| == claim.next.burnCount
    ensures StartRoot(claim.next) == claim.next.burnRoot
    ensures AppendAll(m, StartRoot(claim.prior), claim.prior.burnCount, claim.appends) == Ok(claim.next.burnRoot)
  {
  }

  /** One accepted claim extends the committed list by exactly its burns, in order. */
  lemma {:induction false} AcceptedExtends(m: Manifest, claim: Claim, burns: seq<Burn>)
    requires Guest(m, claim, true).Ok?
    requires Commits(m, claim.prior, burns)
    ensures Commits(m, claim.next, burns + BurnsOf(claim.appends))
  {
    var g := m.deployment.genesis;
    var leaves := Leaves(g, burns);
    AcceptedRoot(m, claim);
    assert AppendAll(m, Root(leaves), |leaves|, claim.appends) == Ok(claim.next.burnRoot);
    AppendAllExact(m, leaves, claim.appends);
    LeavesConcat(g, 0, burns, BurnsOf(claim.appends));
    AppendedAllowed(m, burns, claim.appends);
  }

  lemma {:induction false} AppendedAllowed(m: Manifest, burns: seq<Burn>, appends: seq<BurnAppend>)
    requires forall b :: b in burns ==> AllowedBurn(m, b)
    requires forall a :: a in appends ==> AllowedBurn(m, a.burn)
    ensures forall b :: b in burns + BurnsOf(appends) ==> AllowedBurn(m, b)
  {
    forall b | b in BurnsOf(appends)
      ensures AllowedBurn(m, b)
    {
      var i :| 0 <= i < |appends| && BurnsOf(appends)[i] == b;
      assert appends[i] in appends;
    }
  }

  ghost predicate AcceptedRun(m: Manifest, claims: seq<Claim>) {
    && (forall i :: 0 <= i < |claims| ==> Guest(m, claims[i], true).Ok?)
    && (claims != [] ==> claims[0].prior == ZERO_STATE)
    && forall i :: 0 < i < |claims| ==> claims[i].prior == claims[i - 1].next
  }

  function RunBurns(claims: seq<Claim>): seq<Burn> {
    if claims == [] then [] else RunBurns(claims[..|claims| - 1]) + BurnsOf(claims[|claims| - 1].appends)
  }

  function FinalState(claims: seq<Claim>): BridgeState {
    if claims == [] then ZERO_STATE else claims[|claims| - 1].next
  }

  /** Over every accepted run from the zero state, the final root and count commit exactly the
      concatenation of all appended burns. */
  lemma {:induction false} RunCommitsAllBurns(m: Manifest, claims: seq<Claim>)
    requires AcceptedRun(m, claims)
    ensures Commits(m, FinalState(claims), RunBurns(claims))
  {
    if claims == [] {
      ZeroCommitsNothing(m, RunBurns(claims));
    } else {
      var prefix := claims[..|claims| - 1];
      RunCommitsAllBurns(m, prefix);
      assert claims[|claims| - 1].prior == FinalState(prefix);
      AcceptedExtends(m, claims[|claims| - 1], RunBurns(prefix));
    }
  }

  /** Under a state that commits a list, a branch opens a finalized index only to that entry. */
  lemma {:induction false} CommittedEntry(m: Manifest, s: BridgeState, burns: seq<Burn>, leaf: Digest, index: u64, branch: Branch)
    requires Commits(m, s, burns) && index < s.burnCount
    requires Fold(branch, leaf, index) == StartRoot(s)
    ensures leaf == burns[index].LeafOf(m.deployment.genesis, index)
  {
    BranchIffEntry(Leaves(m.deployment.genesis, burns), leaf, index, branch);
    LeafAt(m.deployment.genesis, 0, burns, index);
  }

  /** Entries never change: what opens an index in an earlier state of a run is what opens it
      in every later one. */
  lemma {:induction false} EntriesAreStable(m: Manifest, claims: seq<Claim>, i: nat, index: u64, leaf: Digest, branch: Branch,
                         later: Digest, laterBranch: Branch)
    requires AcceptedRun(m, claims) && i <= |claims|
    requires index < FinalState(claims[..i]).burnCount
    requires Fold(branch, leaf, index) == StartRoot(FinalState(claims[..i]))
    requires Fold(laterBranch, later, index) == StartRoot(FinalState(claims))
    ensures index < FinalState(claims).burnCount
    ensures leaf == later
  {
    RunCommitsAllBurns(m, claims[..i]);
    RunCommitsAllBurns(m, claims);
    RunBurnsPrefix(claims, i);
    CommittedEntry(m, FinalState(claims[..i]), RunBurns(claims[..i]), leaf, index, branch);
    CommittedEntry(m, FinalState(claims), RunBurns(claims), later, index, laterBranch);
  }

  lemma {:induction false} RunBurnsPrefix(claims: seq<Claim>, i: nat)
    requires i <= |claims|
    ensures RunBurns(claims[..i]) <= RunBurns(claims)
  {
    if i == |claims| {
      assert claims[..i] == claims;
    } else {
      var prefix := claims[..|claims| - 1];
      assert prefix[..i] == claims[..i];
      RunBurnsPrefix(prefix, i);
    }
  }

  // ----- exactly which claims are accepted -----

  /** The manifest and the two states are right, and the counts add up. */
  ghost predicate ClaimRule(m: Manifest, claim: Claim) {
    && m.validated && claim.manifestId == m.id
    && (claim.prior == ZERO_STATE <==> claim.priorHash == ZERO)
    && ValidSuccessor(claim.prior, claim.next)
    && (claim.priorHash == ZERO ==> claim.next.chainwork >= m.minimumChainwork)
    && claim.next.burnCount == claim.prior.burnCount + |claim.appends| <= U64_MAX
  }

  /** Every burn is allowed, every branch is the honest one, and the next root is that of the longer list. */
  ghost predicate AppendRule(m: Manifest, claim: Claim, burns: seq<Burn>)
    requires |burns| + |claim.appends| <= U64_MAX
  {
    && (forall a :: a in claim.appends ==> AllowedBurn(m, a.burn))
    && HonestBranches(m, Leaves(m.deployment.genesis, burns), claim.appends)
    && claim.next.burnRoot == Root(Leaves(m.deployment.genesis, burns + BurnsOf(claim.appends)))
  }

  lemma {:induction false} PrecheckIs(m: Manifest, claim: Claim)
    ensures Precheck(m, claim).Ok? <==> ClaimRule(m, claim)
  {
  }

  lemma {:induction false} AppendsAre(m: Manifest, claim: Claim, burns: seq<Burn>)
    requires Commits(m, claim.prior, burns) && |burns| + |claim.appends| <= U64_MAX
    ensures AppendAll(m, StartRoot(claim.prior), claim.prior.burnCount, claim.appends) == Ok(claim.next.burnRoot)
       <==> AppendRule(m, claim, burns)
  {
    var g := m.deployment.genesis;
    AppendAllExact(m, Leaves(g, burns), claim.appends);
    LeavesConcat(g, 0, burns, BurnsOf(claim.appends));
  }

  /** Both states, the hash chain, and the statement that binds them to the deployment. */
  ghost predicate Publishes(m: Manifest, claim: Claim, o: Output) {
    && o.prior == claim.prior && o.next == claim.next && o.priorHash == claim.priorHash
    && o.nextHash == StateLink(claim.priorHash, StateContents(claim.next))
    && o.statement == Statement(m.deployment, claim.priorHash, StateContents(claim.prior), o.nextHash, StateContents(claim.next))
  }

  /** From a state that commits a list, the guest accepts exactly the verified claims that follow the rules. */
  lemma {:induction false} GuestIff(m: Manifest, claim: Claim, verified: bool, burns: seq<Burn>)
    requires Commits(m, claim.prior, burns)
    ensures Guest(m, claim, verified).Ok? <==> ClaimRule(m, claim) && AppendRule(m, claim, burns) && verified
    ensures Guest(m, claim, verified).Ok? ==> Publishes(m, claim, Guest(m, claim, verified).value)
  {
    PrecheckIs(m, claim);
    if ClaimRule(m, claim) {
      AppendsAre(m, claim, burns);
    }
  }
}
