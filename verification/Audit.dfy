/**
 * Cross-chain audit replay (crates/usdd-core/src/audit.rs): one pass over deposits, mints, burns and
 * payouts decides exactly whether the books are sequential, matched and fully backed.
 */
module Audit {
  import opened Machine

  datatype AuditedDeposit = AuditedDeposit(nonce: u64, id: Hash, amount: u64)
  datatype AuditedMint = AuditedMint(nonce: u64, depositId: Hash, amount: u64)
  datatype AuditedBurn = AuditedBurn(index: u64, id: Hash, amount: u64, recipient: nat)
  datatype AuditedPayout = AuditedPayout(burnId: Hash, amount: u64, recipient: nat)

  datatype AuditSnapshot = AuditSnapshot(actual: u64, recorded: u64, deposited: u64, paid: u64, minted: u64, burned: u64,
                                         unminted: u64, unpaid: u64)

  datatype AuditReport = AuditReport(expectedBacking: nat, recordedBacking: nat, surplus: nat, circulating: nat)

  datatype AuditError =
    | NonConvertibleSupply | BurnExceedsMint | PaidExceedsDeposited | DepositMintPartitionMismatch
    | BurnPayoutPartitionMismatch | PhysicalReserveShortfall | RecordedBackingMismatch(expected: int, actual: int)
    | ConservationUnderflow | ZeroAuditIdentifier | NonSequentialDepositNonce | NonSequentialMintNonce
    | NonSequentialBurnIndex | DuplicateDepositId | DuplicateBurnId | MintDoesNotMatchDeposit | PayoutWithoutBurn
    | PayoutDoesNotMatchBurn | DuplicatePayout | AuditTotalOverflow

  // ----- the snapshot -----

  /** `AuditSnapshot::verify`, check by check. */
  function Verify(s: AuditSnapshot): Result<AuditReport, AuditError> {
    if s.minted % UNITS_PER_MICRO != 0 || s.burned % UNITS_PER_MICRO != 0 then Err(NonConvertibleSupply)
    else
      var minted, burned := s.minted / UNITS_PER_MICRO, s.burned / UNITS_PER_MICRO;
      if burned > minted then Err(BurnExceedsMint)
      else if s.paid > s.deposited then Err(PaidExceedsDeposited)
      else if minted + s.unminted != s.deposited then Err(DepositMintPartitionMismatch)
      else if s.paid + s.unpaid != burned then Err(BurnPayoutPartitionMismatch)
      else
        var backing := s.deposited - s.paid;
        if backing != s.recorded then Err(RecordedBackingMismatch(backing, s.recorded))
        else
          var expected := minted - burned + s.unminted + s.unpaid;
          if expected < 0 then Err(ConservationUnderflow)
          else if expected != backing then Err(RecordedBackingMismatch(expected, backing))
          else if s.actual < backing then Err(PhysicalReserveShortfall)
          else Ok(AuditReport(expected, backing, s.actual - backing, (minted - burned) * UNITS_PER_MICRO))
  }

  /** The two partitions, and the vault's own count: everything else follows. */
  ghost predicate Balanced(s: AuditSnapshot) {
    && s.minted % UNITS_PER_MICRO == 0 && s.burned % UNITS_PER_MICRO == 0 && s.burned <= s.minted
    && s.minted / UNITS_PER_MICRO + s.unminted == s.deposited
    && s.paid + s.unpaid == s.burned / UNITS_PER_MICRO
    && s.recorded == s.deposited - s.paid
    && s.actual >= s.recorded
  }

  /** Verification is an exact decision; on every snapshot the conservation equation can neither
      underflow nor disagree once the partitions hold, and an accepted report backs every unit in
      circulation. */
  lemma {:induction false} VerifyIffBalanced(s: AuditSnapshot)
    ensures Verify(s).Ok? <==> Balanced(s)
    ensures Verify(s) != Err(ConservationUnderflow)
    ensures Verify(s).Err? && Verify(s).error.RecordedBackingMismatch? ==>
      Verify(s).error == RecordedBackingMismatch(s.deposited - s.paid, s.recorded) && s.recorded != s.deposited - s.paid
    ensures Verify(s).Ok? ==>
      var report := Verify(s).value;
      && report.circulating == s.minted - s.burned
      && report.circulating + UNITS_PER_MICRO * (s.unminted + s.unpaid) == UNITS_PER_MICRO * report.recordedBacking
      && report.expectedBacking == report.recordedBacking == s.recorded && report.surplus + s.recorded == s.actual
  {
  }

  // ----- what the four logs must satisfy -----

  ghost predicate DistinctDeposits(deposits: seq<AuditedDeposit>) {
    forall i, j :: 0 <= i < j < |deposits| ==> deposits[i].id != deposits[j].id
  }

  ghost predicate DepositOk(deposits: seq<AuditedDeposit>, i: nat)
    requires i < |deposits|
  {
    deposits[i].nonce == i && deposits[i].id != ZERO_HASH && deposits[i].amount > 0
  }

  ghost predicate DepositsOk(deposits: seq<AuditedDeposit>) {
    && (forall i :: 0 <= i < |deposits| ==> DepositOk(deposits, i))
    && DistinctDeposits(deposits)
    && DepositTotal(deposits) <= U64_MAX
  }

  function DepositTotal(deposits: seq<AuditedDeposit>): nat {
    if deposits == [] then 0 else DepositTotal(deposits[..|deposits| - 1]) + deposits[|deposits| - 1].amount
  }

  ghost predicate MintOk(deposits: seq<AuditedDeposit>, mints: seq<AuditedMint>, i: nat)
    requires i < |mints|
  {
    && i < |deposits| && mints[i].nonce == i && mints[i].depositId == deposits[i].id
    && mints[i].amount == UNITS_PER_MICRO * deposits[i].amount
  }

  /** Mints consume a prefix of the deposits, in order, each in full. */
  ghost predicate MintsOk(deposits: seq<AuditedDeposit>, mints: seq<AuditedMint>) {
    && (forall i :: 0 <= i < |mints| ==> MintOk(deposits, mints, i))
    && MintTotal(mints) <= U64_MAX
  }

  function MintTotal(mints: seq<AuditedMint>): nat {
    if mints == [] then 0 else MintTotal(mints[..|mints| - 1]) + mints[|mints| - 1].amount
  }

  ghost predicate BurnOk(burns: seq<AuditedBurn>, i: nat)
    requires i < |burns|
  {
    burns[i].index == i && burns[i].id != ZERO_HASH && burns[i].recipient != 0 && burns[i].amount % UNITS_PER_MICRO == 0
  }

  ghost predicate DistinctBurns(burns: seq<AuditedBurn>) {
    forall i, j :: 0 <= i < j < |burns| ==> burns[i].id != burns[j].id
  }

  ghost predicate BurnsOk(burns: seq<AuditedBurn>) {
    && (forall i :: 0 <= i < |burns| ==> BurnOk(burns, i))
    && DistinctBurns(burns)
    && BurnTotal(burns) <= U64_MAX
  }

  function BurnTotal(burns: seq<AuditedBurn>): nat {
    if burns == [] then 0 else BurnTotal(burns[..|burns| - 1]) + burns[|burns| - 1].amount
  }

  /** The payout settles some burn: its amount in full, to its recipient. */
  ghost predicate Settles(p: AuditedPayout, burns: seq<AuditedBurn>) {
    exists b :: b in burns && b.id == p.burnId && UNITS_PER_MICRO * p.amount == b.amount && p.recipient == b.recipient
  }

  ghost predicate DistinctPayouts(payouts: seq<AuditedPayout>) {
    forall i, j :: 0 <= i < j < |payouts| ==> payouts[i].burnId != payouts[j].burnId
  }

  /** Payouts settle burns, each burn at most once. */
  ghost predicate PayoutsOk(burns: seq<AuditedBurn>, payouts: seq<AuditedPayout>) {
    && (forall i :: 0 <= i < |payouts| ==> Settles(payouts[i], burns))
    && DistinctPayouts(payouts)
  }

  function PaidTotal(payouts: seq<AuditedPayout>): nat {
    if payouts == [] then 0 else PaidTotal(payouts[..|payouts| - 1]) + payouts[|payouts| - 1].amount
  }

  /** The condition under which the reconstruction accepts. */
  ghost predicate Accepted(actual: u64, recorded: u64, deposits: seq<AuditedDeposit>, mints: seq<AuditedMint>,
                           burns: seq<AuditedBurn>, payouts: seq<AuditedPayout>)
  {
    && DepositsOk(deposits) && MintsOk(deposits, mints) && BurnsOk(burns) && PayoutsOk(burns, payouts)
    && BurnTotal(burns) <= MintTotal(mints)
    && recorded == DepositTotal(deposits) - PaidTotal(payouts)
    && actual >= recorded
  }

  // ----- totals -----

  lemma {:induction false} MintsWithinDeposits(deposits: seq<AuditedDeposit>, mints: seq<AuditedMint>)
    requires forall i :: 0 <= i < |mints| ==> MintOk(deposits, mints, i)
    ensures |mints| <= |deposits|
    ensures MintTotal(mints) == UNITS_PER_MICRO * DepositTotal(deposits[..|mints|])
    ensures DepositTotal(deposits[..|mints|]) <= DepositTotal(deposits)
  {
    if mints != [] {
      var n := |mints| - 1;
      assert MintOk(deposits, mints, n);
      forall i | 0 <= i < n
        ensures MintOk(deposits, mints[..n], i)
      {
        assert MintOk(deposits, mints, i);
      }
      MintsWithinDeposits(deposits, mints[..n]);
      assert deposits[..|mints|][..n] == deposits[..n];
    }
    DepositPrefix(deposits, |mints|);
  }

  lemma {:induction false} DepositPrefix(deposits: seq<AuditedDeposit>, n: nat)
    requires n <= |deposits|
    ensures DepositTotal(deposits[..n]) <= DepositTotal(deposits)
    decreases |deposits|
  {
    if n == |deposits| {
      assert deposits[..n] == deposits;
    } else {
      var init := deposits[..|deposits| - 1];
      assert init[..n] == deposits[..n];
      DepositPrefix(init, n);
    }
  }

  /** Value of the burns whose ID is in a set. */
  function BurnedIn(burns: seq<AuditedBurn>, ids: set<Hash>): nat {
    if burns == [] then 0
    else BurnedIn(burns[..|burns| - 1], ids) + if burns[|burns| - 1].id in ids then burns[|burns| - 1].amount else 0
  }

  lemma {:induction false} BurnedInTotal(burns: seq<AuditedBurn>, ids: set<Hash>)
    ensures BurnedIn(burns, ids) <= BurnTotal(burns)
  {
    if burns != [] {
      BurnedInTotal(burns[..|burns| - 1], ids);
    }
  }

  lemma {:induction false} BurnedInNone(burns: seq<AuditedBurn>)
    ensures BurnedIn(burns, {}) == 0
  {
    if burns != [] {
      BurnedInNone(burns[..|burns| - 1]);
    }
  }

  lemma {:induction false} BurnedInOther(burns: seq<AuditedBurn>, ids: set<Hash>, id: Hash)
    requires forall k :: 0 <= k < |burns| ==> burns[k].id != id
    ensures BurnedIn(burns, ids + {id}) == BurnedIn(burns, ids)
  {
    if burns != [] {
      BurnedInOther(burns[..|burns| - 1], ids, id);
    }
  }

  lemma {:induction false} BurnedInOneMore(burns: seq<AuditedBurn>, ids: set<Hash>, k: nat)
    requires DistinctBurns(burns) && k < |burns| && burns[k].id !in ids
    ensures BurnedIn(burns, ids + {burns[k].id}) == BurnedIn(burns, ids) + burns[k].amount
  {
    var n := |burns| - 1;
    var init := burns[..n];
    assert forall i :: 0 <= i < n ==> init[i] == burns[i];
    if k == n {
      BurnedInOther(init, ids, burns[k].id);
    } else {
      BurnedInOneMore(init, ids, k);
    }
  }

  // ----- the loops -----

  function DepositIds(deposits: seq<AuditedDeposit>): set<Hash> {
    if deposits == [] then {} else DepositIds(deposits[..|deposits| - 1]) + {deposits[|deposits| - 1].id}
  }

  lemma {:induction false} DepositIdsMeans(deposits: seq<AuditedDeposit>, id: Hash)
    ensures id in DepositIds(deposits) <==> exists k :: 0 <= k < |deposits| && deposits[k].id == id
  {
    if deposits != [] {
      var init := deposits[..|deposits| - 1];
      DepositIdsMeans(init, id);
      assert forall k :: 0 <= k < |init| ==> init[k] == deposits[k];
    }
  }

  lemma {:induction false} NextDeposit(deposits: seq<AuditedDeposit>, i: nat)
    requires i < |deposits| && DistinctDeposits(deposits[..i])
    ensures DepositIds(deposits[..i + 1]) == DepositIds(deposits[..i]) + {deposits[i].id}
    ensures DepositTotal(deposits[..i + 1]) == DepositTotal(deposits[..i]) + deposits[i].amount <= DepositTotal(deposits)
    ensures deposits[i].id in DepositIds(deposits[..i]) ==> !DistinctDeposits(deposits)
    ensures deposits[i].id !in DepositIds(deposits[..i]) ==> DistinctDeposits(deposits[..i + 1])
  {
    assert deposits[..i + 1][..i] == deposits[..i];
    DepositPrefix(deposits, i + 1);
    DepositIdsMeans(deposits[..i], deposits[i].id);
  }

  /** The deposits read so far, by nonce. */
  ghost predicate IndexedByNonce(byNonce: map<u64, AuditedDeposit>, deposits: seq<AuditedDeposit>, i: nat)
    requires i <= |deposits|
  {
    forall n: u64 :: (n in byNonce <==> n < i) && (n < i ==> byNonce[n] == deposits[n])
  }

  /** What the deposit loop knows after `i` deposits. */
  ghost predicate DepositsRead(deposits: seq<AuditedDeposit>, i: nat, byNonce: map<u64, AuditedDeposit>, ids: set<Hash>, total: nat)
    requires i <= |deposits|
  {
    && i <= U64_LIMIT && (forall k :: 0 <= k < i ==> DepositOk(deposits, k))
    && ids == DepositIds(deposits[..i]) && DistinctDeposits(deposits[..i])
    && total == DepositTotal(deposits[..i]) && IndexedByNonce(byNonce, deposits, i)
  }

  lemma {:induction false} ReadDeposit(deposits: seq<AuditedDeposit>, i: nat, byNonce: map<u64, AuditedDeposit>, ids: set<Hash>,
                                       total: nat)
    requires i < |deposits| && DepositsRead(deposits, i, byNonce, ids, total)
    ensures !DepositOk(deposits, i) || deposits[i].id in ids || total + deposits[i].amount > U64_MAX ==> !DepositsOk(deposits)
    ensures DepositOk(deposits, i) && deposits[i].id !in ids ==>
      DepositsRead(deposits, i + 1, byNonce[deposits[i].nonce := deposits[i]], ids + {deposits[i].id}, total + deposits[i].amount)
  {
    NextDeposit(deposits, i);
  }

  method AuditDeposits(deposits: seq<AuditedDeposit>) returns (r: Result<(map<u64, AuditedDeposit>, u64), AuditError>)
    ensures r.Ok? <==> DepositsOk(deposits)
    ensures r.Ok? ==> r.value.1 == DepositTotal(deposits)
    ensures r.Ok? ==> forall n: u64 :: (n in r.value.0 <==> n < |deposits|) && (n < |deposits| ==> r.value.0[n] == deposits[n])
    ensures r.Err? ==> LogError(r.error)
  {
    var byNonce: map<u64, AuditedDeposit> := map[];
    var ids: set<Hash> := {};
    var total: u64 := 0;
    for i := 0 to |deposits|
      invariant DepositsRead(deposits, i, byNonce, ids, total)
    {
      var deposit := deposits[i];
      ReadDeposit(deposits, i, byNonce, ids, total);
      if deposit.nonce != i {
        return Err(NonSequentialDepositNonce);
      }
      if deposit.id == ZERO_HASH {
        return Err(ZeroAuditIdentifier);
      }
      if deposit.id in ids {
        return Err(DuplicateDepositId);
      }
      ids := ids + {deposit.id};
      if deposit.amount == 0 {
        return Err(MintDoesNotMatchDeposit);
      }
      if total as nat + deposit.amount > U64_MAX {
        return Err(AuditTotalOverflow);
      }
      total := total + deposit.amount;
      byNonce := byNonce[deposit.nonce := deposit];
    }
    assert deposits[..|deposits|] == deposits;
    return Ok((byNonce, total));
  }

  /** Errors about the logs themselves. */
  predicate LogError(e: AuditError) {
    || e.NonSequentialDepositNonce? || e.NonSequentialMintNonce? || e.NonSequentialBurnIndex? || e.DuplicateDepositId?
    || e.DuplicateBurnId? || e.MintDoesNotMatchDeposit? || e.PayoutWithoutBurn? || e.PayoutDoesNotMatchBurn?
    || e.DuplicatePayout? || e.AuditTotalOverflow? || e.ZeroAuditIdentifier? || e.NonConvertibleSupply?
  }

  /** The only errors of the final balance that the logs leave possible. */
  predicate BalanceError(e: AuditError) {
    e.BurnExceedsMint? || e.RecordedBackingMismatch? || e.PhysicalReserveShortfall?
  }

  lemma {:induction false} MintPrefix(mints: seq<AuditedMint>, n: nat)
    requires n <= |mints|
    ensures MintTotal(mints[..n]) <= MintTotal(mints)
    decreases |mints|
  {
    if n == |mints| {
      assert mints[..n] == mints;
    } else {
      var init := mints[..|mints| - 1];
      assert init[..n] == mints[..n];
      MintPrefix(init, n);
    }
  }

  method AuditMints(deposits: seq<AuditedDeposit>, byNonce: map<u64, AuditedDeposit>, mints: seq<AuditedMint>)
    returns (r: Result<u64, AuditError>)
    requires forall n: u64 :: (n in byNonce <==> n < |deposits|) && (n < |deposits| ==> byNonce[n] == deposits[n])
    ensures r.Ok? <==> MintsOk(deposits, mints)
    ensures r.Ok? ==> r.value == MintTotal(mints)
    ensures r.Err? ==> LogError(r.error)
  {
    var total: u64 := 0;
    for i := 0 to |mints|
      invariant forall k :: 0 <= k < i ==> MintOk(deposits, mints, k)
      invariant total == MintTotal(mints[..i])
    {
      var mint := mints[i];
      assert mints[..i + 1][..i] == mints[..i];
      MintPrefix(mints, i + 1);
      if mint.nonce != i {
        assert !MintOk(deposits, mints, i);
        return Err(NonSequentialMintNonce);
      }
      if mint.nonce !in byNonce {
        assert !MintOk(deposits, mints, i);
        return Err(MintDoesNotMatchDeposit);
      }
      var deposit := byNonce[mint.nonce];
      var expected: nat := deposit.amount * UNITS_PER_MICRO;
      if expected > U64_MAX {
        assert !MintOk(deposits, mints, i);
        return Err(AuditTotalOverflow);
      }
      if mint.depositId != deposit.id || mint.amount != expected {
        assert !MintOk(deposits, mints, i);
        return Err(MintDoesNotMatchDeposit);
      }
      assert MintOk(deposits, mints, i);
      if total as nat + mint.amount > U64_MAX {
        return Err(AuditTotalOverflow);
      }
      total := total + mint.amount;
    }
    assert mints[..|mints|] == mints;
    return Ok(total);
  }

  lemma {:induction false} BurnPrefix(burns: seq<AuditedBurn>, n: nat)
    requires n <= |burns|
    ensures BurnTotal(burns[..n]) <= BurnTotal(burns)
    decreases |burns|
  {
    if n == |burns| {
      assert burns[..n] == burns;
    } else {
      var init := burns[..|burns| - 1];
      assert init[..n] == burns[..n];
      BurnPrefix(init, n);
    }
  }

  /** The map from IDs to the burns read so far. */
  ghost predicate IndexedById(byId: map<Hash, AuditedBurn>, burns: seq<AuditedBurn>) {
    && (forall k :: 0 <= k < |burns| ==> burns[k].id in byId && byId[burns[k].id] == burns[k])
    && (forall id :: id in byId ==> byId[id].id == id && byId[id] in burns)
  }

  lemma {:induction false} NextBurnTotal(burns: seq<AuditedBurn>, i: nat)
    requires i < |burns|
    ensures BurnTotal(burns[..i + 1]) == BurnTotal(burns[..i]) + burns[i].amount <= BurnTotal(burns)
  {
    assert burns[..i + 1][..i] == burns[..i];
    BurnPrefix(burns, i + 1);
  }

  lemma {:induction false} NextBurn(burns: seq<AuditedBurn>, init: seq<AuditedBurn>, burn: AuditedBurn, byId: map<Hash, AuditedBurn>)
    requires DistinctBurns(init) && IndexedById(byId, init)
    requires |init| < |burns| && init == burns[..|init|] && burn == burns[|init|]
    ensures burn.id in byId ==> !DistinctBurns(burns)
    ensures burn.id !in byId ==> DistinctBurns(init + [burn]) && IndexedById(byId[burn.id := burn], init + [burn])
  {
    if burn.id in byId {
      var k :| 0 <= k < |init| && init[k] == byId[burn.id];
      assert burns[k].id == burns[|init|].id;
    }
  }

  /** What the burn loop knows after `i` burns. */
  ghost predicate BurnsRead(burns: seq<AuditedBurn>, i: nat, byId: map<Hash, AuditedBurn>, total: nat)
    requires i <= |burns|
  {
    && (forall k :: 0 <= k < i ==> BurnOk(burns, k))
    && DistinctBurns(burns[..i]) && IndexedById(byId, burns[..i])
    && total == BurnTotal(burns[..i])
  }

  lemma {:induction false} ReadBurn(burns: seq<AuditedBurn>, i: nat, byId: map<Hash, AuditedBurn>, total: nat)
    requires i < |burns| && BurnsRead(burns, i, byId, total)
    ensures !BurnOk(burns, i) || burns[i].id in byId || total + burns[i].amount > U64_MAX ==> !BurnsOk(burns)
    ensures BurnOk(burns, i) && burns[i].id !in byId ==>
      BurnsRead(burns, i + 1, byId[burns[i].id := burns[i]], total + burns[i].amount)
  {
    NextBurnTotal(burns, i);
    NextBurn(burns, burns[..i], burns[i], byId);
    PrefixNext(burns, i);
  }

  method AuditBurns(burns: seq<AuditedBurn>) returns (r: Result<(map<Hash, AuditedBurn>, u64), AuditError>)
    ensures r.Ok? <==> BurnsOk(burns)
    ensures r.Ok? ==> r.value.1 == BurnTotal(burns) && IndexedById(r.value.0, burns)
    ensures r.Err? ==> LogError(r.error)
  {
    var byId: map<Hash, AuditedBurn> := map[];
    var total: u64 := 0;
    for i := 0 to |burns|
      invariant BurnsRead(burns, i, byId, total)
    {
      var burn := burns[i];
      ReadBurn(burns, i, byId, total);
      if burn.index != i {
        return Err(NonSequentialBurnIndex);
      }
      if burn.id == ZERO_HASH || burn.recipient == 0 {
        return Err(ZeroAuditIdentifier);
      }
      if burn.amount % UNITS_PER_MICRO != 0 {
        return Err(NonConvertibleSupply);
      }
      if burn.id in byId {
        return Err(DuplicateBurnId);
      }
      byId := byId[burn.id := burn];
      if total as nat + burn.amount > U64_MAX {
        return Err(AuditTotalOverflow);
      }
      total := total + burn.amount;
    }
    assert burns[..|burns|] == burns;
    return Ok((byId, total));
  }

  /** What the payout loop knows after the payouts in `done`. */
  ghost predicate PaidSoFar(burns: seq<AuditedBurn>, done: seq<AuditedPayout>, ids: set<Hash>, total: nat) {
    && PayoutsOk(burns, done) && total == PaidTotal(done)
    && (forall id :: id in ids <==> exists k :: 0 <= k < |done| && done[k].burnId == id)
    && UNITS_PER_MICRO * total == BurnedIn(burns, ids)
  }

  lemma {:induction false} NothingPaid(burns: seq<AuditedBurn>)
    ensures PaidSoFar(burns, [], {}, 0)
  {
    BurnedInNone(burns);
  }

  lemma {:induction false} NextPayout(burns: seq<AuditedBurn>, done: seq<AuditedPayout>, ids: set<Hash>, total: nat,
                                      p: AuditedPayout, burn: AuditedBurn)
    requires PaidSoFar(burns, done, ids, total) && DistinctBurns(burns)
    requires p.burnId !in ids && burn in burns && burn.id == p.burnId && UNITS_PER_MICRO * p.amount == burn.amount
    requires p.recipient == burn.recipient
    ensures PaidSoFar(burns, done + [p], ids + {p.burnId}, total + p.amount)
  {
    var k :| 0 <= k < |burns| && burns[k] == burn;
    BurnedInOneMore(burns, ids, k);
    var all := done + [p];
    assert all[..|done|] == done && all[|done|] == p;
    forall id
      ensures id in ids + {p.burnId} <==> exists j :: 0 <= j < |all| && all[j].burnId == id
    {
      if id in ids {
        var j :| 0 <= j < |done| && done[j].burnId == id;
        assert all[j].burnId == id;
      }
    }
  }

  lemma {:induction false} SettlesIff(burns: seq<AuditedBurn>, byId: map<Hash, AuditedBurn>, p: AuditedPayout)
    requires BurnsOk(burns) && IndexedById(byId, burns)
    ensures Settles(p, burns) <==>
      p.burnId in byId && p.amount == byId[p.burnId].amount / UNITS_PER_MICRO && p.recipient == byId[p.burnId].recipient
    ensures Settles(p, burns) ==> p.burnId != ZERO_HASH && p.recipient != 0
    ensures p.burnId in byId ==> byId[p.burnId] in burns && byId[p.burnId].amount % UNITS_PER_MICRO == 0
  {
    if p.burnId in byId {
      var k :| 0 <= k < |burns| && burns[k] == byId[p.burnId];
      assert BurnOk(burns, k);
      if p.amount == burns[k].amount / UNITS_PER_MICRO && p.recipient == burns[k].recipient {
        assert burns[k] in burns && UNITS_PER_MICRO * p.amount == burns[k].amount;
      }
    }
    if Settles(p, burns) {
      var b :| b in burns && b.id == p.burnId && UNITS_PER_MICRO * p.amount == b.amount && p.recipient == b.recipient;
      var k :| 0 <= k < |burns| && burns[k] == b;
      assert BurnOk(burns, k);
    }
  }

  /** A payout refused at position `i` refuses the whole log. */
  lemma {:induction false} RepeatedPayout(burns: seq<AuditedBurn>, payouts: seq<AuditedPayout>, i: nat, ids: set<Hash>, total: nat)
    requires i < |payouts| && PaidSoFar(burns, payouts[..i], ids, total)
    ensures payouts[i].burnId in ids ==> !PayoutsOk(burns, payouts)
    ensures !Settles(payouts[i], burns) ==> !PayoutsOk(burns, payouts)
  {
    if payouts[i].burnId in ids {
      var k :| 0 <= k < |payouts[..i]| && payouts[..i][k].burnId == payouts[i].burnId;
      assert payouts[k].burnId == payouts[i].burnId;
    }
  }

  method AuditPayouts(burns: seq<AuditedBurn>, byId: map<Hash, AuditedBurn>, payouts: seq<AuditedPayout>)
    returns (r: Result<u64, AuditError>)
    requires BurnsOk(burns) && IndexedById(byId, burns)
    ensures r.Ok? <==> PayoutsOk(burns, payouts)
    ensures r.Ok? ==> r.value == PaidTotal(payouts) && UNITS_PER_MICRO * r.value <= BurnTotal(burns)
    ensures r.Err? ==> LogError(r.error)
  {
    var ids: set<Hash> := {};
    var total: u64 := 0;
    NothingPaid(burns);
    for i := 0 to |payouts|
      invariant PaidSoFar(burns, payouts[..i], ids, total)
    {
      var payout := payouts[i];
      SettlesIff(burns, byId, payout);
      RepeatedPayout(burns, payouts, i, ids, total);
      if payout.burnId == ZERO_HASH || payout.recipient == 0 {
        return Err(ZeroAuditIdentifier);
      }
      if payout.burnId in ids {
        return Err(DuplicatePayout);
      }
      if payout.burnId !in byId {
        return Err(PayoutWithoutBurn);
      }
      var burn := byId[payout.burnId];
      var expected := burn.amount / UNITS_PER_MICRO;
      if payout.amount != expected || payout.recipient != burn.recipient {
        return Err(PayoutDoesNotMatchBurn);
      }
      NextPayout(burns, payouts[..i], ids, total, payout, burn);
      PrefixNext(payouts, i);
      ids := ids + {payout.burnId};
      BurnedInTotal(burns, ids);
      total := total + payout.amount; // cannot overflow: a hundredth of the burned value at most
    }
    assert payouts[..|payouts|] == payouts;
    BurnedInTotal(burns, ids);
    return Ok(total);
  }

  // ----- the reconstruction -----

  /** `reconstruct_audit_snapshot`: an exact decision. Of its own errors, those of a broken partition, a
      payout above the deposits, and a conservation underflow cannot come from any logs. */
  method Reconstruct(actual: u64, recorded: u64, deposits: seq<AuditedDeposit>, mints: seq<AuditedMint>,
                     burns: seq<AuditedBurn>, payouts: seq<AuditedPayout>)
    returns (r: Result<(AuditSnapshot, AuditReport), AuditError>)
    ensures r.Ok? <==> Accepted(actual, recorded, deposits, mints, burns, payouts)
    ensures r.Ok? ==> r.value.0.deposited == DepositTotal(deposits) && r.value.0.paid == PaidTotal(payouts)
    ensures r.Ok? ==> r.value.0.minted == MintTotal(mints) && r.value.0.burned == BurnTotal(burns)
    ensures r.Ok? ==> r.value.0.actual == actual && r.value.0.recorded == recorded
    ensures r.Ok? ==> Verify(r.value.0) == Ok(r.value.1)
    ensures r.Err? ==> LogError(r.error) || BalanceError(r.error)
    ensures r.Err? && r.error.RecordedBackingMismatch? ==>
      r.error == RecordedBackingMismatch(DepositTotal(deposits) - PaidTotal(payouts), recorded)
  {
    var depositsRead := AuditDeposits(deposits);
    if depositsRead.Err? {
      return Err(depositsRead.error);
    }
    var (byNonce, deposited) := depositsRead.value;
    var minted := AuditMints(deposits, byNonce, mints);
    if minted.Err? {
      return Err(minted.error);
    }
    var burnsRead := AuditBurns(burns);
    if burnsRead.Err? {
      return Err(burnsRead.error);
    }
    var (byId, burned) := burnsRead.value;
    var paid := AuditPayouts(burns, byId, payouts);
    if paid.Err? {
      return Err(paid.error);
    }
    TotalsConvert(deposits, mints, burns);
    // Both subtractions succeed: mints are a prefix of the deposits, payouts settle distinct burns.
    var unminted := deposited - minted.value / UNITS_PER_MICRO;
    var unpaid := burned / UNITS_PER_MICRO - paid.value;
    var snapshot := AuditSnapshot(actual, recorded, deposited, paid.value, minted.value, burned, unminted, unpaid);
    VerifyIffBalanced(snapshot);
    var report := Verify(snapshot);
    return if report.Err? then Err(report.error) else Ok((snapshot, report.value));
  }

  lemma {:induction false} BurnTotalConverts(burns: seq<AuditedBurn>)
    requires forall i :: 0 <= i < |burns| ==> burns[i].amount % UNITS_PER_MICRO == 0
    ensures BurnTotal(burns) % UNITS_PER_MICRO == 0
  {
    if burns != [] {
      BurnTotalConverts(burns[..|burns| - 1]);
    }
  }

  lemma {:induction false} TotalsConvert(deposits: seq<AuditedDeposit>, mints: seq<AuditedMint>, burns: seq<AuditedBurn>)
    requires DepositsOk(deposits) && MintsOk(deposits, mints) && BurnsOk(burns)
    ensures MintTotal(mints) % UNITS_PER_MICRO == 0 && MintTotal(mints) / UNITS_PER_MICRO <= DepositTotal(deposits)
    ensures BurnTotal(burns) % UNITS_PER_MICRO == 0
  {
    MintsWithinDeposits(deposits, mints);
    forall i | 0 <= i < |burns|
      ensures burns[i].amount % UNITS_PER_MICRO == 0
    {
      assert BurnOk(burns, i);
    }
    BurnTotalConverts(burns);
  }

  /** Accepted books: what circulates, what is minted but undelivered and what is burned but unpaid is
      covered, unit for unit, by what the vault actually holds. */
  lemma {:induction false} AcceptedBooksAreBacked(actual: u64, recorded: u64, deposits: seq<AuditedDeposit>,
                                                  mints: seq<AuditedMint>, burns: seq<AuditedBurn>, payouts: seq<AuditedPayout>)
    requires Accepted(actual, recorded, deposits, mints, burns, payouts)
    ensures |mints| <= |deposits| && UNITS_PER_MICRO * PaidTotal(payouts) <= BurnTotal(burns)
    ensures MintTotal(mints) - BurnTotal(burns)
          + UNITS_PER_MICRO * (DepositTotal(deposits) - DepositTotal(deposits[..|mints|]))
          + (BurnTotal(burns) - UNITS_PER_MICRO * PaidTotal(payouts))
         == UNITS_PER_MICRO * recorded <= UNITS_PER_MICRO * actual
  {
    MintsWithinDeposits(deposits, mints);
    PaidWithinBurned(burns, payouts);
  }

  lemma {:induction false} PaidWithinBurned(burns: seq<AuditedBurn>, payouts: seq<AuditedPayout>)
    requires BurnsOk(burns) && PayoutsOk(burns, payouts)
    ensures UNITS_PER_MICRO * PaidTotal(payouts) <= BurnTotal(burns)
  {
    var ids := PaidExactly(burns, payouts);
    BurnedInTotal(burns, ids);
  }

  lemma {:induction false} PaidExactly(burns: seq<AuditedBurn>, payouts: seq<AuditedPayout>) returns (ids: set<Hash>)
    requires BurnsOk(burns) && PayoutsOk(burns, payouts)
    ensures PaidSoFar(burns, payouts, ids, PaidTotal(payouts))
  {
    if payouts == [] {
      ids := {};
      NothingPaid(burns);
    } else {
      var init, last := payouts[..|payouts| - 1], payouts[|payouts| - 1];
      assert payouts == init + [last] && Settles(last, burns);
      var ids' := PaidExactly(burns, init);
      var burn :| burn in burns && burn.id == last.burnId && UNITS_PER_MICRO * last.amount == burn.amount && last.recipient == burn.recipient;
      NextPayout(burns, init, ids', PaidTotal(init), last, burn);
      ids := ids' + {last.burnId};
    }
  }
}
