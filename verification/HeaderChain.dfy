/**
 * Parent header chain (crates/usdd-bitcoin-bmm/src/lib.rs): retargeting, proof of work and
 * cumulative chainwork. 256-bit numbers appear here by value; `Uint256` and `Difficulty` prove the
 * limb algorithms compute these values. Double SHA-256 is a parameter.
 */
module HeaderChain {
  import opened Machine
  import opened Blocks
  import Uint256
  import opened Difficulty

  datatype HeaderError =
    | InvalidLength
    | InvalidTarget(reason: CompactTargetError)
    | UnexpectedDifficultyBits
    | InsufficientProofOfWork
    | BrokenParentLink
    | HeightOverflow
    | ChainworkOverflow
    | InvalidDifficultyParameters
    | UnsupportedMinDifficultyRule
    | RetargetArithmeticOverflow

  datatype PowParameters = PowParameters(
    powLimit: nat, targetTimespan: u32, targetSpacing: u32, allowMinDifficultyBlocks: bool, noRetargeting: bool)

  const LAYER_TWO_SIGNET: PowParameters :=
    PowParameters(0x0377_ae00_0000 * 0x1_0000_0000_0000_0000_0000_0000_0000_0000_0000_0000_0000_0000,
                  14 * 24 * 60 * 60, 10 * 60, false, false)

  datatype PowVerifiedHeader = PowVerifiedHeader(header: Header, hash: Hash, target: nat, work: nat)

  datatype ChainState = ChainState(height: u32, tip: PowVerifiedHeader, cumulativeWork: nat, intervalStart: u32)

  // ----- one header -----

  /** A hash is compared with the target as a little-endian number. */
  function Number(hash: Hash): nat {
    FromLittleEndian(hash)
  }

  /** `block_work` by value: it fails exactly when the quotient leaves the 256-bit range. */
  function BlockProof(target: nat): Result<nat, HeaderError> {
    if 1 <= target <= Uint256.LIMIT - 2 then Ok(Work(target)) else Err(RetargetArithmeticOverflow)
  }

  function VerifyHeader(bytes: seq<byte>, expectedBits: u32, params: PowParameters, sha: HashFunction)
    : Result<PowVerifiedHeader, HeaderError>
  {
    var decoded := DecodeHeader(bytes);
    if decoded.None? then Err(InvalidLength) else
    var header := decoded.value;
    if header.bits != expectedBits then Err(UnexpectedDifficultyBits) else
    match Decode(header.bits, params.powLimit)
    case Err(reason) => Err(InvalidTarget(reason))
    case Ok(target) =>
      var hash := sha(bytes);
      if Number(hash) > target then Err(InsufficientProofOfWork) else
      var work :- BlockProof(target);
      Ok(PowVerifiedHeader(header, hash, target, work))
  }

  // ----- expected difficulty -----

  function Interval(params: PowParameters): Result<nat, HeaderError> {
    if params.targetSpacing == 0 || params.targetTimespan == 0 || params.targetTimespan % params.targetSpacing != 0
    then Err(InvalidDifficultyParameters)
    else
      var interval := params.targetTimespan / params.targetSpacing;
      if interval == 0 then Err(InvalidDifficultyParameters) else Ok(interval)
  }

  /** Seconds the closing interval took, clamped to a factor of four either way. */
  function Timespan(state: ChainState, params: PowParameters): (r: nat)
    ensures r <= 4 * params.targetTimespan
  {
    var elapsed: int := state.tip.header.time as int - state.intervalStart;
    var low, high := params.targetTimespan / 4, params.targetTimespan * 4;
    if elapsed < low then low else if elapsed > high then high else elapsed
  }

  /** The compact form of the scaled target, by value. */
  function Retarget(prior: nat, timespan: nat, params: PowParameters): (r: Result<u32, HeaderError>)
    requires params.targetTimespan > 0
  {
    if prior * timespan >= Uint256.LIMIT then Err(RetargetArithmeticOverflow)
    else
      var next := Quo(prior * timespan, params.targetTimespan);
      CompactParts(Least(next, params.powLimit));
      Ok(Compact(Least(next, params.powLimit)))
  }

  function Least(a: nat, b: nat): (r: nat)
    ensures r <= a && r <= b && (r == a || r == b)
  {
    if a <= b then a else b
  }

  /** The retarget computation on limbs is the computation by value. */
  method RetargetLimbs(prior: Uint256.Limbs, timespan: u64, params: PowParameters, powLimit: Uint256.Limbs)
    returns (r: Result<u32, HeaderError>)
    requires params.targetTimespan > 0 && Uint256.Value(powLimit) == params.powLimit
    ensures r == Retarget(Uint256.Value(prior), timespan, params)
  {
    var product := Uint256.CheckedMulU64(prior, timespan);
    if product.None? {
      return Err(RetargetArithmeticOverflow);
    }
    var next := Uint256.DivU64(product.value, params.targetTimespan);
    var order := Uint256.CompareLimbs(next.value, powLimit);
    var bits := ToCompact(if order == Uint256.Greater then powLimit else next.value);
    return Ok(bits);
  }

  function NextWorkRequired(state: ChainState, params: PowParameters): Result<u32, HeaderError> {
    if state.height == U32_MAX then Err(HeightOverflow) else
    var interval :- Interval(params);
    if (state.height + 1) % interval != 0 then
      if params.allowMinDifficultyBlocks then Err(UnsupportedMinDifficultyRule) else Ok(state.tip.header.bits)
    else if params.noRetargeting then Ok(state.tip.header.bits)
    else
      match Decode(state.tip.header.bits, params.powLimit)
      case Err(reason) => Err(InvalidTarget(reason))
      case Ok(prior) => Retarget(prior, Timespan(state, params), params)
  }

  function VerifySuccessor(state: ChainState, bytes: seq<byte>, params: PowParameters, sha: HashFunction)
    : Result<ChainState, HeaderError>
  {
    var expected :- NextWorkRequired(state, params);
    var successor :- VerifyHeader(bytes, expected, params, sha);
    if successor.header.previous != state.tip.hash then Err(BrokenParentLink)
    else if state.height == U32_MAX then Err(HeightOverflow)
    else if state.cumulativeWork + successor.work >= Uint256.LIMIT then Err(ChainworkOverflow)
    else
      var interval :- Interval(params);
      var height := state.height + 1;
      Ok(ChainState(height, successor, state.cumulativeWork + successor.work,
                    if height % interval == 0 then successor.header.time else state.intervalStart))
  }

  // ----- the Signet retarget never leaves its range -----

  /** 227246 * 4838400 is below 2^40, and the limit is 227246 * 2^216. */
  lemma {:induction false} SignetMultiplyFits(prior: nat, timespan: nat)
    requires prior <= LAYER_TWO_SIGNET.powLimit && timespan <= 4 * LAYER_TWO_SIGNET.targetTimespan
    ensures prior * timespan < Uint256.LIMIT
  {
    MulLe(prior, LAYER_TWO_SIGNET.powLimit, timespan);
    MulLe(timespan, 4 * LAYER_TWO_SIGNET.targetTimespan, LAYER_TWO_SIGNET.powLimit);
  }

  lemma {:induction false} ScaledRange(prior: nat, timespan: nat, scaled: nat)
    requires scaled == prior * timespan && timespan <= 4838400
    ensures scaled / 1209600 <= 4 * prior
    ensures scaled / 1209600 > 0 <==> scaled >= 1209600
  {
    MulLe(timespan, 4838400, prior);
  }

  /** Retargeting from any accepted target: never an overflow, and the bits decode exactly when the
      scaled target is not zero; then they denote it rounded down, within a factor of four. */
  lemma {:induction false} SignetRetarget(prior: nat, timespan: nat)
    requires 0 < prior <= LAYER_TWO_SIGNET.powLimit
    requires 302400 <= timespan <= 4838400
    ensures var r := Retarget(prior, timespan, LAYER_TWO_SIGNET);
      && r.Ok?
      && (Decode(r.value, LAYER_TWO_SIGNET.powLimit).Ok? <==> prior * timespan >= 1209600)
      && (prior * timespan >= 1209600 ==>
        var next := Least(prior * timespan / 1209600, LAYER_TWO_SIGNET.powLimit);
        && Decode(r.value, LAYER_TWO_SIGNET.powLimit) == Ok(Rounded(next))
        && 0 < Rounded(next) <= next <= 4 * prior
        && next - Rounded(next) <= next / 0x8000)
  {
    SignetMultiplyFits(prior, timespan);
    var scaled := prior * timespan;
    var next := Least(Quo(scaled, 1209600), LAYER_TWO_SIGNET.powLimit);
    ScaledRange(prior, timespan, scaled);
    if next > 0 {
      EncodeThenDecode(next);
    } else {
      CompactOfZero();
    }
  }

  /** The smallest target, after the fastest interval: the scaled target vanishes and the bits of the
      next interval decode to nothing. */
  lemma {:induction false} VanishingTarget()
    ensures Retarget(1, 302400, LAYER_TWO_SIGNET).Ok?
    ensures Decode(Retarget(1, 302400, LAYER_TWO_SIGNET).value, LAYER_TWO_SIGNET.powLimit).Err?
  {
    SignetRetarget(1, 302400);
  }

  lemma {:induction false} CompactOfZero()
    ensures Compact(0) == 0 && Magnitude(0) == 0
  {
    assert Mantissa(0) == Up(0, 24);
    assert Magnitude(0) == Down(0, 24);
  }

  // ----- what an accepted successor is -----

  /** What acceptance of one header on Signet establishes and records. */
  ghost predicate Extends(state: ChainState, bytes: seq<byte>, after: ChainState, sha: HashFunction) {
    && |bytes| == HEADER_LEN
    && bytes[4..36] == state.tip.hash
    && after.height == state.height + 1
    && after.tip.hash == sha(bytes) && after.tip.header.time == Field32(bytes, 68)
    && after.tip.target == NextTarget(state)
    && Number(sha(bytes)) <= NextTarget(state)
    && 0 < NextTarget(state) <= LAYER_TWO_SIGNET.powLimit && NextTarget(state) <= 4 * state.tip.target
    && after.cumulativeWork == state.cumulativeWork + Work(NextTarget(state)) < Uint256.LIMIT
    && after.intervalStart == (if after.height % 2016 == 0 then Field32(bytes, 68) else state.intervalStart)
    && ConsistentTip(after)
  }

  /** A tip whose recorded target and work are those of its own bits, as every verified header's are. */
  ghost predicate ConsistentTip(state: ChainState) {
    && Decode(state.tip.header.bits, LAYER_TWO_SIGNET.powLimit) == Ok(state.tip.target)
    && state.tip.work == Work(state.tip.target)
  }

  function NextTarget(state: ChainState): nat {
    if (state.height + 1) % 2016 != 0 then state.tip.target
    else Rounded(Least(Quo(state.tip.target * Timespan(state, LAYER_TWO_SIGNET), 1209600), LAYER_TWO_SIGNET.powLimit))
  }

  // ----- the retarget in terms of header times -----

  /** The target scaled by `span` over two weeks, capped, and rounded to what compact bits can denote. */
  function ScaledTarget(prior: nat, span: nat): nat {
    Rounded(Least(prior * span / 1209600, LAYER_TWO_SIGNET.powLimit))
  }

  /** The target after an interval that started at `start` and whose last header is of `end`: scaled by the
      time taken, but by no less than a quarter and no more than four times two weeks. */
  ghost predicate Retargeted(prior: nat, start: u32, end: u32, target: nat) {
    && (end - start < 302400 ==> target == ScaledTarget(prior, 302400))
    && (302400 <= end - start <= 4838400 ==> target == ScaledTarget(prior, end - start))
    && (end - start > 4838400 ==> target == ScaledTarget(prior, 4838400))
  }

  /** The seconds that count: the time taken, within a quarter and four times two weeks. */
  function Clamp(elapsed: int): nat {
    if elapsed < 302400 then 302400 else if elapsed > 4838400 then 4838400 else elapsed
  }

  lemma {:induction false} TimespanIsClamp(state: ChainState)
    ensures Timespan(state, LAYER_TWO_SIGNET) == Clamp(state.tip.header.time - state.intervalStart)
  {
  }

  lemma {:induction false} ClampRetargets(prior: nat, start: u32, end: u32)
    ensures Retargeted(prior, start, end, ScaledTarget(prior, Clamp(end - start)))
  {
  }

  /** At a boundary the next target follows the two recorded times; elsewhere it stays. */
  lemma {:induction false} NextTargetFollowsTimes(state: ChainState)
    ensures (state.height + 1) % 2016 != 0 ==> NextTarget(state) == state.tip.target
    ensures (state.height + 1) % 2016 == 0 ==>
      Retargeted(state.tip.target, state.intervalStart, state.tip.header.time, NextTarget(state))
  {
    TimespanIsClamp(state);
    ClampRetargets(state.tip.target, state.intervalStart, state.tip.header.time);
  }

  /** The bits to expect after an interval: the compact form of the scaled and capped target. */
  ghost predicate RetargetedBits(prior: nat, start: u32, end: u32, bits: nat) {
    && (end - start < 302400 ==> bits == ScaledBits(prior, 302400))
    && (302400 <= end - start <= 4838400 ==> bits == ScaledBits(prior, end - start))
    && (end - start > 4838400 ==> bits == ScaledBits(prior, 4838400))
  }

  function ScaledBits(prior: nat, span: nat): nat {
    Compact(Least(prior * span / 1209600, LAYER_TWO_SIGNET.powLimit))
  }

  /** The expected bits themselves: the tip's inside an interval, and those of the retarget at a boundary. */
  lemma {:induction false} ExpectedBitsFollowTimes(state: ChainState)
    requires ConsistentTip(state) && state.height < U32_MAX
    ensures var expected := NextWorkRequired(state, LAYER_TWO_SIGNET);
      && expected.Ok?
      && ((state.height + 1) % 2016 != 0 ==> expected.value == state.tip.header.bits)
      && ((state.height + 1) % 2016 == 0 ==>
            RetargetedBits(state.tip.target, state.intervalStart, state.tip.header.time, expected.value))
  {
    RequiredBits(state);
    if (state.height + 1) % 2016 == 0 {
      BoundaryBits(state);
    }
  }

  lemma {:induction false} BoundaryBits(state: ChainState)
    requires ConsistentTip(state)
    ensures Retarget(state.tip.target, Timespan(state, LAYER_TWO_SIGNET), LAYER_TWO_SIGNET).Ok?
    ensures RetargetedBits(state.tip.target, state.intervalStart, state.tip.header.time,
                           Retarget(state.tip.target, Timespan(state, LAYER_TWO_SIGNET), LAYER_TWO_SIGNET).value)
  {
    TimespanIsClamp(state);
    ClampedBits(state.tip.target, state.intervalStart, state.tip.header.time);
  }

  lemma {:induction false} ClampedBits(prior: nat, start: u32, end: u32)
    requires 0 < prior <= LAYER_TWO_SIGNET.powLimit
    ensures Retarget(prior, Clamp(end - start), LAYER_TWO_SIGNET).Ok?
    ensures RetargetedBits(prior, start, end, Retarget(prior, Clamp(end - start), LAYER_TWO_SIGNET).value)
  {
    RetargetBits(prior, Clamp(end - start));
  }

  lemma {:induction false} RetargetBits(prior: nat, timespan: nat)
    requires 0 < prior <= LAYER_TWO_SIGNET.powLimit && timespan <= 4838400
    ensures Retarget(prior, timespan, LAYER_TWO_SIGNET).Ok?
    ensures Retarget(prior, timespan, LAYER_TWO_SIGNET).value == ScaledBits(prior, timespan)
  {
    SignetMultiplyFits(prior, timespan);
  }

  lemma {:induction false} ScaledMonotone(prior: nat, short: nat, long: nat)
    requires short <= long
    ensures ScaledTarget(prior, short) <= ScaledTarget(prior, long)
  {
    MulLe(short, long, prior);
    var a, b := prior * short / 1209600, prior * long / 1209600;
    var x, y := Least(a, LAYER_TWO_SIGNET.powLimit), Least(b, LAYER_TWO_SIGNET.powLimit);
    if x > 0 {
      CompactMonotone(x, y);
    } else {
      assert Rounded(0) == 0;
    }
  }

  /** A later last header never makes the next target lower. */
  lemma {:induction false} SlowerIsEasier(prior: nat, start: u32, end: u32, later: u32, target: nat, eased: nat)
    requires end <= later && Retargeted(prior, start, end, target) && Retargeted(prior, start, later, eased)
    ensures target <= eased
  {
    var short, long := Clamp(end - start), Clamp(later - start);
    ScaledMonotone(prior, short, long);
  }

  /** From a consistent tip the expected bits always exist, and denote the next target unless the
      scaled target vanishes, which needs a target below four. */
  lemma {:induction false} ExpectedBits(state: ChainState)
    requires ConsistentTip(state) && state.height < U32_MAX
    ensures var expected := NextWorkRequired(state, LAYER_TWO_SIGNET);
      && expected.Ok?
      && NextTarget(state) <= LAYER_TWO_SIGNET.powLimit && NextTarget(state) <= 4 * state.tip.target
      && (state.tip.target >= 4 ==> NextTarget(state) > 0)
      && (NextTarget(state) > 0 ==> Decode(expected.value, LAYER_TWO_SIGNET.powLimit) == Ok(NextTarget(state)))
      && (NextTarget(state) == 0 ==> Decode(expected.value, LAYER_TWO_SIGNET.powLimit).Err?)
  {
    RequiredBits(state);
    if (state.height + 1) % 2016 == 0 {
      BoundaryTarget(state);
    } else {
      ExpectedInside(state);
    }
  }

  lemma {:induction false} BoundaryTarget(state: ChainState)
    requires ConsistentTip(state) && (state.height + 1) % 2016 == 0
    ensures var expected, target := Retarget(state.tip.target, Timespan(state, LAYER_TWO_SIGNET), LAYER_TWO_SIGNET), NextTarget(state);
      && expected.Ok?
      && target <= LAYER_TWO_SIGNET.powLimit && target <= 4 * state.tip.target
      && (state.tip.target >= 4 ==> target > 0)
      && (target > 0 ==> Decode(expected.value, LAYER_TWO_SIGNET.powLimit) == Ok(target))
      && (target == 0 ==> Decode(expected.value, LAYER_TWO_SIGNET.powLimit).Err?)
  {
    ExpectedAtBoundary(state.tip.target, Timespan(state, LAYER_TWO_SIGNET));
  }

  lemma {:induction false} ExpectedInside(state: ChainState)
    requires ConsistentTip(state) && (state.height + 1) % 2016 != 0
    ensures NextTarget(state) == state.tip.target && 0 < state.tip.target <= LAYER_TWO_SIGNET.powLimit
    ensures Decode(state.tip.header.bits, LAYER_TWO_SIGNET.powLimit) == Ok(NextTarget(state))
  {
  }

  lemma {:induction false} RequiredBits(state: ChainState)
    requires ConsistentTip(state) && state.height < U32_MAX
    ensures NextWorkRequired(state, LAYER_TWO_SIGNET)
         == if (state.height + 1) % 2016 != 0 then Ok(state.tip.header.bits)
            else Retarget(state.tip.target, Timespan(state, LAYER_TWO_SIGNET), LAYER_TWO_SIGNET)
  {
    assert Interval(LAYER_TWO_SIGNET) == Ok(2016);
  }

  lemma {:induction false} ExpectedAtBoundary(prior: nat, timespan: nat)
    requires 0 < prior <= LAYER_TWO_SIGNET.powLimit
    requires 302400 <= timespan <= 4838400
    ensures var expected := Retarget(prior, timespan, LAYER_TWO_SIGNET);
      var target := Rounded(Least(Quo(prior * timespan, 1209600), LAYER_TWO_SIGNET.powLimit));
      && expected.Ok?
      && target <= LAYER_TWO_SIGNET.powLimit && target <= 4 * prior
      && (prior >= 4 ==> target > 0)
      && (target > 0 ==> Decode(expected.value, LAYER_TWO_SIGNET.powLimit) == Ok(target))
      && (target == 0 ==> Decode(expected.value, LAYER_TWO_SIGNET.powLimit).Err?)
  {
    SignetRetarget(prior, timespan);
    if prior >= 4 {
      MulLe(4, prior, timespan);
    }
    if prior * timespan < 1209600 {
      assert Rounded(0) == 0;
    }
  }

  /** Exactly the successors that are accepted on Signet, and what the accepted state records. */
  lemma {:induction false} SuccessorAcceptedIff(state: ChainState, bytes: seq<byte>, sha: HashFunction)
    requires ConsistentTip(state)
    ensures var r := VerifySuccessor(state, bytes, LAYER_TWO_SIGNET, sha);
      var target := NextTarget(state);
      && (r.Ok? <==>
          && state.height < U32_MAX
          && |bytes| == HEADER_LEN
          && Ok(Field32(bytes, 72)) == NextWorkRequired(state, LAYER_TWO_SIGNET)
          && target > 0
          && Number(sha(bytes)) <= target
          && bytes[4..36] == state.tip.hash
          && state.cumulativeWork + Work(target) < Uint256.LIMIT)
      && (r.Ok? ==> Extends(state, bytes, r.value, sha))
  {
    if state.height < U32_MAX {
      ExpectedBits(state);
      SuccessorTests(state, bytes, NextTarget(state), sha);
    }
  }

  /** Acceptance once the expected bits are known to denote the next target. */
  lemma {:induction false} SuccessorTests(state: ChainState, bytes: seq<byte>, target: nat, sha: HashFunction)
    requires state.height < U32_MAX && NextWorkRequired(state, LAYER_TWO_SIGNET).Ok?
    requires target > 0 ==> Decode(NextWorkRequired(state, LAYER_TWO_SIGNET).value, LAYER_TWO_SIGNET.powLimit) == Ok(target)
    requires target == 0 ==> Decode(NextWorkRequired(state, LAYER_TWO_SIGNET).value, LAYER_TWO_SIGNET.powLimit).Err?
    ensures VerifySuccessor(state, bytes, LAYER_TWO_SIGNET, sha).Ok? <==>
              && |bytes| == HEADER_LEN
              && Ok(Field32(bytes, 72)) == NextWorkRequired(state, LAYER_TWO_SIGNET)
              && target > 0
              && Number(sha(bytes)) <= target
              && bytes[4..36] == state.tip.hash
              && state.cumulativeWork + Work(target) < Uint256.LIMIT
    ensures VerifySuccessor(state, bytes, LAYER_TWO_SIGNET, sha).Ok? ==>
              var after := VerifySuccessor(state, bytes, LAYER_TWO_SIGNET, sha).value;
              && after.height == state.height + 1
              && after.tip.hash == sha(bytes) && after.tip.target == target && after.tip.work == Work(target)
              && after.tip.header.bits == Field32(bytes, 72) && after.tip.header.time == Field32(bytes, 68)
              && after.cumulativeWork == state.cumulativeWork + Work(target)
              && after.intervalStart == (if after.height % 2016 == 0 then Field32(bytes, 68) else state.intervalStart)
  {
    assert Interval(LAYER_TWO_SIGNET) == Ok(2016);
  }

  // ----- runs -----

  function Follow(state: ChainState, headers: seq<seq<byte>>, sha: HashFunction): Result<ChainState, HeaderError> {
    if headers == [] then Ok(state) else
    var before :- Follow(state, headers[..|headers| - 1], sha);
    VerifySuccessor(before, headers[|headers| - 1], LAYER_TWO_SIGNET, sha)
  }

  function TotalWork(targets: seq<nat>): nat {
    if targets == [] then 0 else TotalWork(targets[..|targets| - 1]) + Work(targets[|targets| - 1])
  }

  ghost predicate IsBoundary(state: ChainState, k: nat) {
    (state.height + 1 + k) % 2016 == 0
  }

  /** The time field of a header. */
  function TimeOf(bytes: seq<byte>): u32 {
    if |bytes| == HEADER_LEN then Field32(bytes, 68) else 0
  }

  /** When the interval that header `k` closes or follows began, and the time of the header before it. */
  function StartTime(state: ChainState, headers: seq<seq<byte>>, k: nat): u32
    requires k <= |headers|
  {
    if k < 2016 then state.intervalStart else TimeOf(headers[k - 2016])
  }

  function EndTime(state: ChainState, headers: seq<seq<byte>>, k: nat): u32
    requires k <= |headers|
  {
    if k == 0 then state.tip.header.time else TimeOf(headers[k - 1])
  }

  /** Header `k` of the run meets its own target and links to its parent. Targets change only at interval
      boundaries, where they follow the times of the interval's first and last headers; difficulty eases
      by at most a factor of four and never above the limit. */
  ghost predicate Linked(state: ChainState, headers: seq<seq<byte>>, targets: seq<nat>, k: nat, sha: HashFunction)
    requires k < |targets| == |headers|
  {
    && |headers[k]| == HEADER_LEN
    && headers[k][4..36] == (if k == 0 then state.tip.hash else sha(headers[k - 1]))
    && Number(sha(headers[k])) <= targets[k]
    && 0 < targets[k] <= LAYER_TWO_SIGNET.powLimit
    && targets[k] <= 4 * (if k == 0 then state.tip.target else targets[k - 1])
    && (!IsBoundary(state, k) ==> targets[k] == if k == 0 then state.tip.target else targets[k - 1])
    && (IsBoundary(state, k) ==>
          Retargeted(if k == 0 then state.tip.target else targets[k - 1], StartTime(state, headers, k), EndTime(state, headers, k),
                     targets[k]))
  }

  ghost predicate RunFacts(state: ChainState, headers: seq<seq<byte>>, targets: seq<nat>, after: ChainState, sha: HashFunction)
  {
    && |targets| == |headers|
    && (forall k :: 0 <= k < |headers| ==> Linked(state, headers, targets, k, sha))
    && after.height == state.height + |headers|
    && after.cumulativeWork == state.cumulativeWork + TotalWork(targets)
    && after.tip.target == (if headers == [] then state.tip.target else targets[|headers| - 1])
    && after.tip.hash == (if headers == [] then state.tip.hash else sha(headers[|headers| - 1]))
    && after.tip.header.time == EndTime(state, headers, |headers|)
    && ConsistentTip(after)
  }

  /** Along every accepted Signet run, chainwork is the checkpoint's plus the proofs of the run. */
  lemma {:induction false} RunAccumulatesWork(state: ChainState, headers: seq<seq<byte>>, sha: HashFunction)
    returns (targets: seq<nat>)
    requires ConsistentTip(state) && Follow(state, headers, sha).Ok?
    ensures RunFacts(state, headers, targets, Follow(state, headers, sha).value, sha)
    decreases |headers|
  {
    if headers == [] {
      targets := [];
    } else {
      var n := |headers| - 1;
      var init := RunAccumulatesWork(state, headers[..n], sha);
      var before := Follow(state, headers[..n], sha).value;
      targets := init + [NextTarget(before)];
      SuccessorAcceptedIff(before, headers[n], sha);
      if IsBoundary(state, n) {
        StartAtBoundary(state, headers[..n], sha);
      }
      OneMoreHeader(state, headers, init, before, Follow(state, headers, sha).value, sha);
    }
  }

  lemma {:induction false} StaysLinked(state: ChainState, headers: seq<seq<byte>>, targets: seq<nat>, k: nat, n: nat,
                                       sha: HashFunction)
    requires k < n <= |headers| == |targets| && Linked(state, headers[..n], targets[..n], k, sha)
    ensures Linked(state, headers, targets, k, sha)
  {
  }

  lemma {:induction false} LastLinked(state: ChainState, headers: seq<seq<byte>>, targets: seq<nat>, n: nat, before: ChainState,
                                      after: ChainState, sha: HashFunction)
    requires |headers| == n + 1 == |targets| && before.height == state.height + n
    requires before.tip.target == (if n == 0 then state.tip.target else targets[n - 1])
    requires before.tip.hash == (if n == 0 then state.tip.hash else sha(headers[n - 1]))
    requires Extends(before, headers[n], after, sha) && targets[n] == NextTarget(before)
    requires before.tip.header.time == EndTime(state, headers, n)
    requires IsBoundary(state, n) ==> before.intervalStart == StartTime(state, headers, n)
    ensures Linked(state, headers, targets, n, sha)
  {
    NextTargetFollowsTimes(before);
  }

  lemma {:induction false} OneMoreHeader(state: ChainState, headers: seq<seq<byte>>, init: seq<nat>, before: ChainState,
                                         after: ChainState, sha: HashFunction)
    requires headers != [] && RunFacts(state, headers[..|headers| - 1], init, before, sha)
    requires Extends(before, headers[|headers| - 1], after, sha)
    requires IsBoundary(state, |headers| - 1) ==> before.intervalStart == StartTime(state, headers, |headers| - 1)
    ensures RunFacts(state, headers, init + [NextTarget(before)], after, sha)
  {
    var n := |headers| - 1;
    var targets := init + [NextTarget(before)];
    assert targets[..n] == init;
    LastLinked(state, headers, targets, n, before, after, sha);
    forall k | 0 <= k < n
      ensures Linked(state, headers, targets, k, sha)
    {
      StaysLinked(state, headers, targets, k, n, sha);
    }
  }

  lemma {:induction false} WorkGrows(targets: seq<nat>)
    requires forall k :: 0 <= k < |targets| ==> targets[k] < Uint256.LIMIT
    ensures TotalWork(targets) >= |targets|
  {
    if targets != [] {
      var n := |targets| - 1;
      WorkGrows(targets[..n]);
      WorkAntitone(targets[n], targets[n]);
    }
  }

  /** Every accepted header adds at least one unit of work, and the total never wraps. */
  lemma {:induction false} ChainworkStrictlyIncreases(state: ChainState, headers: seq<seq<byte>>, sha: HashFunction)
    requires ConsistentTip(state) && Follow(state, headers, sha).Ok?
    ensures Follow(state, headers, sha).value.cumulativeWork >= state.cumulativeWork + |headers|
    ensures headers != [] ==> Follow(state, headers, sha).value.cumulativeWork < Uint256.LIMIT
  {
    var targets := RunAccumulatesWork(state, headers, sha);
    forall k | 0 <= k < |targets|
      ensures targets[k] < Uint256.LIMIT
    {
      assert Linked(state, headers, targets, k, sha);
    }
    WorkGrows(targets);
    if headers != [] {
      var before := LastExtends(state, headers, sha);
    }
  }

  /** The state an accepted run ends in extends, by its last header, a state the same distance on. */
  lemma {:induction false} LastExtends(state: ChainState, headers: seq<seq<byte>>, sha: HashFunction)
    returns (before: ChainState)
    requires ConsistentTip(state) && Follow(state, headers, sha).Ok? && headers != []
    ensures Follow(state, headers[..|headers| - 1], sha) == Ok(before)
    ensures before.height == state.height + |headers| - 1
    ensures Extends(before, headers[|headers| - 1], Follow(state, headers, sha).value, sha)
  {
    var n := |headers| - 1;
    before := Follow(state, headers[..n], sha).value;
    StaysConsistent(state, headers[..n], sha);
    SuccessorAcceptedIff(before, headers[n], sha);
  }

  lemma {:induction false} StaysConsistent(state: ChainState, headers: seq<seq<byte>>, sha: HashFunction)
    requires ConsistentTip(state) && Follow(state, headers, sha).Ok?
    ensures ConsistentTip(Follow(state, headers, sha).value)
    ensures Follow(state, headers, sha).value.height == state.height + |headers|
  {
    if headers != [] {
      var n := |headers| - 1;
      StaysConsistent(state, headers[..n], sha);
      SuccessorAcceptedIff(Follow(state, headers[..n], sha).value, headers[n], sha);
    }
  }

  lemma {:induction false} BoundariesAreApart(height: nat, j: nat, k: nat)
    requires j < k < j + 2016 && (height + k) % 2016 == 0
    ensures (height + j) % 2016 != 0
  {
  }

  lemma {:induction false} LatestBoundary(state: ChainState, k: nat)
    requires IsBoundary(state, k)
    ensures forall j: nat :: j < k < j + 2016 ==> !IsBoundary(state, j)
    ensures k >= 2016 ==> IsBoundary(state, k - 2016)
  {
    forall j: nat | j < k < j + 2016
      ensures !IsBoundary(state, j)
    {
      BoundariesAreApart(state.height + 1, j, k);
    }
  }

  /** What a boundary header finds recorded as the start of the interval it ends. */
  lemma {:induction false} StartAtBoundary(state: ChainState, headers: seq<seq<byte>>, sha: HashFunction)
    requires ConsistentTip(state) && Follow(state, headers, sha).Ok? && IsBoundary(state, |headers|)
    ensures Follow(state, headers, sha).value.intervalStart == StartTime(state, headers, |headers|)
  {
    if |headers| < 2016 {
      StartOfFirstInterval(state, headers, sha);
    } else {
      StartOfLastInterval(state, headers, sha);
    }
  }

  lemma {:induction false} StartOfFirstInterval(state: ChainState, headers: seq<seq<byte>>, sha: HashFunction)
    requires ConsistentTip(state) && Follow(state, headers, sha).Ok? && IsBoundary(state, |headers|) && |headers| < 2016
    ensures Follow(state, headers, sha).value.intervalStart == state.intervalStart
  {
    LatestBoundary(state, |headers|);
    IntervalStartKept(state, headers, sha);
  }

  lemma {:induction false} StartOfLastInterval(state: ChainState, headers: seq<seq<byte>>, sha: HashFunction)
    requires ConsistentTip(state) && Follow(state, headers, sha).Ok? && IsBoundary(state, |headers|) && |headers| >= 2016
    ensures Follow(state, headers, sha).value.intervalStart == TimeOf(headers[|headers| - 2016])
  {
    LatestBoundary(state, |headers|);
    IntervalStartIsLatestBoundary(state, headers, |headers| - 2016, sha);
  }

  lemma {:induction false} LastInterval(state: ChainState, headers: seq<seq<byte>>, sha: HashFunction)
    returns (before: ChainState)
    requires ConsistentTip(state) && Follow(state, headers, sha).Ok? && headers != []
    ensures Follow(state, headers[..|headers| - 1], sha) == Ok(before)
    ensures |headers[|headers| - 1]| == HEADER_LEN
    ensures Follow(state, headers, sha).value.intervalStart
         == if IsBoundary(state, |headers| - 1) then Field32(headers[|headers| - 1], 68) else before.intervalStart
  {
    before := LastExtends(state, headers, sha);
  }

  /** The recorded interval start is the time of the latest block at an interval boundary. */
  lemma {:induction false} IntervalStartIsLatestBoundary(state: ChainState, headers: seq<seq<byte>>, k: nat, sha: HashFunction)
    requires ConsistentTip(state) && Follow(state, headers, sha).Ok?
    requires k < |headers| && IsBoundary(state, k)
    requires forall j :: k < j < |headers| ==> !IsBoundary(state, j)
    ensures |headers[k]| == HEADER_LEN
    ensures Follow(state, headers, sha).value.intervalStart == Field32(headers[k], 68)
    decreases |headers|
  {
    var before := LastInterval(state, headers, sha);
    if k < |headers| - 1 {
      IntervalStartIsLatestBoundary(state, headers[..|headers| - 1], k, sha);
    }
  }

  lemma {:induction false} IntervalStartKept(state: ChainState, headers: seq<seq<byte>>, sha: HashFunction)
    requires ConsistentTip(state) && Follow(state, headers, sha).Ok?
    requires forall j :: 0 <= j < |headers| ==> !IsBoundary(state, j)
    ensures Follow(state, headers, sha).value.intervalStart == state.intervalStart
    decreases |headers|
  {
    if headers != [] {
      var before := LastInterval(state, headers, sha);
      IntervalStartKept(state, headers[..|headers| - 1], sha);
    }
  }
}
