/**
 * Slot-24 BIP300/301 replay (crates/usdd-bitcoin-bmm/src/block/bip300.rs): proposals, votes,
 * activation, expiry, the single treasury output and BMM requests, one parsed parent block a step.
 */
module Replay {
  import opened Machine
  import opened Blocks
  import opened Commitments

  const M1_TAG: Bytes := [0xd5, 0xe0, 0xc4, 0xaf]
  const M2_TAG: Bytes := [0xd6, 0xe1, 0xc5, 0xdf]
  const M8_TAG: Bytes := [0x00, 0xbf, 0x00]
  const M8_PAYLOAD_LEN: nat := 68
  const M8_SCRIPT_LEN: nat := 70
  const TREASURY_SCRIPT: Bytes := [0xb4, 0x01, SLOT, 0x51]

  // ----- configuration and state -----

  datatype Config = Config(requiredProposal: Hash, unusedMaxAge: u16, unusedThreshold: u16, usedMaxAge: u16, usedThreshold: u16)

  predicate ValidConfig(c: Config) {
    && c.requiredProposal != ZERO_HASH
    && 0 < c.unusedThreshold < c.unusedMaxAge
    && 0 < c.usedThreshold < c.usedMaxAge
  }

  /** The settings of the sole Elements network, for its frozen proposal hash. */
  function ElementsV1(requiredProposal: Hash): Config {
    Config(requiredProposal, 10, 5, 10, 5)
  }

  function MaxAge(c: Config, slotIsUsed: bool): u16 {
    if slotIsUsed then c.usedMaxAge else c.unusedMaxAge
  }

  function Threshold(c: Config, slotIsUsed: bool): u16 {
    if slotIsUsed then c.usedThreshold else c.unusedThreshold
  }

  /** Misses a proposal may collect before it expires. */
  function MaxFails(c: Config, slotIsUsed: bool): int {
    MaxAge(c, slotIsUsed) - Threshold(c, slotIsUsed)
  }

  function LongestAge(c: Config): nat {
    if c.unusedMaxAge >= c.usedMaxAge then c.unusedMaxAge else c.usedMaxAge
  }

  function MaxPending(c: Config): nat {
    MAX_OUTPUTS * (LongestAge(c) + 1)
  }

  datatype Pending = Pending(hash: Hash, height: u32, votes: u16)
  datatype Ctip = Ctip(txid: Hash, vout: u32, value: nat)
  datatype Activation = Activation(height: u32, block: Hash)

  /** Everything the replay remembers after the blocks below `nextHeight`. */
  datatype State = State(config: Config, nextHeight: u32, tip: Hash, active: Option<Hash>, required: Option<Activation>,
                         pending: map<Hash, Pending>, ctip: Option<Ctip>)

  datatype ReplayError =
    | InvalidConfig | MalformedState | BrokenParentLink | HeightOverflow | PendingProposalLimitExceeded
    | DuplicateProposalMessage | MultipleAckMessages | VoteOverflow | ProposalHeightAhead | ProposalVotesAhead
    | RequiredProposalReplaced | DuplicateM7Message | IndexOverflow | M8WithoutM7 | M8WrongChildHash | M8Expired
    | M8CountOverflow | MultipleTreasuryOutputs | ParallelTreasuryOutput | CtipSpentWithoutReplacement | ZeroCtipDelta
    | CtipDecreaseUnsupported | MissingDepositAddress

  type Outcome<+T> = Result<T, ReplayError>

  /** A proposal too old, or with too many missed blocks for its age. */
  predicate Expired(p: Pending, height: nat, maxAge: nat, maxFails: int) {
    var age := height - p.height;
    age > maxAge || (age > maxFails && age - p.votes >= maxFails)
  }

  predicate Ahead(p: Pending, height: nat) {
    height < p.height || p.votes > height - p.height
  }

  predicate PendingOk(s: State, h: Hash)
    requires h in s.pending && s.nextHeight > 0
  {
    var p := s.pending[h];
    && h != ZERO_HASH && h == p.hash
    && !Ahead(p, s.nextHeight - 1)
    && !Expired(p, s.nextHeight - 1, MaxAge(s.config, s.active.Some?), MaxFails(s.config, s.active.Some?))
  }

  predicate CtipOk(c: Ctip) {
    c.txid != ZERO_HASH && 0 < c.value <= MAX_MONEY
  }

  function Genesis(c: Config): State {
    State(c, 0, ZERO_HASH, None, None, map[], None)
  }

  /** What `validate` checks once the configuration and the size bound have passed. */
  predicate WellFormed(s: State) {
    if s.nextHeight == 0 then s == Genesis(s.config)
    else
      && s.tip != ZERO_HASH
      && (s.ctip.Some? ==> s.active.Some? && CtipOk(s.ctip.value))
      && (s.active == Some(s.config.requiredProposal) <==> s.required.Some?)
      && (s.required.Some? ==> s.required.value.height < s.nextHeight && s.required.value.block != ZERO_HASH)
      && (forall h :: h in s.pending ==> PendingOk(s, h))
  }

  function Validate(s: State): Outcome<()> {
    if !ValidConfig(s.config) then Err(InvalidConfig)
    else if |s.pending| > MaxPending(s.config) then Err(PendingProposalLimitExceeded)
    else if !WellFormed(s) then Err(MalformedState)
    else Ok(())
  }

  predicate Valid(s: State) {
    Validate(s).Ok?
  }

  // ----- coinbase messages -----

  datatype Message = Proposal(hash: Hash) | Ack(hash: Hash)

  function ParseMessage(script: Bytes, sha: HashFunction): Option<Message> {
    var payload :- ExtractPush(script);
    if |payload| < 5 || payload[4] != SLOT then None
    else if payload[..4] == M1_TAG then Some(Proposal(sha(payload[5..])))
    else if |payload| == 37 && payload[..4] == M2_TAG then Some(Ack(payload[5..]))
    else None
  }

  /** Which pushes are proposals and votes for the slot; everything else is no message. */
  lemma {:induction false} MessageForms(script: Bytes, payload: Bytes, sha: HashFunction)
    requires ExtractPush(script) == Some(payload)
    ensures forall description :: payload == M1_TAG + ([SLOT] + description) ==> ParseMessage(script, sha) == Some(Proposal(sha(description)))
    ensures forall h: Hash :: payload == M2_TAG + ([SLOT] + h) <==> ParseMessage(script, sha) == Some(Ack(h))
    ensures ParseMessage(script, sha).Some? && ParseMessage(script, sha).value.Proposal? ==>
      |payload| >= 5 && payload == M1_TAG + ([SLOT] + payload[5..])
  {
    if |payload| >= 5 {
      assert payload == payload[..4] + ([payload[4]] + payload[5..]);
    }
    forall description | payload == M1_TAG + ([SLOT] + description)
      ensures ParseMessage(script, sha) == Some(Proposal(sha(description)))
    {
      assert payload[..4] == M1_TAG && payload[5..] == description;
    }
    forall h: Hash | payload == M2_TAG + ([SLOT] + h)
      ensures ParseMessage(script, sha) == Some(Ack(h))
    {
      assert payload[..4] == M2_TAG && payload[5..] == h;
    }
  }

  /** Replay state while a coinbase is being read. */
  datatype Mid = Mid(active: Option<Hash>, required: Option<Activation>, pending: map<Hash, Pending>,
                     created: set<Hash>, proposed: set<Hash>, sawAck: bool)

  function OnProposal(c: Config, height: u32, m: Mid, h: Hash): Outcome<Mid> {
    if h in m.proposed then Err(DuplicateProposalMessage)
    else if h in m.pending then Ok(m.(proposed := m.proposed + {h}))
    else if |m.pending| == MaxPending(c) then Err(PendingProposalLimitExceeded)
    else Ok(m.(proposed := m.proposed + {h}, created := m.created + {h}, pending := m.pending[h := Pending(h, height, 0)]))
  }

  function OnAck(c: Config, height: u32, block: Hash, m: Mid, h: Hash): Outcome<Mid> {
    if m.sawAck then Err(MultipleAckMessages)
    else
      var seen := m.(sawAck := true);
      if h in m.created || h !in m.pending then Ok(seen)
      else if m.pending[h].votes == U16_MAX then Err(VoteOverflow)
      else
        var voted := m.pending[h].(votes := m.pending[h].votes + 1);
        if voted.votes <= Threshold(c, m.active.Some?) then Ok(seen.(pending := m.pending[h := voted]))
        else if m.required.Some? && h != c.requiredProposal then Err(RequiredProposalReplaced)
        else Ok(seen.(active := Some(h), pending := m.pending - {h},
                      required := if m.required.None? && h == c.requiredProposal then Some(Activation(height, block)) else m.required))
  }

  function OnMessage(c: Config, height: u32, block: Hash, m: Mid, message: Option<Message>): Outcome<Mid> {
    match message
    case None => Ok(m)
    case Some(Proposal(h)) => OnProposal(c, height, m, h)
    case Some(Ack(h)) => OnAck(c, height, block, m, h)
  }

  function Messages(c: Config, height: u32, block: Hash, m: Mid, scripts: seq<Bytes>, sha: HashFunction): Outcome<Mid> {
    if scripts == [] then Ok(m)
    else
      var before :- Messages(c, height, block, m, scripts[..|scripts| - 1], sha);
      OnMessage(c, height, block, before, ParseMessage(scripts[|scripts| - 1], sha))
  }

  /** Expiry under the thresholds that hold after activation. */
  function Aged(c: Config, height: u32, active: Option<Hash>, pending: map<Hash, Pending>): map<Hash, Pending> {
    map h | h in pending && !Expired(pending[h], height, MaxAge(c, active.Some?), MaxFails(c, active.Some?)) :: pending[h]
  }

  function Start(s: State): Mid {
    Mid(s.active, s.required, s.pending, {}, {}, false)
  }

  // ----- transactions -----

  datatype Deposit = Deposit(outpoint: Ctip, block: Hash, height: u32, value: nat, address: Bytes)

  function ParseM8(tx: ParsedTransaction): Option<(Hash, Hash)> {
    if tx.outputs == [] then None
    else
      var script := tx.outputs[0].script;
      if |script| != M8_SCRIPT_LEN || script[0] != OP_RETURN || script[1] != M8_PAYLOAD_LEN
         || script[2..5] != M8_TAG || script[5] != SLOT
      then None
      else Some((script[6..38], script[38..70]))
  }

  /** A request has one form only: the first output pushes tag, slot, child hash and parent hash. */
  lemma {:induction false} M8Form(tx: ParsedTransaction, child: Hash, previous: Hash)
    ensures ParseM8(tx) == Some((child, previous)) <==>
      tx.outputs != [] && tx.outputs[0].script == [OP_RETURN, 68] + (M8_TAG + ([SLOT] + (child + previous)))
  {
    if tx.outputs != [] {
      var script := tx.outputs[0].script;
      if ParseM8(tx) == Some((child, previous)) {
        assert script == [script[0], script[1]] + (script[2..5] + ([script[5]] + (script[6..38] + script[38..70])));
      }
      if script == [OP_RETURN, 68] + (M8_TAG + ([SLOT] + (child + previous))) {
        assert script[2..5] == M8_TAG && script[6..38] == child && script[38..70] == previous;
      }
    }
  }

  function CtipOutpoint(c: Ctip): Outpoint {
    c.txid + LittleEndian(c.vout, 4)
  }

  function Spends(inputs: seq<Outpoint>, c: Ctip): nat {
    if inputs == [] then 0
    else Spends(inputs[..|inputs| - 1], c) + if inputs[|inputs| - 1] == CtipOutpoint(c) then 1 else 0
  }

  /** The treasury output of a transaction, if it has exactly one; two are refused. */
  function Treasury(outputs: seq<TxOut>): Outcome<Option<nat>> {
    if outputs == [] then Ok(None)
    else
      var n := |outputs| - 1;
      var before :- Treasury(outputs[..n]);
      if outputs[n].script != TREASURY_SCRIPT then Ok(before)
      else if before.Some? then Err(MultipleTreasuryOutputs)
      else Ok(Some(n))
  }

  /** What one block fixes for all its transactions. */
  datatype Context = Context(height: u32, block: Hash, previous: Hash, slotActive: bool, requiredActive: bool,
                             m7: Option<ObservedM7>)

  datatype Ledger = Ledger(ctip: Option<Ctip>, deposits: seq<Deposit>, m8s: nat)

  function OnM8(x: Context, l: Ledger, tx: ParsedTransaction): Outcome<Ledger> {
    match ParseM8(tx)
    case None => Ok(l)
    case Some((child, previous)) =>
      if x.m7.None? then Err(M8WithoutM7)
      else if child != x.m7.value.childHash then Err(M8WrongChildHash)
      else if previous != x.previous then Err(M8Expired)
      else if l.m8s == U32_MAX then Err(M8CountOverflow)
      else Ok(l.(m8s := l.m8s + 1))
  }

  function OldValue(l: Ledger): nat {
    if l.ctip.Some? then l.ctip.value.value else 0
  }

  /** The deposit address that follows a treasury output, if a push follows it. */
  function AddressAfter(tx: ParsedTransaction, index: nat): Option<Bytes> {
    if index + 1 < |tx.outputs| then ExtractPush(tx.outputs[index + 1].script) else None
  }

  /** The treasury moves to output `index` of `tx`. */
  function Move(x: Context, l: Ledger, tx: ParsedTransaction, index: nat): Outcome<Ledger>
    requires index < |tx.outputs|
  {
    var value := Amount(tx.outputs[index]);
    if value == OldValue(l) then Err(ZeroCtipDelta)
    else if value < OldValue(l) then Err(CtipDecreaseUnsupported)
    else
      var address := AddressAfter(tx, index);
      if address.None? then Err(MissingDepositAddress)
      else if index > U32_MAX then Err(IndexOverflow)
      else
        var ctip := Ctip(tx.txid, index, value);
        var deposit := Deposit(ctip, x.block, x.height, value - OldValue(l), address.value);
        Ok(l.(ctip := Some(ctip),
              deposits := if x.requiredActive && 0 < |address.value| <= 128 then l.deposits + [deposit] else l.deposits))
  }

  function OnTreasury(x: Context, l: Ledger, tx: ParsedTransaction): Outcome<Ledger> {
    var spent := if l.ctip.Some? then Spends(tx.inputs, l.ctip.value) else 0;
    var output :- Treasury(tx.outputs);
    if l.ctip.Some? && spent == 0 && output.Some? then Err(ParallelTreasuryOutput)
    else if l.ctip.Some? && spent == 1 && output.None? then Err(CtipSpentWithoutReplacement)
    else if (l.ctip.Some? && spent == 0) || (l.ctip.None? && output.None?) then Ok(l)
    else if spent > 1 then Err(MalformedState)
    else
      TreasuryIndex(tx.outputs);
      Move(x, l, tx, output.value)
  }

  lemma {:induction false} TreasuryIndex(outputs: seq<TxOut>)
    ensures Treasury(outputs).Ok? && Treasury(outputs).value.Some? ==>
      var i := Treasury(outputs).value.value;
      && i < |outputs| && outputs[i].script == TREASURY_SCRIPT
      && forall k :: 0 <= k < |outputs| && k != i ==> outputs[k].script != TREASURY_SCRIPT
    ensures Treasury(outputs) == Ok(None) ==> forall k :: 0 <= k < |outputs| ==> outputs[k].script != TREASURY_SCRIPT
  {
    if outputs != [] {
      var init := outputs[..|outputs| - 1];
      TreasuryIndex(init);
      assert forall k :: 0 <= k < |init| ==> init[k] == outputs[k];
    }
  }

  function OnTransaction(x: Context, l: Ledger, tx: ParsedTransaction): Outcome<Ledger> {
    var requested :- OnM8(x, l, tx);
    if x.slotActive then OnTreasury(x, requested, tx) else Ok(requested)
  }

  function Transactions(x: Context, l: Ledger, txs: seq<ParsedTransaction>): Outcome<Ledger> {
    if txs == [] then Ok(l)
    else
      var before :- Transactions(x, l, txs[..|txs| - 1]);
      OnTransaction(x, before, txs[|txs| - 1])
  }

  // ----- one block -----

  datatype BmmEdge = BmmEdge(parent: Hash, successor: Hash, height: u32, coinbaseTxid: Hash, outputIndex: u32, childHash: Hash)

  datatype Effects = Effects(deposits: seq<Deposit>, edge: Option<BmmEdge>, m8s: nat, sawM7: bool, requiredActive: bool)

  predicate RequiredActive(c: Config, active: Option<Hash>, required: Option<Activation>) {
    required.Some? && active == Some(c.requiredProposal)
  }

  function ObserveIn(b: ParsedBlock): Outcome<Option<ObservedM7>> {
    match Observed(Scripts(b.coinbase.outputs))
    case Ok(m7) => Ok(m7)
    case Err(DuplicateM7) => Err(DuplicateM7Message)
    case Err(OutputIndexOverflow) => Err(IndexOverflow)
  }

  function ContextOf(s: State, b: ParsedBlock, m: Mid, m7: Option<ObservedM7>): Context {
    Context(s.nextHeight, b.hash, b.header.previous, m.active.Some?, RequiredActive(s.config, m.active, m.required), m7)
  }

  function Others(b: ParsedBlock): seq<ParsedTransaction> {
    if b.transactions == [] then [] else b.transactions[1..]
  }

  function Edge(s: State, b: ParsedBlock, m7: Option<ObservedM7>, requiredActive: bool): Option<BmmEdge> {
    if m7.Some? && requiredActive && m7.value.canonical
    then Some(BmmEdge(b.header.previous, b.hash, s.nextHeight, b.coinbaseTxid, m7.value.outputIndex, m7.value.childHash))
    else None
  }

  predicate Linked(s: State, b: ParsedBlock) {
    b.header.previous == if s.nextHeight == 0 then ZERO_HASH else s.tip
  }

  /** Messages, expiry, M7 and transactions; nothing is committed yet. */
  datatype Processed = Processed(mid: Mid, pending: map<Hash, Pending>, m7: Option<ObservedM7>, ledger: Ledger)

  predicate NoneAhead(pending: map<Hash, Pending>, height: u32) {
    forall h :: h in pending ==> !Ahead(pending[h], height)
  }

  function Process(s: State, b: ParsedBlock, sha: HashFunction): Outcome<Processed> {
    var mid :- Messages(s.config, s.nextHeight, b.hash, Start(s), Scripts(b.coinbase.outputs), sha);
    if exists h :: h in mid.pending && s.nextHeight < mid.pending[h].height then Err(ProposalHeightAhead)
    else if !NoneAhead(mid.pending, s.nextHeight) then Err(ProposalVotesAhead)
    else
      var m7 :- ObserveIn(b);
      var ledger :- Transactions(ContextOf(s, b, mid, m7), Ledger(s.ctip, [], 0), Others(b));
      Ok(Processed(mid, Aged(s.config, s.nextHeight, mid.active, mid.pending), m7, ledger))
  }

  function Committed(s: State, b: ParsedBlock, p: Processed): State
    requires s.nextHeight < U32_MAX
  {
    State(s.config, s.nextHeight + 1, b.hash, p.mid.active, p.mid.required, p.pending, p.ledger.ctip)
  }

  function EffectsOf(s: State, b: ParsedBlock, p: Processed): Effects {
    var requiredActive := RequiredActive(s.config, p.mid.active, p.mid.required);
    Effects(p.ledger.deposits, Edge(s, b, p.m7, requiredActive), p.ledger.m8s, p.m7.Some?, requiredActive)
  }

  /** `apply_merkle_bound_elements_slot24_parent_block` on a parsed block. */
  function Step(s: State, b: ParsedBlock, sha: HashFunction): Outcome<(State, Effects)> {
    var checked :- Validate(s);
    if !Linked(s, b) then Err(BrokenParentLink) else
    var p :- Process(s, b, sha);
    if p.mid.required.Some? && p.mid.active != Some(s.config.requiredProposal) then Err(RequiredProposalReplaced)
    else if s.nextHeight == U32_MAX then Err(HeightOverflow)
    else
      var after := Committed(s, b, p);
      var rechecked :- Validate(after);
      Ok((after, EffectsOf(s, b, p)))
  }

  // ----- what parsed blocks guarantee -----

  ghost predicate ReplayableTransaction(tx: ParsedTransaction) {
    && Distinct(tx.inputs)
    && |tx.outputs| <= MAX_OUTPUTS
    && (forall k :: 0 <= k < |tx.outputs| ==> Amount(tx.outputs[k]) <= MAX_MONEY)
  }

  ghost predicate Replayable(b: ParsedBlock) {
    && |b.coinbase.outputs| <= MAX_OUTPUTS
    && (forall k :: 0 <= k < |Others(b)| ==> ReplayableTransaction(Others(b)[k]))
  }

  /** The hashes of a block are not the all-zero string. */
  ghost predicate NonzeroHashes(b: ParsedBlock, sha: HashFunction) {
    && b.hash != ZERO_HASH
    && (forall k :: 0 <= k < |Others(b)| ==> Others(b)[k].txid != ZERO_HASH)
    && (forall k :: 0 <= k < |Scripts(b.coinbase.outputs)| ==> NonzeroProposal(ParseMessage(Scripts(b.coinbase.outputs)[k], sha)))
  }

  predicate NonzeroProposal(message: Option<Message>) {
    message.Some? && message.value.Proposal? ==> message.value.hash != ZERO_HASH
  }

  // ----- messages keep the state well formed -----

  /** A pending proposal while block `t` is read: its vote in this block may still be to come. */
  ghost predicate MidPending(m: Mid, t: nat, h: Hash, nonzero: bool)
    requires h in m.pending
  {
    var p := m.pending[h];
    && (nonzero ==> h != ZERO_HASH) && h == p.hash && !Ahead(p, t)
    && (m.sawAck || h in m.created || p.votes + 1 <= t - p.height)
  }

  ghost predicate MidOk(c: Config, t: nat, m: Mid, nonzero: bool) {
    && |m.pending| <= MaxPending(c)
    && (forall h :: h in m.pending ==> MidPending(m, t, h, nonzero))
    && (m.active == Some(c.requiredProposal) <==> m.required.Some?)
    && (m.required.Some? ==> m.required.value.height <= t && (nonzero ==> m.required.value.block != ZERO_HASH))
  }

  lemma {:induction false} StartOk(s: State, nonzero: bool)
    requires Valid(s)
    ensures MidOk(s.config, s.nextHeight, Start(s), nonzero)
  {
    forall h | h in s.pending
      ensures MidPending(Start(s), s.nextHeight, h, nonzero)
    {
      assert PendingOk(s, h);
    }
  }

  lemma {:induction false} ProposalKeepsMid(c: Config, t: u32, m: Mid, h: Hash, nonzero: bool)
    requires MidOk(c, t, m, nonzero) && (nonzero ==> h != ZERO_HASH) && OnProposal(c, t, m, h).Ok?
    ensures MidOk(c, t, OnProposal(c, t, m, h).value, nonzero)
  {
    var m' := OnProposal(c, t, m, h).value;
    forall g | g in m'.pending
      ensures MidPending(m', t, g, nonzero)
    {
      if g in m.pending {
        assert MidPending(m, t, g, nonzero);
      }
    }
  }

  lemma {:induction false} AckKeepsMid(c: Config, t: u32, block: Hash, m: Mid, h: Hash, nonzero: bool)
    requires MidOk(c, t, m, nonzero) && (nonzero ==> block != ZERO_HASH) && OnAck(c, t, block, m, h).Ok?
    ensures MidOk(c, t, OnAck(c, t, block, m, h).value, nonzero)
  {
    var m' := OnAck(c, t, block, m, h).value;
    forall g | g in m'.pending
      ensures MidPending(m', t, g, nonzero)
    {
      assert MidPending(m, t, g, nonzero);
    }
    assert |m'.pending| <= |m.pending| by {
      assert m'.pending.Keys <= m.pending.Keys;
      KeysBound(m'.pending, m.pending.Keys);
    }
  }

  lemma {:induction false} SubsetCard<T>(a: set<T>, b: set<T>)
    requires a <= b
    ensures |a| <= |b|
  {
    if a != {} {
      var x :| x in a;
      SubsetCard(a - {x}, b - {x});
    }
  }

  lemma {:induction false} KeysBound<T, U>(m: map<T, U>, keys: set<T>)
    requires m.Keys <= keys
    ensures |m| <= |keys|
  {
    SubsetCard(m.Keys, keys);
    assert |m.Keys| == |m|;
  }

  lemma {:induction false} MessagesKeepMid(c: Config, t: u32, block: Hash, m: Mid, scripts: seq<Bytes>, sha: HashFunction, nonzero: bool)
    requires MidOk(c, t, m, nonzero) && (nonzero ==> block != ZERO_HASH)
    requires nonzero ==> forall k :: 0 <= k < |scripts| ==> NonzeroProposal(ParseMessage(scripts[k], sha))
    requires Messages(c, t, block, m, scripts, sha).Ok?
    ensures MidOk(c, t, Messages(c, t, block, m, scripts, sha).value, nonzero)
    ensures m.active.Some? ==> Messages(c, t, block, m, scripts, sha).value.active.Some?
  {
    if scripts != [] {
      var n := |scripts| - 1;
      MessagesKeepMid(c, t, block, m, scripts[..n], sha, nonzero);
      var before := Messages(c, t, block, m, scripts[..n], sha).value;
      match ParseMessage(scripts[n], sha) {
        case None =>
        case Some(Proposal(h)) => ProposalKeepsMid(c, t, before, h, nonzero);
        case Some(Ack(h)) => AckKeepsMid(c, t, block, before, h, nonzero);
      }
    }
  }

  lemma {:induction false} AgedOk(c: Config, t: u32, m: Mid)
    requires MidOk(c, t, m, true)
    ensures |Aged(c, t, m.active, m.pending)| <= MaxPending(c)
  {
    KeysBound(Aged(c, t, m.active, m.pending), m.pending.Keys);
    assert |m.pending.Keys| == |m.pending|;
  }

  // ----- transactions keep the treasury well formed -----

  ghost predicate LedgerOk(x: Context, l: Ledger) {
    l.ctip.Some? ==> x.slotActive && CtipOk(l.ctip.value)
  }

  lemma {:induction false} SpendsAtMostOnce(inputs: seq<Outpoint>, c: Ctip)
    requires Distinct(inputs)
    ensures Spends(inputs, c) <= 1
    ensures Spends(inputs, c) == 1 <==> CtipOutpoint(c) in inputs
  {
    if inputs != [] {
      var n := |inputs| - 1;
      var init := inputs[..n];
      assert forall k :: 0 <= k < n ==> init[k] == inputs[k];
      SpendsAtMostOnce(init, c);
      assert inputs == init + [inputs[n]];
    }
  }

  lemma {:induction false} TransactionKeepsLedger(x: Context, l: Ledger, tx: ParsedTransaction)
    requires LedgerOk(x, l) && ReplayableTransaction(tx) && tx.txid != ZERO_HASH
    ensures OnTransaction(x, l, tx) != Err(MalformedState)
    ensures OnTransaction(x, l, tx).Ok? ==> LedgerOk(x, OnTransaction(x, l, tx).value)
  {
    RequestsKeepCtip(x, l, tx);
    if OnM8(x, l, tx).Ok? && x.slotActive {
      MoveKeepsLedger(x, OnM8(x, l, tx).value, tx);
    }
  }

  lemma {:induction false} RequestsKeepCtip(x: Context, l: Ledger, tx: ParsedTransaction)
    ensures OnM8(x, l, tx) != Err(MalformedState)
    ensures OnM8(x, l, tx).Ok? ==> OnM8(x, l, tx).value.ctip == l.ctip
  {
  }

  lemma {:induction false} MoveKeepsLedger(x: Context, l: Ledger, tx: ParsedTransaction)
    requires LedgerOk(x, l) && x.slotActive && ReplayableTransaction(tx) && tx.txid != ZERO_HASH
    ensures OnTreasury(x, l, tx) != Err(MalformedState)
    ensures OnTreasury(x, l, tx).Ok? ==> LedgerOk(x, OnTreasury(x, l, tx).value)
  {
    TreasuryIndex(tx.outputs);
    TreasuryErrors(tx.outputs);
    if l.ctip.Some? {
      SpendsAtMostOnce(tx.inputs, l.ctip.value);
    }
  }

  lemma {:induction false} TreasuryErrors(outputs: seq<TxOut>)
    ensures Treasury(outputs).Err? ==> Treasury(outputs) == Err(MultipleTreasuryOutputs)
  {
    if outputs != [] {
      TreasuryErrors(outputs[..|outputs| - 1]);
    }
  }

  lemma {:induction false} TransactionsKeepLedger(x: Context, l: Ledger, txs: seq<ParsedTransaction>)
    requires LedgerOk(x, l)
    requires forall k :: 0 <= k < |txs| ==> ReplayableTransaction(txs[k]) && txs[k].txid != ZERO_HASH
    ensures Transactions(x, l, txs) != Err(MalformedState)
    ensures Transactions(x, l, txs).Ok? ==> LedgerOk(x, Transactions(x, l, txs).value)
  {
    if txs != [] {
      var init, last := txs[..|txs| - 1], txs[|txs| - 1];
      TransactionsKeepLedger(x, l, init);
      if Transactions(x, l, init).Ok? {
        TransactionKeepsLedger(x, Transactions(x, l, init).value, last);
      }
    }
  }

  // ----- a step that gets past processing commits a valid state -----

  /** What the messages leave behind is never ahead of its block. */
  lemma {:induction false} MidOfStep(s: State, b: ParsedBlock, sha: HashFunction, nonzero: bool)
    requires Valid(s) && (nonzero ==> NonzeroHashes(b, sha))
    requires Messages(s.config, s.nextHeight, b.hash, Start(s), Scripts(b.coinbase.outputs), sha).Ok?
    ensures var mid := Messages(s.config, s.nextHeight, b.hash, Start(s), Scripts(b.coinbase.outputs), sha).value;
      && MidOk(s.config, s.nextHeight, mid, nonzero) && NoneAhead(mid.pending, s.nextHeight)
      && (s.active.Some? ==> mid.active.Some?)
  {
    StartOk(s, nonzero);
    MessagesKeepMid(s.config, s.nextHeight, b.hash, Start(s), Scripts(b.coinbase.outputs), sha, nonzero);
    var mid := Messages(s.config, s.nextHeight, b.hash, Start(s), Scripts(b.coinbase.outputs), sha).value;
    forall h | h in mid.pending
      ensures !Ahead(mid.pending[h], s.nextHeight)
    {
      assert MidPending(mid, s.nextHeight, h, nonzero);
    }
  }

  /** The ageing checks and the double-CTIP-input branch never fire from a valid state. */
  lemma {:induction false} ProcessErrors(s: State, b: ParsedBlock, sha: HashFunction)
    requires Valid(s) && Replayable(b) && NonzeroHashes(b, sha)
    ensures var r := Process(s, b, sha);
      var mid := Messages(s.config, s.nextHeight, b.hash, Start(s), Scripts(b.coinbase.outputs), sha);
      && (r.Err? && mid.Err? ==> r.error == mid.error)
      && (r.Err? && mid.Ok? && ObserveIn(b).Err? ==> r.error == ObserveIn(b).error)
      && (r.Err? && mid.Ok? && ObserveIn(b).Ok? ==>
            Transactions(ContextOf(s, b, mid.value, ObserveIn(b).value), Ledger(s.ctip, [], 0), Others(b)) == Err(r.error))
      && (r.Err? && mid.Ok? ==> r.error != MalformedState)
      && (r.Ok? ==> r.value.mid == mid.value && LedgerOk(ContextOf(s, b, mid.value, r.value.m7), r.value.ledger))
  {
    var mid := Messages(s.config, s.nextHeight, b.hash, Start(s), Scripts(b.coinbase.outputs), sha);
    if mid.Ok? {
      MidOfStep(s, b, sha, true);
      if ObserveIn(b).Ok? {
        TransactionsKeepLedger(ContextOf(s, b, mid.value, ObserveIn(b).value), Ledger(s.ctip, [], 0), Others(b));
      }
    }
  }

  lemma {:induction false} CommittedIsValid(s: State, b: ParsedBlock, sha: HashFunction)
    requires Valid(s) && Replayable(b) && NonzeroHashes(b, sha) && s.nextHeight < U32_MAX
    requires Process(s, b, sha).Ok?
    ensures Valid(Committed(s, b, Process(s, b, sha).value))
  {
    var p := Process(s, b, sha).value;
    var after := Committed(s, b, p);
    MidOfStep(s, b, sha, true);
    ProcessErrors(s, b, sha);
    AgedOk(s.config, s.nextHeight, p.mid);
    forall h | h in after.pending
      ensures PendingOk(after, h)
    {
      assert MidPending(p.mid, s.nextHeight, h, true);
    }
  }

  /** Which steps are accepted: everything after processing is a consequence, except the last height. */
  lemma {:induction false} StepAcceptedIff(s: State, b: ParsedBlock, sha: HashFunction)
    requires Valid(s) && Replayable(b) && NonzeroHashes(b, sha)
    ensures Step(s, b, sha).Ok? <==> Linked(s, b) && Process(s, b, sha).Ok? && s.nextHeight < U32_MAX
    ensures Step(s, b, sha).Ok? ==>
      && Step(s, b, sha).value.0 == Committed(s, b, Process(s, b, sha).value) && Valid(Step(s, b, sha).value.0)
    ensures Step(s, b, sha).Err? && Linked(s, b) && Process(s, b, sha).Ok? ==> Step(s, b, sha) == Err(HeightOverflow)
    ensures Step(s, b, sha).Err? && Linked(s, b) && Process(s, b, sha).Err? ==> Step(s, b, sha).error == Process(s, b, sha).error
    ensures Step(s, b, sha).Err? && !Linked(s, b) ==> Step(s, b, sha) == Err(BrokenParentLink)
  {
    if Process(s, b, sha).Ok? {
      MidOfStep(s, b, sha, true);
      ProcessErrors(s, b, sha);
      if s.nextHeight < U32_MAX {
        CommittedIsValid(s, b, sha);
      }
    }
  }

  /** The errors a coinbase message can raise. */
  predicate MessageError(e: ReplayError) {
    e.DuplicateProposalMessage? || e.MultipleAckMessages? || e.VoteOverflow? || e.PendingProposalLimitExceeded? || e.RequiredProposalReplaced?
  }

  /** The errors M7, M8 and treasury processing can raise. */
  predicate TransactionError(e: ReplayError) {
    || e.DuplicateM7Message? || e.IndexOverflow? || e.M8WithoutM7? || e.M8WrongChildHash? || e.M8Expired? || e.M8CountOverflow?
    || e.MultipleTreasuryOutputs? || e.ParallelTreasuryOutput? || e.CtipSpentWithoutReplacement? || e.ZeroCtipDelta?
    || e.CtipDecreaseUnsupported? || e.MissingDepositAddress?
  }

  lemma {:induction false} MessagesErrors(c: Config, t: u32, block: Hash, m: Mid, scripts: seq<Bytes>, sha: HashFunction)
    ensures Messages(c, t, block, m, scripts, sha).Err? ==> MessageError(Messages(c, t, block, m, scripts, sha).error)
  {
    if scripts != [] {
      MessagesErrors(c, t, block, m, scripts[..|scripts| - 1], sha);
    }
  }

  lemma {:induction false} TransactionsErrors(x: Context, l: Ledger, txs: seq<ParsedTransaction>)
    ensures Transactions(x, l, txs).Err? && Transactions(x, l, txs).error != MalformedState ==>
      TransactionError(Transactions(x, l, txs).error)
  {
    if txs != [] {
      var init, last := txs[..|txs| - 1], txs[|txs| - 1];
      TransactionsErrors(x, l, init);
      if Transactions(x, l, init).Ok? {
        TransactionErrors(x, Transactions(x, l, init).value, last);
      }
    }
  }

  lemma {:induction false} TransactionErrors(x: Context, l: Ledger, tx: ParsedTransaction)
    ensures OnTransaction(x, l, tx).Err? && OnTransaction(x, l, tx).error != MalformedState ==>
      TransactionError(OnTransaction(x, l, tx).error)
  {
    TreasuryErrors(tx.outputs);
    TreasuryIndex(tx.outputs);
  }

  lemma {:induction false} ObserveErrors(b: ParsedBlock)
    ensures ObserveIn(b).Err? ==> TransactionError(ObserveIn(b).error)
  {
  }

  lemma {:induction false} ProcessErrorKinds(s: State, b: ParsedBlock, sha: HashFunction)
    requires Valid(s) && Replayable(b) && NonzeroHashes(b, sha) && Process(s, b, sha).Err?
    ensures var e := Process(s, b, sha).error;
      || (MessageError(e) && Messages(s.config, s.nextHeight, b.hash, Start(s), Scripts(b.coinbase.outputs), sha) == Err(e))
      || TransactionError(e)
  {
    ProcessErrors(s, b, sha);
    MessagesErrors(s.config, s.nextHeight, b.hash, Start(s), Scripts(b.coinbase.outputs), sha);
    ObserveErrors(b);
    var mid := Messages(s.config, s.nextHeight, b.hash, Start(s), Scripts(b.coinbase.outputs), sha);
    if mid.Ok? && ObserveIn(b).Ok? {
      TransactionsErrors(ContextOf(s, b, mid.value, ObserveIn(b).value), Ledger(s.ctip, [], 0), Others(b));
    }
  }

  /** Checks that can only repeat what holds already: from a valid state no step reports a bad
      configuration, a malformed state, a proposal ahead of its block, or a treasury spent twice; and
      replacing the required proposal is reported by the vote that does it, never by the final check. */
  lemma {:induction false} RedundantChecksNeverFire(s: State, b: ParsedBlock, sha: HashFunction)
    requires Valid(s) && Replayable(b) && NonzeroHashes(b, sha) && Step(s, b, sha).Err?
    ensures var e := Step(s, b, sha).error;
      && e != InvalidConfig && e != MalformedState && e != ProposalHeightAhead && e != ProposalVotesAhead
      && (MessageError(e) ==>
            Messages(s.config, s.nextHeight, b.hash, Start(s), Scripts(b.coinbase.outputs), sha) == Err(e))
  {
    StepAcceptedIff(s, b, sha);
    RefusalKinds(s, b, sha, Step(s, b, sha).error);
  }

  lemma {:induction false} RefusalKinds(s: State, b: ParsedBlock, sha: HashFunction, e: ReplayError)
    requires Valid(s) && Replayable(b) && NonzeroHashes(b, sha)
    requires e == BrokenParentLink || e == HeightOverflow || (Process(s, b, sha).Err? && e == Process(s, b, sha).error)
    ensures e != InvalidConfig && e != MalformedState && e != ProposalHeightAhead && e != ProposalVotesAhead
    ensures MessageError(e) ==> Messages(s.config, s.nextHeight, b.hash, Start(s), Scripts(b.coinbase.outputs), sha) == Err(e)
  {
    if Process(s, b, sha).Err? && e == Process(s, b, sha).error {
      ProcessErrorKinds(s, b, sha);
      KindsAreDisjoint(e);
    }
  }

  lemma {:induction false} KindsAreDisjoint(e: ReplayError)
    ensures !(MessageError(e) && TransactionError(e))
    ensures MessageError(e) || TransactionError(e) ==>
      e != InvalidConfig && e != MalformedState && e != ProposalHeightAhead && e != ProposalVotesAhead
  {
  }

  // ----- runs from before genesis -----

  ghost predicate GoodBlocks(blocks: seq<ParsedBlock>, sha: HashFunction) {
    forall k :: 0 <= k < |blocks| ==> Replayable(blocks[k]) && NonzeroHashes(blocks[k], sha)
  }

  function Run(c: Config, blocks: seq<ParsedBlock>, sha: HashFunction): Outcome<(State, seq<Effects>)> {
    if blocks == [] then Ok((Genesis(c), []))
    else
      var before :- Run(c, blocks[..|blocks| - 1], sha);
      var step :- Step(before.0, blocks[|blocks| - 1], sha);
      Ok((step.0, before.1 + [step.1]))
  }

  lemma {:induction false} RunValid(c: Config, blocks: seq<ParsedBlock>, sha: HashFunction)
    requires ValidConfig(c) && GoodBlocks(blocks, sha) && Run(c, blocks, sha).Ok?
    ensures Valid(Run(c, blocks, sha).value.0)
    ensures Run(c, blocks, sha).value.0.config == c
    ensures Run(c, blocks, sha).value.0.nextHeight == |blocks|
    ensures |Run(c, blocks, sha).value.1| == |blocks|
  {
    if blocks != [] {
      var n := |blocks| - 1;
      RunValid(c, blocks[..n], sha);
      StepAcceptedIff(Run(c, blocks[..n], sha).value.0, blocks[n], sha);
    }
  }

  // ----- the pending set -----

  /** Proposals that the messages of one coinbase name. */
  function Mentioned(scripts: seq<Bytes>, sha: HashFunction): set<Hash> {
    if scripts == [] then {}
    else
      var message := ParseMessage(scripts[|scripts| - 1], sha);
      Mentioned(scripts[..|scripts| - 1], sha) + if message.Some? then {message.value.hash} else {}
  }

  lemma {:induction false} OneMentionPerOutput(scripts: seq<Bytes>, sha: HashFunction)
    ensures |Mentioned(scripts, sha)| <= |scripts|
  {
    if scripts != [] {
      OneMentionPerOutput(scripts[..|scripts| - 1], sha);
    }
  }

  function NamedIn(b: ParsedBlock, sha: HashFunction): set<Hash> {
    Mentioned(Scripts(b.coinbase.outputs), sha)
  }

  function HighestThreshold(c: Config): nat {
    if c.unusedThreshold >= c.usedThreshold then c.unusedThreshold else c.usedThreshold
  }

  /** A pending proposal was created in the block at its height, and voted for after it if it has votes. */
  ghost predicate TracedTo(p: Pending, h: Hash, blocks: seq<ParsedBlock>, c: Config, sha: HashFunction) {
    && p.height < |blocks| && h in NamedIn(blocks[p.height], sha)
    && p.votes <= HighestThreshold(c)
    && (p.votes > 0 ==> exists j :: p.height < j < |blocks| && h in NamedIn(blocks[j], sha))
  }

  ghost predicate Traced(s: State, blocks: seq<ParsedBlock>, sha: HashFunction) {
    s.nextHeight == |blocks| && forall h :: h in s.pending ==> TracedTo(s.pending[h], h, blocks, s.config, sha)
  }

  /** The same while the next coinbase is read: old proposals keep their height, and their votes too
      unless named; new ones are named and have no votes. */
  ghost predicate MidTracedTo(m: Mid, h: Hash, s: State, named: set<Hash>)
    requires h in m.pending
  {
    var p := m.pending[h];
    && p.votes <= HighestThreshold(s.config)
    && if p.height < s.nextHeight
       then h in s.pending && p.height == s.pending[h].height && (h in named || p.votes == s.pending[h].votes)
       else p.height == s.nextHeight && p.votes == 0 && h in named && h in m.created
  }

  ghost predicate MidTraced(m: Mid, s: State, named: set<Hash>) {
    forall h :: h in m.pending ==> MidTracedTo(m, h, s, named)
  }

  lemma {:induction false} MessageKeepsTrace(s: State, block: Hash, m: Mid, message: Option<Message>, named: set<Hash>)
    requires MidTraced(m, s, named) && OnMessage(s.config, s.nextHeight, block, m, message).Ok?
    ensures MidTraced(OnMessage(s.config, s.nextHeight, block, m, message).value, s,
                      named + if message.Some? then {message.value.hash} else {})
    ensures |OnMessage(s.config, s.nextHeight, block, m, message).value.pending| <= |m.pending| + 1
  {
    var m' := OnMessage(s.config, s.nextHeight, block, m, message).value;
    var named' := named + if message.Some? then {message.value.hash} else {};
    forall h | h in m'.pending
      ensures MidTracedTo(m', h, s, named')
    {
      if h in m.pending {
        assert MidTracedTo(m, h, s, named);
      }
    }
    GrowsByOne(s, block, m, message);
  }

  lemma {:induction false} GrowsByOne(s: State, block: Hash, m: Mid, message: Option<Message>)
    requires OnMessage(s.config, s.nextHeight, block, m, message).Ok?
    ensures |OnMessage(s.config, s.nextHeight, block, m, message).value.pending| <= |m.pending| + 1
  {
    var after := OnMessage(s.config, s.nextHeight, block, m, message).value.pending;
    if message.None? {
      assert after == m.pending;
    } else {
      var keys := m.pending.Keys + {message.value.hash};
      assert after.Keys <= keys;
      KeysBound(after, keys);
    }
  }

  /** From a traced state with room for a whole coinbase, no message meets the limit or a full vote counter. */
  lemma {:induction false} MessagesStayBounded(s: State, block: Hash, scripts: seq<Bytes>, sha: HashFunction)
    requires ValidConfig(s.config) && MidTraced(Start(s), s, {})
    requires |s.pending| + |scripts| <= MaxPending(s.config)
    ensures var r := Messages(s.config, s.nextHeight, block, Start(s), scripts, sha);
      && r != Err(PendingProposalLimitExceeded) && r != Err(VoteOverflow)
      && (r.Ok? ==> MidTraced(r.value, s, Mentioned(scripts, sha)) && |r.value.pending| <= |s.pending| + |scripts|)
  {
    if scripts != [] {
      var n := |scripts| - 1;
      MessagesStayBounded(s, block, scripts[..n], sha);
      var before := Messages(s.config, s.nextHeight, block, Start(s), scripts[..n], sha);
      if before.Ok? {
        var message := ParseMessage(scripts[n], sha);
        NeitherLimit(s, block, before.value, message, Mentioned(scripts[..n], sha));
        if OnMessage(s.config, s.nextHeight, block, before.value, message).Ok? {
          MessageKeepsTrace(s, block, before.value, message, Mentioned(scripts[..n], sha));
        }
      }
    }
  }

  lemma {:induction false} NeitherLimit(s: State, block: Hash, m: Mid, message: Option<Message>, named: set<Hash>)
    requires ValidConfig(s.config) && MidTraced(m, s, named) && |m.pending| < MaxPending(s.config)
    ensures var r := OnMessage(s.config, s.nextHeight, block, m, message);
      r != Err(PendingProposalLimitExceeded) && r != Err(VoteOverflow)
  {
    if message.Some? && message.value.hash in m.pending {
      assert MidTracedTo(m, message.value.hash, s, named);
    }
  }

  function NamedInAny(blocks: seq<ParsedBlock>, sha: HashFunction): set<Hash> {
    if blocks == [] then {} else NamedInAny(blocks[..|blocks| - 1], sha) + NamedIn(blocks[|blocks| - 1], sha)
  }

  lemma {:induction false} NamedCount(blocks: seq<ParsedBlock>, sha: HashFunction)
    requires GoodBlocks(blocks, sha)
    ensures |NamedInAny(blocks, sha)| <= MAX_OUTPUTS * |blocks|
  {
    if blocks != [] {
      NamedCount(blocks[..|blocks| - 1], sha);
      OneMentionPerOutput(Scripts(blocks[|blocks| - 1].coinbase.outputs), sha);
    }
  }

  lemma {:induction false} NamedAt(blocks: seq<ParsedBlock>, j: nat, h: Hash, sha: HashFunction)
    requires j < |blocks| && h in NamedIn(blocks[j], sha)
    ensures h in NamedInAny(blocks, sha)
  {
    if j < |blocks| - 1 {
      NamedAt(blocks[..|blocks| - 1], j, h, sha);
    }
  }

  /** The last `n` blocks. */
  function Recent(blocks: seq<ParsedBlock>, n: nat): seq<ParsedBlock> {
    if |blocks| <= n then blocks else blocks[|blocks| - n..]
  }

  lemma {:induction false} RecentAt(blocks: seq<ParsedBlock>, n: nat, j: nat)
    requires j < |blocks| <= j + n
    ensures var recent := Recent(blocks, n);
      && |blocks| - |recent| <= j && recent[j - (|blocks| - |recent|)] == blocks[j]
  {
  }

  /** A live proposal is younger than its allowance of misses, or has a vote, which came after it. */
  lemma {:induction false} LiveIsYoungOrVoted(s: State, h: Hash)
    requires Valid(s) && s.nextHeight > 0 && h in s.pending && PendingOk(s, h)
    ensures s.pending[h].votes == 0 ==> s.pending[h].height >= s.nextHeight - LongestAge(s.config)
    ensures s.pending[h].height + 1 >= s.nextHeight - LongestAge(s.config)
  {
  }

  lemma {:induction false} RecentlyNamed(blocks: seq<ParsedBlock>, n: nat, at: nat, h: Hash, sha: HashFunction)
    requires at < |blocks| && at >= |blocks| - n && h in NamedIn(blocks[at], sha)
    ensures h in NamedInAny(Recent(blocks, n), sha)
  {
    RecentAt(blocks, n, at);
    NamedAt(Recent(blocks, n), at - (|blocks| - |Recent(blocks, n)|), h, sha);
  }

  /** Hence it was named within the last `LongestAge` blocks. */
  lemma {:induction false} LiveMeansRecentlyNamed(s: State, blocks: seq<ParsedBlock>, h: Hash, sha: HashFunction)
    requires Valid(s) && Traced(s, blocks, sha) && h in s.pending
    ensures h in NamedInAny(Recent(blocks, LongestAge(s.config)), sha)
  {
    var p, n := s.pending[h], LongestAge(s.config);
    assert PendingOk(s, h) && TracedTo(p, h, blocks, s.config, sha);
    LiveIsYoungOrVoted(s, h);
    if p.votes > 0 {
      var j :| p.height < j < |blocks| && h in NamedIn(blocks[j], sha);
      RecentlyNamed(blocks, n, j, h, sha);
    } else {
      RecentlyNamed(blocks, n, p.height, h, sha);
    }
  }

  /** At rest there is always room for one more coinbase full of proposals. */
  lemma {:induction false} RoomForOneMoreBlock(s: State, blocks: seq<ParsedBlock>, sha: HashFunction)
    requires Valid(s) && Traced(s, blocks, sha) && GoodBlocks(blocks, sha)
    ensures |s.pending| <= MAX_OUTPUTS * LongestAge(s.config)
  {
    var recent := Recent(blocks, LongestAge(s.config));
    forall h | h in s.pending
      ensures h in NamedInAny(recent, sha)
    {
      LiveMeansRecentlyNamed(s, blocks, h, sha);
    }
    KeysBound(s.pending, NamedInAny(recent, sha));
    NamedCount(recent, sha);
    MulLe(|recent|, LongestAge(s.config), MAX_OUTPUTS);
  }

  lemma {:induction false} MidOfBlockIsTraced(s: State, b: ParsedBlock, blocks: seq<ParsedBlock>, sha: HashFunction)
    requires Valid(s) && Traced(s, blocks, sha) && GoodBlocks(blocks, sha) && Replayable(b)
    ensures var r := Messages(s.config, s.nextHeight, b.hash, Start(s), Scripts(b.coinbase.outputs), sha);
      && r != Err(PendingProposalLimitExceeded) && r != Err(VoteOverflow)
      && (r.Ok? ==> MidTraced(r.value, s, NamedIn(b, sha)))
  {
    RoomForOneMoreBlock(s, blocks, sha);
    forall h | h in s.pending
      ensures MidTracedTo(Start(s), h, s, {})
    {
      assert TracedTo(s.pending[h], h, blocks, s.config, sha) && PendingOk(s, h);
    }
    Distribute(LongestAge(s.config), 1, MAX_OUTPUTS);
    MessagesStayBounded(s, b.hash, Scripts(b.coinbase.outputs), sha);
  }

  lemma {:induction false} TraceAfter(s: State, b: ParsedBlock, blocks: seq<ParsedBlock>, mid: Mid, h: Hash, sha: HashFunction)
    requires Traced(s, blocks, sha) && MidTraced(mid, s, NamedIn(b, sha)) && h in mid.pending
    ensures TracedTo(mid.pending[h], h, blocks + [b], s.config, sha)
  {
    var p, all := mid.pending[h], blocks + [b];
    assert all[|blocks|] == b;
    assert MidTracedTo(mid, h, s, NamedIn(b, sha));
    if p.height < s.nextHeight {
      assert TracedTo(s.pending[h], h, blocks, s.config, sha);
      if p.votes > 0 && h !in NamedIn(b, sha) {
        var j :| s.pending[h].height < j < |blocks| && h in NamedIn(blocks[j], sha);
        assert all[j] == blocks[j];
      }
    }
  }

  lemma {:induction false} StepKeepsTrace(s: State, b: ParsedBlock, blocks: seq<ParsedBlock>, sha: HashFunction)
    requires Valid(s) && Traced(s, blocks, sha) && GoodBlocks(blocks, sha) && Replayable(b) && NonzeroHashes(b, sha)
    requires Step(s, b, sha).Ok?
    ensures Traced(Step(s, b, sha).value.0, blocks + [b], sha)
  {
    StepAcceptedIff(s, b, sha);
    MidOfBlockIsTraced(s, b, blocks, sha);
    ProcessErrors(s, b, sha);
    var p := Process(s, b, sha).value;
    forall h | h in p.pending
      ensures TracedTo(p.pending[h], h, blocks + [b], s.config, sha)
    {
      TraceAfter(s, b, blocks, p.mid, h, sha);
    }
  }

  lemma {:induction false} SplitLast(blocks: seq<ParsedBlock>) returns (init: seq<ParsedBlock>, last: ParsedBlock)
    requires blocks != []
    ensures blocks == init + [last] && init == blocks[..|blocks| - 1]
  {
    init, last := blocks[..|blocks| - 1], blocks[|blocks| - 1];
  }

  lemma {:induction false} RunSnoc(c: Config, init: seq<ParsedBlock>, last: ParsedBlock, sha: HashFunction)
    returns (before: State, effects: seq<Effects>, after: State, effect: Effects)
    requires Run(c, init + [last], sha).Ok?
    ensures Run(c, init, sha) == Ok((before, effects))
    ensures Step(before, last, sha) == Ok((after, effect))
    ensures Run(c, init + [last], sha) == Ok((after, effects + [effect]))
  {
    assert (init + [last])[..|init|] == init;
    var b, st := Run(c, init, sha).value, Step(Run(c, init, sha).value.0, last, sha).value;
    before, effects, after, effect := b.0, b.1, st.0, st.1;
  }

  lemma {:induction false} RunTraced(c: Config, blocks: seq<ParsedBlock>, sha: HashFunction)
    requires ValidConfig(c) && GoodBlocks(blocks, sha) && Run(c, blocks, sha).Ok?
    ensures Traced(Run(c, blocks, sha).value.0, blocks, sha)
  {
    if blocks != [] {
      var init, last := SplitLast(blocks);
      var before, effects, after, effect := RunSnoc(c, init, last, sha);
      RunTraced(c, init, sha);
      RunValid(c, init, sha);
      StepKeepsTrace(before, last, init, sha);
    }
  }

  /** The derived bound on pending proposals is never met, and votes never overflow, on any run from
      before genesis under any valid configuration. */
  lemma {:induction false} PendingLimitIsUnreachable(c: Config, blocks: seq<ParsedBlock>, b: ParsedBlock, sha: HashFunction)
    requires ValidConfig(c) && GoodBlocks(blocks, sha) && Replayable(b) && NonzeroHashes(b, sha)
    requires Run(c, blocks, sha).Ok?
    ensures var s := Run(c, blocks, sha).value.0;
      && Step(s, b, sha) != Err(PendingProposalLimitExceeded) && Step(s, b, sha) != Err(VoteOverflow)
      && |s.pending| <= MAX_OUTPUTS * LongestAge(c)
  {
    RunValid(c, blocks, sha);
    RunTraced(c, blocks, sha);
    var s := Run(c, blocks, sha).value.0;
    RoomForOneMoreBlock(s, blocks, sha);
    MidOfBlockIsTraced(s, b, blocks, sha);
    if Step(s, b, sha).Err? {
      RedundantChecksNeverFire(s, b, sha);
    }
  }

  // ----- votes are counted, and only votes activate -----

  /** The vote of a coinbase: accepted blocks have at most one. */
  function Vote(scripts: seq<Bytes>, sha: HashFunction): Option<Hash> {
    if scripts == [] then None
    else
      var before := Vote(scripts[..|scripts| - 1], sha);
      var message := ParseMessage(scripts[|scripts| - 1], sha);
      if before.None? && message.Some? && message.value.Ack? then Some(message.value.hash) else before
  }

  function VoteOf(b: ParsedBlock, sha: HashFunction): Option<Hash> {
    Vote(Scripts(b.coinbase.outputs), sha)
  }

  /** What a vote decides, given the state before its block. */
  function Elected(s: State, vote: Option<Hash>): Option<Hash> {
    if vote.Some? && vote.value in s.pending && s.pending[vote.value].votes + 1 > Threshold(s.config, s.active.Some?)
    then vote else s.active
  }

  /** A proposal after a block: new and without votes, or old with the block's vote added, which then
      did not take it above the threshold. */
  ghost predicate Tallied(s: State, p: Pending, vote: Option<Hash>, h: Hash) {
    && (p.height == s.nextHeight ==> p.votes == 0)
    && (p.height != s.nextHeight ==> h in s.pending && p.height == s.pending[h].height)
    && (p.height != s.nextHeight ==> p.votes == s.pending[h].votes + if vote == Some(h) then 1 else 0)
    && (p.height != s.nextHeight && vote == Some(h) ==> p.votes <= Threshold(s.config, s.active.Some?))
  }

  ghost predicate PolledAt(s: State, m: Mid, vote: Option<Hash>, h: Hash)
    requires h in m.pending
  {
    Tallied(s, m.pending[h], vote, h)
  }

  /** Messages read so far have counted the vote, if it came, and nothing else. */
  ghost predicate Polled(s: State, m: Mid, vote: Option<Hash>) {
    && (m.sawAck <==> vote.Some?)
    && m.active == Elected(s, vote)
    && (forall h :: h in m.pending ==> PolledAt(s, m, vote, h))
    && (forall h :: h in m.created ==> h !in s.pending || m.sawAck)
    && (!m.sawAck ==> forall h :: h in s.pending ==> h in m.pending && m.pending[h] == s.pending[h])
    && (forall h :: h in m.pending && h !in s.pending ==> h in m.created)
  }

  lemma {:induction false} ProposalKeepsPoll(s: State, m: Mid, vote: Option<Hash>, h: Hash)
    requires Polled(s, m, vote) && OnProposal(s.config, s.nextHeight, m, h).Ok?
    ensures Polled(s, OnProposal(s.config, s.nextHeight, m, h).value, vote)
  {
    var m' := OnProposal(s.config, s.nextHeight, m, h).value;
    forall g | g in m'.pending
      ensures PolledAt(s, m', vote, g)
    {
      if g in m.pending {
        assert PolledAt(s, m, vote, g);
      }
    }
  }

  lemma {:induction false} AckKeepsPoll(s: State, block: Hash, m: Mid, h: Hash)
    requires Valid(s) && Polled(s, m, None) && OnAck(s.config, s.nextHeight, block, m, h).Ok?
    ensures Polled(s, OnAck(s.config, s.nextHeight, block, m, h).value, Some(h))
  {
    var m' := OnAck(s.config, s.nextHeight, block, m, h).value;
    forall g | g in m'.pending
      ensures PolledAt(s, m', Some(h), g)
    {
      AckKeepsTally(s, block, m, h, g);
    }
  }

  lemma {:induction false} AckKeepsTally(s: State, block: Hash, m: Mid, h: Hash, g: Hash)
    requires Valid(s) && Polled(s, m, None) && OnAck(s.config, s.nextHeight, block, m, h).Ok?
    requires g in OnAck(s.config, s.nextHeight, block, m, h).value.pending
    ensures Tallied(s, OnAck(s.config, s.nextHeight, block, m, h).value.pending[g], Some(h), g)
  {
    AckedPending(s.config, s.nextHeight, block, m, h, g);
    assert PolledAt(s, m, None, g);
    if g in s.pending {
      assert PendingOk(s, g);
    }
  }

  /** A vote changes at most the proposal it names. */
  lemma {:induction false} AckedPending(c: Config, height: u32, block: Hash, m: Mid, h: Hash, g: Hash)
    requires OnAck(c, height, block, m, h).Ok? && g in OnAck(c, height, block, m, h).value.pending
    ensures g in m.pending
    ensures var p, counted := OnAck(c, height, block, m, h).value.pending[g], g == h && g !in m.created;
      && p.height == m.pending[g].height && p.votes == m.pending[g].votes + (if counted then 1 else 0)
      && (counted ==> p.votes <= Threshold(c, m.active.Some?))
  {
  }

  lemma {:induction false} MessagesArePolled(s: State, block: Hash, scripts: seq<Bytes>, sha: HashFunction)
    requires Valid(s) && Messages(s.config, s.nextHeight, block, Start(s), scripts, sha).Ok?
    ensures Polled(s, Messages(s.config, s.nextHeight, block, Start(s), scripts, sha).value, Vote(scripts, sha))
  {
    if scripts == [] {
      forall h | h in s.pending
        ensures PolledAt(s, Start(s), None, h)
      {
        assert PendingOk(s, h);
      }
    } else {
      var n := |scripts| - 1;
      MessagesArePolled(s, block, scripts[..n], sha);
      var before := Messages(s.config, s.nextHeight, block, Start(s), scripts[..n], sha).value;
      match ParseMessage(scripts[n], sha) {
        case None =>
        case Some(Proposal(h)) => ProposalKeepsPoll(s, before, Vote(scripts[..n], sha), h);
        case Some(Ack(h)) => AckKeepsPoll(s, block, before, h);
      }
    }
  }

  /** An accepted block changes the active proposal exactly when its vote takes a pending proposal
      above the threshold in force, and every proposal that stays pending has its votes counted. */
  lemma {:induction false} OnlyVotesActivate(s: State, b: ParsedBlock, sha: HashFunction)
    requires Valid(s) && Step(s, b, sha).Ok?
    ensures var after := Step(s, b, sha).value.0;
      && after.active == Elected(s, VoteOf(b, sha))
      && forall h :: h in after.pending ==> Tallied(s, after.pending[h], VoteOf(b, sha), h)
  {
    MessagesArePolled(s, b.hash, Scripts(b.coinbase.outputs), sha);
    var p := Process(s, b, sha).value;
    forall h | h in p.pending
      ensures PolledAt(s, p.mid, VoteOf(b, sha), h)
    {
    }
  }

  /** Votes for `h` from block `from` on. */
  function CountVotes(blocks: seq<ParsedBlock>, from: nat, h: Hash, sha: HashFunction): nat {
    if |blocks| <= from then 0
    else CountVotes(blocks[..|blocks| - 1], from, h, sha) + if VoteOf(blocks[|blocks| - 1], sha) == Some(h) then 1 else 0
  }

  lemma {:induction false} OneMoreVote(blocks: seq<ParsedBlock>, b: ParsedBlock, from: nat, h: Hash, sha: HashFunction)
    ensures CountVotes(blocks + [b], from, h, sha)
         == CountVotes(blocks, from, h, sha) + if from <= |blocks| && VoteOf(b, sha) == Some(h) then 1 else 0
  {
    assert (blocks + [b])[..|blocks|] == blocks;
    if from > |blocks| {
      assert CountVotes(blocks, from, h, sha) == 0;
    }
  }

  ghost predicate VotesCounted(s: State, blocks: seq<ParsedBlock>, sha: HashFunction) {
    s.nextHeight == |blocks| && forall h :: h in s.pending ==> AllVotesIn(s.pending[h], h, blocks, sha)
  }

  ghost predicate AllVotesIn(p: Pending, h: Hash, blocks: seq<ParsedBlock>, sha: HashFunction) {
    p.height < |blocks| && p.votes == CountVotes(blocks, p.height + 1, h, sha)
  }

  lemma {:induction false} TallyCounts(s: State, p: Pending, h: Hash, b: ParsedBlock, blocks: seq<ParsedBlock>, sha: HashFunction)
    requires VotesCounted(s, blocks, sha) && Tallied(s, p, VoteOf(b, sha), h)
    ensures AllVotesIn(p, h, blocks + [b], sha)
  {
    var from := p.height + 1;
    if p.height == s.nextHeight {
      assert CountVotes(blocks + [b], from, h, sha) == 0;
    } else {
      OneMoreVote(blocks, b, from, h, sha);
      assert AllVotesIn(s.pending[h], h, blocks, sha);
      assert CountVotes(blocks + [b], from, h, sha) == p.votes;
    }
  }

  lemma {:induction false} StepCountsVotes(s: State, b: ParsedBlock, blocks: seq<ParsedBlock>, sha: HashFunction)
    requires Valid(s) && Step(s, b, sha).Ok? && VotesCounted(s, blocks, sha)
    ensures VotesCounted(Step(s, b, sha).value.0, blocks + [b], sha)
  {
    var after := Step(s, b, sha).value.0;
    OnlyVotesActivate(s, b, sha);
    StepAdvances(s, b, sha);
    forall h | h in after.pending
      ensures AllVotesIn(after.pending[h], h, blocks + [b], sha)
    {
      TallyCounts(s, after.pending[h], h, b, blocks, sha);
    }
  }

  lemma {:induction false} StepAdvances(s: State, b: ParsedBlock, sha: HashFunction)
    requires Step(s, b, sha).Ok?
    ensures Step(s, b, sha).value.0.nextHeight == s.nextHeight + 1 && Step(s, b, sha).value.0.config == s.config
  {
  }

  /** On every run, the votes of a pending proposal are exactly the votes cast for it after its
      creation; so whatever is activated has more of them than the threshold in force. */
  lemma {:induction false} RunCountsVotes(c: Config, blocks: seq<ParsedBlock>, sha: HashFunction)
    requires ValidConfig(c) && GoodBlocks(blocks, sha) && Run(c, blocks, sha).Ok?
    ensures VotesCounted(Run(c, blocks, sha).value.0, blocks, sha)
  {
    if blocks != [] {
      var init, last := SplitLast(blocks);
      var before, effects, after, effect := RunSnoc(c, init, last, sha);
      RunCountsVotes(c, init, sha);
      RunValid(c, init, sha);
      StepCountsVotes(before, last, init, sha);
    }
  }

  /** The proposal was pending, got the block's vote, and is above the threshold with it. */
  ghost predicate VotedIn(s: State, blocks: seq<ParsedBlock>, b: ParsedBlock, h: Hash, sha: HashFunction) {
    && h in s.pending && VoteOf(b, sha) == Some(h) && s.pending[h].height < |blocks|
    && CountVotes(blocks + [b], s.pending[h].height + 1, h, sha) > Threshold(s.config, s.active.Some?)
  }

  lemma {:induction false} StepActivation(s: State, blocks: seq<ParsedBlock>, b: ParsedBlock, sha: HashFunction)
    requires Valid(s) && VotesCounted(s, blocks, sha) && Step(s, b, sha).Ok?
    ensures var active := Step(s, b, sha).value.0.active;
      active != s.active ==> active.Some? && VotedIn(s, blocks, b, active.value, sha)
  {
    OnlyVotesActivate(s, b, sha);
    if Elected(s, VoteOf(b, sha)) != s.active {
      ElectedIsVotedIn(s, blocks, b, VoteOf(b, sha).value, sha);
    }
  }

  lemma {:induction false} ElectedIsVotedIn(s: State, blocks: seq<ParsedBlock>, b: ParsedBlock, h: Hash, sha: HashFunction)
    requires VotesCounted(s, blocks, sha) && VoteOf(b, sha) == Some(h) && h in s.pending
    requires s.pending[h].votes + 1 > Threshold(s.config, s.active.Some?)
    ensures VotedIn(s, blocks, b, h, sha)
  {
    assert AllVotesIn(s.pending[h], h, blocks, sha);
    OneMoreVote(blocks, b, s.pending[h].height + 1, h, sha);
  }

  lemma {:induction false} ActivationHasItsVotes(c: Config, blocks: seq<ParsedBlock>, b: ParsedBlock, sha: HashFunction)
    requires ValidConfig(c) && GoodBlocks(blocks, sha) && Run(c, blocks, sha).Ok?
    requires Step(Run(c, blocks, sha).value.0, b, sha).Ok?
    ensures var s := Run(c, blocks, sha).value.0;
      var active := Step(s, b, sha).value.0.active;
      active != s.active ==> active.Some? && VotedIn(s, blocks, b, active.value, sha)
  {
    RunValid(c, blocks, sha);
    RunCountsVotes(c, blocks, sha);
    StepActivation(Run(c, blocks, sha).value.0, blocks, b, sha);
  }

  // ----- how many proposals, and how old -----

  /** No proposal keeps more votes than the threshold in force. */
  ghost predicate WithinThreshold(s: State) {
    forall h :: h in s.pending ==> s.pending[h].votes <= Threshold(s.config, s.active.Some?)
  }

  lemma {:induction false} StepKeepsWithin(s: State, b: ParsedBlock, sha: HashFunction)
    requires Valid(s) && s.config.unusedThreshold <= s.config.usedThreshold && WithinThreshold(s) && Step(s, b, sha).Ok?
    ensures WithinThreshold(Step(s, b, sha).value.0)
  {
    OnlyVotesActivate(s, b, sha);
    StepAdvances(s, b, sha);
    var after := Step(s, b, sha).value.0;
    forall h | h in after.pending
      ensures after.pending[h].votes <= Threshold(after.config, after.active.Some?)
    {
      assert Tallied(s, after.pending[h], VoteOf(b, sha), h);
    }
  }

  lemma {:induction false} RunWithin(c: Config, blocks: seq<ParsedBlock>, sha: HashFunction)
    requires ValidConfig(c) && c.unusedThreshold <= c.usedThreshold && GoodBlocks(blocks, sha) && Run(c, blocks, sha).Ok?
    ensures WithinThreshold(Run(c, blocks, sha).value.0)
  {
    if blocks != [] {
      var init, last := SplitLast(blocks);
      var before, effects, after, effect := RunSnoc(c, init, last, sha);
      RunWithin(c, init, sha);
      RunValid(c, init, sha);
      StepKeepsWithin(before, last, sha);
    }
  }

  lemma {:induction false} WithinMeansYoung(s: State, h: Hash)
    requires Valid(s) && s.nextHeight > 0 && h in s.pending && PendingOk(s, h)
    requires s.pending[h].votes <= Threshold(s.config, s.active.Some?)
    ensures s.nextHeight - MaxAge(s.config, s.active.Some?) <= s.pending[h].height < s.nextHeight
  {
  }

  /** When the unused threshold is not above the used one, a proposal of the full age has run out of
      misses: on every run only as many creation heights are live as the age in force. */
  lemma {:induction false} LiveHeights(c: Config, blocks: seq<ParsedBlock>, h: Hash, sha: HashFunction)
    requires ValidConfig(c) && c.unusedThreshold <= c.usedThreshold && GoodBlocks(blocks, sha) && Run(c, blocks, sha).Ok?
    requires h in Run(c, blocks, sha).value.0.pending
    ensures var s := Run(c, blocks, sha).value.0;
      && |blocks| - MaxAge(c, s.active.Some?) <= s.pending[h].height < |blocks|
      && s.pending[h].votes <= Threshold(c, s.active.Some?)
  {
    var s := Run(c, blocks, sha).value.0;
    RunValid(c, blocks, sha);
    RunWithin(c, blocks, sha);
    assert PendingOk(s, h);
    WithinMeansYoung(s, h);
  }

  /** Proposals that got the vote of some block. */
  function VotedInAny(blocks: seq<ParsedBlock>, sha: HashFunction): set<Hash> {
    if blocks == [] then {}
    else
      var vote := VoteOf(blocks[|blocks| - 1], sha);
      VotedInAny(blocks[..|blocks| - 1], sha) + if vote.Some? then {vote.value} else {}
  }

  lemma {:induction false} OneVotePerBlock(blocks: seq<ParsedBlock>, sha: HashFunction)
    ensures |VotedInAny(blocks, sha)| <= |blocks|
  {
    if blocks != [] {
      OneVotePerBlock(blocks[..|blocks| - 1], sha);
    }
  }

  lemma {:induction false} VotedAt(blocks: seq<ParsedBlock>, j: nat, h: Hash, sha: HashFunction)
    requires j < |blocks| && VoteOf(blocks[j], sha) == Some(h)
    ensures h in VotedInAny(blocks, sha)
  {
    if j < |blocks| - 1 {
      VotedAt(blocks[..|blocks| - 1], j, h, sha);
    }
  }

  lemma {:induction false} SomeVote(blocks: seq<ParsedBlock>, from: nat, h: Hash, sha: HashFunction) returns (j: nat)
    requires CountVotes(blocks, from, h, sha) > 0
    ensures from <= j < |blocks| && VoteOf(blocks[j], sha) == Some(h)
  {
    var n := |blocks| - 1;
    if VoteOf(blocks[n], sha) == Some(h) {
      j := n;
    } else {
      j := SomeVote(blocks[..n], from, h, sha);
    }
  }

  /** Past its allowance of misses a proposal lives on votes, all of them recent. */
  lemma {:induction false} OldMeansVoted(s: State, blocks: seq<ParsedBlock>, h: Hash, sha: HashFunction)
    requires Valid(s) && VotesCounted(s, blocks, sha) && h in s.pending
    requires s.pending[h].height < |blocks| - 1 - MaxFails(s.config, s.active.Some?)
    ensures h in VotedInAny(Recent(blocks, LongestAge(s.config)), sha)
  {
    OldHasVotes(s, h);
    assert AllVotesIn(s.pending[h], h, blocks, sha);
    var j := SomeVote(blocks, s.pending[h].height + 1, h, sha);
    RecentlyVoted(blocks, LongestAge(s.config), j, h, sha);
  }

  lemma {:induction false} OldHasVotes(s: State, h: Hash)
    requires Valid(s) && h in s.pending && s.pending[h].height < s.nextHeight - 1 - MaxFails(s.config, s.active.Some?)
    ensures s.pending[h].votes > 0 && s.pending[h].height + 1 >= s.nextHeight - LongestAge(s.config)
  {
    assert PendingOk(s, h);
    LiveIsYoungOrVoted(s, h);
  }

  lemma {:induction false} RecentlyVoted(blocks: seq<ParsedBlock>, n: nat, at: nat, h: Hash, sha: HashFunction)
    requires at < |blocks| <= at + n && VoteOf(blocks[at], sha) == Some(h)
    ensures h in VotedInAny(Recent(blocks, n), sha)
  {
    RecentAt(blocks, n, at);
    VotedAt(Recent(blocks, n), at - (|blocks| - |Recent(blocks, n)|), h, sha);
  }

  /** What the source's bound leaves out of account: the old proposals are those that got votes, at
      most one a block, and all the others were created while misses were still allowed. */
  lemma {:induction false} PendingAtRest(c: Config, blocks: seq<ParsedBlock>, sha: HashFunction)
    requires ValidConfig(c) && GoodBlocks(blocks, sha) && Run(c, blocks, sha).Ok?
    ensures var s := Run(c, blocks, sha).value.0;
      |s.pending| <= MAX_OUTPUTS * (MaxFails(c, s.active.Some?) + 1) + LongestAge(c)
  {
    var s := Run(c, blocks, sha).value.0;
    RunValid(c, blocks, sha);
    RunTraced(c, blocks, sha);
    RunCountsVotes(c, blocks, sha);
    var young: nat := MaxFails(c, s.active.Some?) + 1;
    PendingInTwoSets(s, blocks, young, sha);
    TwoSetsBound(s.pending, blocks, young, LongestAge(c), sha);
  }

  lemma {:induction false} YoungOrVoted(s: State, blocks: seq<ParsedBlock>, young: nat, h: Hash, sha: HashFunction)
    requires Valid(s) && Traced(s, blocks, sha) && VotesCounted(s, blocks, sha) && h in s.pending
    requires young == MaxFails(s.config, s.active.Some?) + 1
    ensures h in NamedInAny(Recent(blocks, young), sha) || h in VotedInAny(Recent(blocks, LongestAge(s.config)), sha)
  {
    var at := s.pending[h].height;
    assert TracedTo(s.pending[h], h, blocks, s.config, sha);
    if at < |blocks| - young {
      OldMeansVoted(s, blocks, h, sha);
    } else {
      RecentlyNamed(blocks, young, at, h, sha);
    }
  }

  lemma {:induction false} PendingInTwoSets(s: State, blocks: seq<ParsedBlock>, young: nat, sha: HashFunction)
    requires Valid(s) && Traced(s, blocks, sha) && VotesCounted(s, blocks, sha)
    requires young == MaxFails(s.config, s.active.Some?) + 1
    ensures forall h :: h in s.pending ==>
      h in NamedInAny(Recent(blocks, young), sha) + VotedInAny(Recent(blocks, LongestAge(s.config)), sha)
  {
    forall h | h in s.pending
      ensures h in NamedInAny(Recent(blocks, young), sha) + VotedInAny(Recent(blocks, LongestAge(s.config)), sha)
    {
      YoungOrVoted(s, blocks, young, h, sha);
    }
  }

  lemma {:induction false} TwoSetsBound(pending: map<Hash, Pending>, blocks: seq<ParsedBlock>, young: nat, voted: nat, sha: HashFunction)
    requires GoodBlocks(blocks, sha)
    requires forall h :: h in pending ==> h in NamedInAny(Recent(blocks, young), sha) + VotedInAny(Recent(blocks, voted), sha)
    ensures |pending| <= MAX_OUTPUTS * young + voted
  {
    var named, votes := NamedInAny(Recent(blocks, young), sha), VotedInAny(Recent(blocks, voted), sha);
    KeysBound(pending, named + votes);
    NamedCount(Recent(blocks, young), sha);
    OneVotePerBlock(Recent(blocks, voted), sha);
    MulLe(|Recent(blocks, young)|, young, MAX_OUTPUTS);
  }

  /** On every run of the Elements network: at rest at most ten creation heights are live, so at most
      eleven while a block is read, and at most 666,676 proposals pend, far below the limit. */
  lemma {:induction false} ElementsV1Runs(requiredProposal: Hash, blocks: seq<ParsedBlock>, sha: HashFunction)
    requires requiredProposal != ZERO_HASH
    requires GoodBlocks(blocks, sha) && Run(ElementsV1(requiredProposal), blocks, sha).Ok?
    ensures var s := Run(ElementsV1(requiredProposal), blocks, sha).value.0;
      && |s.pending| <= 666_676
      && (forall h :: h in s.pending ==> |blocks| - 10 <= s.pending[h].height < |blocks| && s.pending[h].votes <= 5)
      && MaxPending(ElementsV1(requiredProposal)) == 1_222_221
  {
    var c := ElementsV1(requiredProposal);
    PendingAtRest(c, blocks, sha);
    forall h | h in Run(c, blocks, sha).value.0.pending
      ensures |blocks| - 10 <= Run(c, blocks, sha).value.0.pending[h].height < |blocks|
      ensures Run(c, blocks, sha).value.0.pending[h].votes <= 5
    {
      LiveHeights(c, blocks, h, sha);
    }
  }

  // ----- the required proposal is permanent -----

  lemma {:induction false} MessagesKeepRequired(c: Config, t: u32, block: Hash, m: Mid, scripts: seq<Bytes>, sha: HashFunction)
    requires m.required.Some? && m.active == Some(c.requiredProposal)
    requires Messages(c, t, block, m, scripts, sha).Ok?
    ensures Messages(c, t, block, m, scripts, sha).value.required == m.required
    ensures Messages(c, t, block, m, scripts, sha).value.active == m.active
  {
    if scripts != [] {
      MessagesKeepRequired(c, t, block, m, scripts[..|scripts| - 1], sha);
    }
  }

  /** From `s`, the blocks are applied one after another. */
  function Continue(s: State, blocks: seq<ParsedBlock>, sha: HashFunction): Outcome<State> {
    if blocks == [] then Ok(s)
    else
      var before :- Continue(s, blocks[..|blocks| - 1], sha);
      var step :- Step(before, blocks[|blocks| - 1], sha);
      Ok(step.0)
  }

  /** Once active, the required proposal stays active with the same activation record on every
      accepted continuation, from any valid state. */
  lemma {:induction false} RequiredIsPermanent(s: State, blocks: seq<ParsedBlock>, sha: HashFunction)
    requires Valid(s) && s.required.Some? && GoodBlocks(blocks, sha) && Continue(s, blocks, sha).Ok?
    ensures var after := Continue(s, blocks, sha).value;
      && Valid(after) && after.config == s.config
      && after.required == s.required && after.active == Some(s.config.requiredProposal)
  {
    if blocks != [] {
      var n := |blocks| - 1;
      RequiredIsPermanent(s, blocks[..n], sha);
      var before := Continue(s, blocks[..n], sha).value;
      StepAcceptedIff(before, blocks[n], sha);
      ProcessErrors(before, blocks[n], sha);
      MessagesKeepRequired(s.config, before.nextHeight, blocks[n].hash, Start(before), Scripts(blocks[n].coinbase.outputs), sha);
    }
  }

  // ----- the singleton treasury -----

  /** Unspent outputs and their values. */
  type Coins = map<Bytes, nat>

  function OutpointOf(txid: Hash, index: nat): Bytes {
    txid + LittleEndian(index, 4)
  }

  /** Treasury outputs that a transaction creates. */
  function Created(txid: Hash, outputs: seq<TxOut>): Coins {
    if outputs == [] then map[]
    else
      var n := |outputs| - 1;
      var before := Created(txid, outputs[..n]);
      if outputs[n].script == TREASURY_SCRIPT then before[OutpointOf(txid, n) := Amount(outputs[n])] else before
  }

  /** The unspent treasury outputs after a transaction: its inputs go, the ones it creates come. */
  function CoinsAfterOne(coins: Coins, tx: ParsedTransaction, slotActive: bool): Coins {
    (map o | o in coins && o !in tx.inputs :: coins[o]) + if slotActive then Created(tx.txid, tx.outputs) else map[]
  }

  function CoinsAfter(coins: Coins, txs: seq<ParsedTransaction>, slotActive: bool): Coins {
    if txs == [] then coins else CoinsAfterOne(CoinsAfter(coins, txs[..|txs| - 1], slotActive), txs[|txs| - 1], slotActive)
  }

  function CtipCoins(ctip: Option<Ctip>): Coins {
    if ctip.None? then map[] else map[CtipOutpoint(ctip.value) := ctip.value.value]
  }

  lemma {:induction false} CreatedIsTreasury(txid: Hash, outputs: seq<TxOut>)
    requires Treasury(outputs).Ok?
    ensures Treasury(outputs).value.None? ==> Created(txid, outputs) == map[]
    ensures Treasury(outputs).value.Some? ==>
      var i := Treasury(outputs).value.value;
      i < |outputs| && Created(txid, outputs) == map[OutpointOf(txid, i) := Amount(outputs[i])]
  {
    if outputs != [] {
      CreatedIsTreasury(txid, outputs[..|outputs| - 1]);
    }
  }

  /** The deposit that a move of the treasury from `before` to `after` stands for. */
  function Rise(x: Context, before: Ledger, after: Ledger, address: Bytes): Deposit
    requires after.ctip.Some? && OldValue(before) <= OldValue(after)
  {
    Deposit(after.ctip.value, x.block, x.height, OldValue(after) - OldValue(before), address)
  }

  /** The treasury moves only upwards; at most one deposit is recorded, for exactly the rise, and only
      when it moves while the required proposal is active. */
  ghost predicate Rises(x: Context, before: Ledger, after: Ledger, address: Bytes) {
    if after.ctip == before.ctip then after.deposits == before.deposits
    else
      && after.ctip.Some? && OldValue(before) < OldValue(after)
      && after.deposits == if x.requiredActive && 0 < |address| <= 128 then before.deposits + [Rise(x, before, after, address)]
                           else before.deposits
  }

  /** The treasury moved to output `index` of `tx`, the only treasury output, whose address follows it. */
  ghost predicate MovedTo(l: Ledger, tx: ParsedTransaction, index: nat, address: Bytes) {
    && Treasury(tx.outputs) == Ok(Some(index)) && index <= U32_MAX && index < |tx.outputs|
    && l.ctip == Some(Ctip(tx.txid, index, Amount(tx.outputs[index])))
    && AddressAfter(tx, index) == Some(address)
  }

  lemma {:induction false} MoveRises(x: Context, l: Ledger, tx: ParsedTransaction, index: nat) returns (address: Bytes)
    requires index < |tx.outputs| && Treasury(tx.outputs) == Ok(Some(index)) && Move(x, l, tx, index).Ok?
    ensures Rises(x, l, Move(x, l, tx, index).value, address)
    ensures MovedTo(Move(x, l, tx, index).value, tx, index, address)
  {
    address := AddressAfter(tx, index).value;
  }

  lemma {:induction false} TransactionRises(x: Context, l: Ledger, tx: ParsedTransaction) returns (index: nat, address: Bytes)
    requires OnTransaction(x, l, tx).Ok?
    ensures Rises(x, l, OnTransaction(x, l, tx).value, address)
    ensures OnTransaction(x, l, tx).value.ctip != l.ctip ==> MovedTo(OnTransaction(x, l, tx).value, tx, index, address)
  {
    index, address := 0, [];
    var requested := OnM8(x, l, tx).value;
    if x.slotActive && OnTreasury(x, requested, tx).value.ctip != l.ctip {
      TreasuryIndex(tx.outputs);
      index := Treasury(tx.outputs).value.value;
      address := MoveRises(x, requested, tx, index);
    } else {
      NoMove(x, requested, tx);
    }
  }

  lemma {:induction false} NoMove(x: Context, l: Ledger, tx: ParsedTransaction)
    ensures OnTreasury(x, l, tx).Ok? && OnTreasury(x, l, tx).value.ctip == l.ctip ==> OnTreasury(x, l, tx).value == l
  {
    TreasuryIndex(tx.outputs);
  }

  lemma {:induction false} TreasuryKeepsSingleton(x: Context, l: Ledger, tx: ParsedTransaction)
    requires ReplayableTransaction(tx) && OnTreasury(x, l, tx).Ok?
    ensures CoinsAfterOne(CtipCoins(l.ctip), tx, true) == CtipCoins(OnTreasury(x, l, tx).value.ctip)
  {
    TreasuryIndex(tx.outputs);
    CreatedIsTreasury(tx.txid, tx.outputs);
    if l.ctip.Some? {
      SpendsAtMostOnce(tx.inputs, l.ctip.value);
    }
  }

  lemma {:induction false} TransactionKeepsSingleton(x: Context, l: Ledger, tx: ParsedTransaction)
    requires LedgerOk(x, l) && ReplayableTransaction(tx) && OnTransaction(x, l, tx).Ok?
    ensures CoinsAfterOne(CtipCoins(l.ctip), tx, x.slotActive) == CtipCoins(OnTransaction(x, l, tx).value.ctip)
  {
    if x.slotActive {
      TreasuryKeepsSingleton(x, OnM8(x, l, tx).value, tx);
    }
  }

  lemma {:induction false} TransactionsKeepSingleton(x: Context, l: Ledger, txs: seq<ParsedTransaction>)
    requires LedgerOk(x, l) && Transactions(x, l, txs).Ok?
    requires forall k :: 0 <= k < |txs| ==> ReplayableTransaction(txs[k]) && txs[k].txid != ZERO_HASH
    ensures CoinsAfter(CtipCoins(l.ctip), txs, x.slotActive) == CtipCoins(Transactions(x, l, txs).value.ctip)
  {
    if txs != [] {
      var init, last := txs[..|txs| - 1], txs[|txs| - 1];
      TransactionsKeepSingleton(x, l, init);
      TransactionsKeepLedger(x, l, init);
      TransactionKeepsSingleton(x, Transactions(x, l, init).value, last);
    }
  }

  /** Unspent treasury outputs of non-coinbase transactions since activation. */
  ghost function RunCoins(c: Config, blocks: seq<ParsedBlock>, sha: HashFunction): Coins
    requires Run(c, blocks, sha).Ok?
  {
    if blocks == [] then map[]
    else CoinsAfter(RunCoins(c, blocks[..|blocks| - 1], sha), Others(blocks[|blocks| - 1]),
                    Run(c, blocks, sha).value.0.active.Some?)
  }

  lemma {:induction false} StepKeepsSingleton(s: State, b: ParsedBlock, sha: HashFunction)
    requires Valid(s) && Replayable(b) && NonzeroHashes(b, sha) && Step(s, b, sha).Ok?
    ensures var after := Step(s, b, sha).value.0;
      CoinsAfter(CtipCoins(s.ctip), Others(b), after.active.Some?) == CtipCoins(after.ctip)
  {
    StepAcceptedIff(s, b, sha);
    ProcessErrors(s, b, sha);
    MidOfStep(s, b, sha, true);
    var p := Process(s, b, sha).value;
    TransactionsKeepSingleton(ContextOf(s, b, p.mid, p.m7), Ledger(s.ctip, [], 0), Others(b));
  }

  /** On every accepted run, the treasury outputs that are unspent are exactly the recorded one, with
      its recorded value, or none. */
  lemma {:induction false} TreasuryIsSingleton(c: Config, blocks: seq<ParsedBlock>, sha: HashFunction)
    requires ValidConfig(c) && GoodBlocks(blocks, sha) && Run(c, blocks, sha).Ok?
    ensures RunCoins(c, blocks, sha) == CtipCoins(Run(c, blocks, sha).value.0.ctip)
  {
    if blocks != [] {
      var init, last := SplitLast(blocks);
      var before, effects, after, effect := RunSnoc(c, init, last, sha);
      TreasuryIsSingleton(c, init, sha);
      RunValid(c, init, sha);
      StepKeepsSingleton(before, last, sha);
    }
  }

  // ----- conservation -----

  function DepositSum(deposits: seq<Deposit>): nat {
    if deposits == [] then 0 else DepositSum(deposits[..|deposits| - 1]) + deposits[|deposits| - 1].value
  }

  /** Deposits occupy disjoint stretches of the treasury's value, in order, none above `top`. */
  ghost predicate Stacked(deposits: seq<Deposit>, top: nat) {
    deposits == []
    || (var last := deposits[|deposits| - 1];
        && 0 < last.value <= last.outpoint.value <= top
        && Stacked(deposits[..|deposits| - 1], last.outpoint.value - last.value))
  }

  lemma {:induction false} StackedHigher(deposits: seq<Deposit>, low: nat, high: nat)
    requires Stacked(deposits, low) && low <= high
    ensures Stacked(deposits, high)
  {
  }

  lemma {:induction false} StackedSum(deposits: seq<Deposit>, top: nat)
    requires Stacked(deposits, top)
    ensures DepositSum(deposits) <= top
  {
    if deposits != [] {
      var last := deposits[|deposits| - 1];
      StackedSum(deposits[..|deposits| - 1], last.outpoint.value - last.value);
    }
  }

  lemma {:induction false} StackedBelow(deposits: seq<Deposit>, top: nat, i: nat)
    requires Stacked(deposits, top) && i < |deposits|
    ensures deposits[i].outpoint.value <= top
  {
    if i < |deposits| - 1 {
      var last := deposits[|deposits| - 1];
      StackedBelow(deposits[..|deposits| - 1], last.outpoint.value - last.value, i);
    }
  }

  /** Later deposits stand at strictly higher treasury values. */
  lemma {:induction false} StackedIncreases(deposits: seq<Deposit>, top: nat, i: nat, j: nat)
    requires Stacked(deposits, top) && i < j < |deposits|
    ensures deposits[i].outpoint.value < deposits[j].outpoint.value
  {
    var last := deposits[|deposits| - 1];
    var init := deposits[..|deposits| - 1];
    if j < |deposits| - 1 {
      StackedIncreases(init, last.outpoint.value - last.value, i, j);
    } else {
      StackedBelow(init, last.outpoint.value - last.value, i);
    }
  }

  lemma {:induction false} RisesKeepsStack(x: Context, l: Ledger, l': Ledger, address: Bytes, earlier: seq<Deposit>)
    requires Rises(x, l, l', address) && Stacked(earlier + l.deposits, OldValue(l))
    ensures Stacked(earlier + l'.deposits, OldValue(l'))
  {
    if l'.deposits == l.deposits {
      StackedHigher(earlier + l.deposits, OldValue(l), OldValue(l'));
    } else {
      var n := |l'.deposits| - 1;
      var all := earlier + l'.deposits;
      assert all[|all| - 1] == l'.deposits[n] && all[..|all| - 1] == earlier + l.deposits;
    }
  }

  lemma {:induction false} TransactionsKeepStack(x: Context, l: Ledger, txs: seq<ParsedTransaction>, earlier: seq<Deposit>)
    requires Transactions(x, l, txs).Ok? && Stacked(earlier + l.deposits, OldValue(l))
    ensures Stacked(earlier + Transactions(x, l, txs).value.deposits, OldValue(Transactions(x, l, txs).value))
    ensures OldValue(l) <= OldValue(Transactions(x, l, txs).value)
    ensures l.ctip.Some? ==> Transactions(x, l, txs).value.ctip.Some?
    ensures Transactions(x, l, txs).value.ctip != l.ctip ==> OldValue(l) < OldValue(Transactions(x, l, txs).value)
  {
    if txs != [] {
      var init, last := txs[..|txs| - 1], txs[|txs| - 1];
      TransactionsKeepStack(x, l, init, earlier);
      var before := Transactions(x, l, init).value;
      var index, address := TransactionRises(x, before, last);
      RisesKeepsStack(x, before, OnTransaction(x, before, last).value, address, earlier);
    }
  }

  function AllDeposits(effects: seq<Effects>): seq<Deposit> {
    if effects == [] then [] else AllDeposits(effects[..|effects| - 1]) + effects[|effects| - 1].deposits
  }

  function TreasuryValue(s: State): nat {
    if s.ctip.Some? then s.ctip.value.value else 0
  }

  lemma {:induction false} StepLedger(s: State, b: ParsedBlock, sha: HashFunction) returns (x: Context, ledger: Ledger)
    requires Step(s, b, sha).Ok?
    ensures Transactions(x, Ledger(s.ctip, [], 0), Others(b)) == Ok(ledger)
    ensures Step(s, b, sha).value.0.ctip == ledger.ctip && Step(s, b, sha).value.1.deposits == ledger.deposits
  {
    var p := Process(s, b, sha).value;
    x, ledger := ContextOf(s, b, p.mid, p.m7), p.ledger;
  }

  lemma {:induction false} StepKeepsStack(s: State, b: ParsedBlock, sha: HashFunction, earlier: seq<Deposit>)
    requires Step(s, b, sha).Ok? && Stacked(earlier, TreasuryValue(s))
    ensures var (after, effects) := Step(s, b, sha).value;
      && Stacked(earlier + effects.deposits, TreasuryValue(after))
      && (s.ctip.Some? ==> after.ctip.Some?)
      && (after.ctip != s.ctip ==> TreasuryValue(s) < TreasuryValue(after))
  {
    var x, ledger := StepLedger(s, b, sha);
    assert earlier + [] == earlier;
    TransactionsKeepStack(x, Ledger(s.ctip, [], 0), Others(b), earlier);
  }

  /** On every run, the mintable deposits are disjoint rises of the treasury: their treasury values
      strictly increase and they sum to at most its value, which never exceeds the money supply. */
  lemma {:induction false} DepositsAreBacked(c: Config, blocks: seq<ParsedBlock>, sha: HashFunction)
    requires ValidConfig(c) && GoodBlocks(blocks, sha) && Run(c, blocks, sha).Ok?
    ensures Stacked(AllDeposits(Run(c, blocks, sha).value.1), TreasuryValue(Run(c, blocks, sha).value.0))
    ensures DepositSum(AllDeposits(Run(c, blocks, sha).value.1)) <= TreasuryValue(Run(c, blocks, sha).value.0) <= MAX_MONEY
  {
    RunStacks(c, blocks, sha);
    RunValid(c, blocks, sha);
    var (s, effects) := Run(c, blocks, sha).value;
    StackedSum(AllDeposits(effects), TreasuryValue(s));
  }

  lemma {:induction false} RunStacks(c: Config, blocks: seq<ParsedBlock>, sha: HashFunction)
    requires Run(c, blocks, sha).Ok?
    ensures Stacked(AllDeposits(Run(c, blocks, sha).value.1), TreasuryValue(Run(c, blocks, sha).value.0))
  {
    if blocks != [] {
      var init, last := SplitLast(blocks);
      var before, effects, after, effect := RunSnoc(c, init, last, sha);
      RunStacks(c, init, sha);
      StepKeepsStack(before, last, sha, AllDeposits(effects));
      NextDeposits(effects, effect);
    }
  }

  lemma {:induction false} NextDeposits(effects: seq<Effects>, effect: Effects)
    ensures AllDeposits(effects + [effect]) == AllDeposits(effects) + effect.deposits
  {
    assert (effects + [effect])[..|effects|] == effects;
  }

  /** The deposit names an output of one of these transactions, with that output's value. */
  ghost predicate NamesOutput(d: Deposit, txs: seq<ParsedTransaction>, k: nat) {
    && k < |txs| && d.outpoint.txid == txs[k].txid && d.outpoint.vout < |txs[k].outputs|
    && d.outpoint.value == Amount(txs[k].outputs[d.outpoint.vout])
  }

  lemma {:induction false} DepositOrigin(x: Context, l: Ledger, txs: seq<ParsedTransaction>, d: Deposit) returns (k: nat)
    requires Transactions(x, l, txs).Ok? && d in Transactions(x, l, txs).value.deposits && d !in l.deposits
    ensures NamesOutput(d, txs, k)
  {
    var init, last := txs[..|txs| - 1], txs[|txs| - 1];
    var before := Transactions(x, l, init).value;
    if d in before.deposits {
      k := DepositOrigin(x, l, init, d);
      assert txs[k] == init[k];
    } else {
      var index, address := TransactionRises(x, before, last);
      k := |txs| - 1;
    }
  }

  lemma {:induction false} RunDepositOrigin(c: Config, blocks: seq<ParsedBlock>, sha: HashFunction, i: nat)
    returns (j: nat, k: nat)
    requires Run(c, blocks, sha).Ok? && i < |AllDeposits(Run(c, blocks, sha).value.1)|
    ensures j < |blocks| && NamesOutput(AllDeposits(Run(c, blocks, sha).value.1)[i], Others(blocks[j]), k)
  {
    var init, last := SplitLast(blocks);
    var before, effects, after, effect := RunSnoc(c, init, last, sha);
    NextDeposits(effects, effect);
    var earlier := AllDeposits(effects);
    if i < |earlier| {
      j, k := RunDepositOrigin(c, init, sha, i);
      assert blocks[j] == init[j];
    } else {
      var x, ledger := StepLedger(before, last, sha);
      j := |init|;
      k := DepositOrigin(x, Ledger(before.ctip, [], 0), Others(last), effect.deposits[i - |earlier|]);
    }
  }

  // ----- the treasury value is everything that flowed in -----

  function TreasuryOut(outputs: seq<TxOut>): nat {
    if outputs == [] then 0
    else
      var n := |outputs| - 1;
      TreasuryOut(outputs[..n]) + if outputs[n].script == TREASURY_SCRIPT then Amount(outputs[n]) else 0
  }

  function CoinsSpent(coins: Coins, inputs: seq<Outpoint>): nat {
    if inputs == [] then 0
    else
      var n := |inputs| - 1;
      CoinsSpent(coins, inputs[..n]) + if inputs[n] in coins then coins[inputs[n]] else 0
  }

  /** Treasury outputs created less treasury coins spent, transaction by transaction. */
  function Gains(coins: Coins, txs: seq<ParsedTransaction>, slotActive: bool): int {
    if txs == [] then 0
    else
      var init, last := txs[..|txs| - 1], txs[|txs| - 1];
      Gains(coins, init, slotActive) + (if slotActive then TreasuryOut(last.outputs) else 0)
      - CoinsSpent(CoinsAfter(coins, init, slotActive), last.inputs)
  }

  ghost function RunGains(c: Config, blocks: seq<ParsedBlock>, sha: HashFunction): int
    requires Run(c, blocks, sha).Ok?
  {
    if blocks == [] then 0
    else
      var init, last := blocks[..|blocks| - 1], blocks[|blocks| - 1];
      RunGains(c, init, sha) + Gains(RunCoins(c, init, sha), Others(last), Run(c, blocks, sha).value.0.active.Some?)
  }

  lemma {:induction false} TreasuryOutValue(outputs: seq<TxOut>)
    requires Treasury(outputs).Ok?
    ensures Treasury(outputs).value.None? ==> TreasuryOut(outputs) == 0
    ensures Treasury(outputs).value.Some? ==>
      var i := Treasury(outputs).value.value;
      i < |outputs| && TreasuryOut(outputs) == Amount(outputs[i])
  {
    if outputs != [] {
      TreasuryOutValue(outputs[..|outputs| - 1]);
    }
  }

  lemma {:induction false} CtipSpentValue(ctip: Option<Ctip>, inputs: seq<Outpoint>)
    ensures ctip.None? ==> CoinsSpent(CtipCoins(ctip), inputs) == 0
    ensures ctip.Some? ==> CoinsSpent(CtipCoins(ctip), inputs) == ctip.value.value * Spends(inputs, ctip.value)
  {
    if inputs != [] {
      CtipSpentValue(ctip, inputs[..|inputs| - 1]);
    }
  }

  lemma {:induction false} TreasuryGains(x: Context, l: Ledger, tx: ParsedTransaction)
    requires ReplayableTransaction(tx) && OnTreasury(x, l, tx).Ok?
    ensures OldValue(OnTreasury(x, l, tx).value)
         == OldValue(l) + TreasuryOut(tx.outputs) - CoinsSpent(CtipCoins(l.ctip), tx.inputs)
  {
    TreasuryIndex(tx.outputs);
    TreasuryOutValue(tx.outputs);
    CtipSpentValue(l.ctip, tx.inputs);
    if l.ctip.Some? {
      SpendsAtMostOnce(tx.inputs, l.ctip.value);
    }
  }

  lemma {:induction false} TransactionGains(x: Context, l: Ledger, tx: ParsedTransaction)
    requires LedgerOk(x, l) && ReplayableTransaction(tx) && OnTransaction(x, l, tx).Ok?
    ensures OldValue(OnTransaction(x, l, tx).value)
         == OldValue(l) + (if x.slotActive then TreasuryOut(tx.outputs) else 0) - CoinsSpent(CtipCoins(l.ctip), tx.inputs)
  {
    if x.slotActive {
      TreasuryGains(x, OnM8(x, l, tx).value, tx);
    } else {
      CtipSpentValue(l.ctip, tx.inputs);
    }
  }

  lemma {:induction false} TransactionsGain(x: Context, l: Ledger, txs: seq<ParsedTransaction>)
    requires LedgerOk(x, l) && Transactions(x, l, txs).Ok?
    requires forall k :: 0 <= k < |txs| ==> ReplayableTransaction(txs[k]) && txs[k].txid != ZERO_HASH
    ensures OldValue(Transactions(x, l, txs).value) == OldValue(l) + Gains(CtipCoins(l.ctip), txs, x.slotActive)
  {
    if txs != [] {
      var init, last := txs[..|txs| - 1], txs[|txs| - 1];
      TransactionsGain(x, l, init);
      TransactionsKeepLedger(x, l, init);
      TransactionsKeepSingleton(x, l, init);
      TransactionGains(x, Transactions(x, l, init).value, last);
    }
  }

  lemma {:induction false} StepGains(s: State, b: ParsedBlock, sha: HashFunction)
    requires Valid(s) && Replayable(b) && NonzeroHashes(b, sha) && Step(s, b, sha).Ok?
    ensures var after := Step(s, b, sha).value.0;
      TreasuryValue(after) == TreasuryValue(s) + Gains(CtipCoins(s.ctip), Others(b), after.active.Some?)
  {
    StepAcceptedIff(s, b, sha);
    ProcessErrors(s, b, sha);
    MidOfStep(s, b, sha, true);
    var p := Process(s, b, sha).value;
    TransactionsGain(ContextOf(s, b, p.mid, p.m7), Ledger(s.ctip, [], 0), Others(b));
  }

  /** On every run the treasury's value is the sum of everything treasury outputs have gained,
      recorded as a mintable deposit or not. */
  lemma {:induction false} TreasuryIsAllGains(c: Config, blocks: seq<ParsedBlock>, sha: HashFunction)
    requires ValidConfig(c) && GoodBlocks(blocks, sha) && Run(c, blocks, sha).Ok?
    ensures TreasuryValue(Run(c, blocks, sha).value.0) == RunGains(c, blocks, sha)
  {
    if blocks != [] {
      var init, last := SplitLast(blocks);
      var before, effects, after, effect := RunSnoc(c, init, last, sha);
      TreasuryIsAllGains(c, init, sha);
      TreasuryIsSingleton(c, init, sha);
      RunValid(c, init, sha);
      StepGains(before, last, sha);
    }
  }

  // ----- BMM requests -----

  function CountM8(txs: seq<ParsedTransaction>): nat {
    if txs == [] then 0 else CountM8(txs[..|txs| - 1]) + if ParseM8(txs[|txs| - 1]).Some? then 1 else 0
  }

  lemma {:induction false} TreasuryKeepsM8s(x: Context, l: Ledger, tx: ParsedTransaction)
    ensures OnTreasury(x, l, tx).Ok? ==> OnTreasury(x, l, tx).value.m8s == l.m8s
  {
    TreasuryIndex(tx.outputs);
  }

  lemma {:induction false} TransactionM8(x: Context, l: Ledger, tx: ParsedTransaction)
    requires OnTransaction(x, l, tx).Ok?
    ensures OnTransaction(x, l, tx).value.m8s == l.m8s + if ParseM8(tx).Some? then 1 else 0
    ensures ParseM8(tx).Some? ==> x.m7.Some? && ParseM8(tx).value == (x.m7.value.childHash, x.previous)
  {
    TreasuryKeepsM8s(x, OnM8(x, l, tx).value, tx);
  }

  lemma {:induction false} TransactionsM8(x: Context, l: Ledger, txs: seq<ParsedTransaction>)
    requires Transactions(x, l, txs).Ok?
    ensures Transactions(x, l, txs).value.m8s == l.m8s + CountM8(txs)
    ensures forall k :: 0 <= k < |txs| && ParseM8(txs[k]).Some? ==>
      x.m7.Some? && ParseM8(txs[k]).value == (x.m7.value.childHash, x.previous)
  {
    if txs != [] {
      var init, last := txs[..|txs| - 1], txs[|txs| - 1];
      TransactionsM8(x, l, init);
      TransactionM8(x, Transactions(x, l, init).value, last);
      assert forall k :: 0 <= k < |init| ==> txs[k] == init[k];
    }
  }

  /** An accepted block's requests all repeat its one M7 and its parent, and all are counted; an edge
      is reported exactly for a canonical M7 while the required proposal is active. */
  lemma {:induction false} RequestsMatchCommitment(s: State, b: ParsedBlock, sha: HashFunction)
    requires Step(s, b, sha).Ok?
    ensures var (after, effects) := Step(s, b, sha).value;
      var m7 := Observed(Scripts(b.coinbase.outputs));
      && m7.Ok? && effects.m8s == CountM8(Others(b)) && effects.sawM7 == m7.value.Some?
      && (forall k :: 0 <= k < |Others(b)| && ParseM8(Others(b)[k]).Some? ==>
            m7.value.Some? && ParseM8(Others(b)[k]).value == (m7.value.value.childHash, b.header.previous))
      && (effects.edge.Some? <==>
            m7.value.Some? && m7.value.value.canonical && after.required.Some? && after.active == Some(s.config.requiredProposal))
      && (effects.edge.Some? ==>
            effects.edge.value.childHash == m7.value.value.childHash && effects.edge.value.outputIndex == m7.value.value.outputIndex
            && effects.edge.value.successor == b.hash && effects.edge.value.parent == b.header.previous)
  {
    var p := Process(s, b, sha).value;
    TransactionsM8(ContextOf(s, b, p.mid, p.m7), Ledger(s.ctip, [], 0), Others(b));
  }

  // ----- the loops of the implementation -----

  lemma {:induction false} MessagesPrefix(c: Config, t: u32, block: Hash, m: Mid, scripts: seq<Bytes>, i: nat, sha: HashFunction)
    requires i <= |scripts|
    ensures Messages(c, t, block, m, scripts[..i], sha).Err? ==>
      Messages(c, t, block, m, scripts, sha) == Messages(c, t, block, m, scripts[..i], sha)
    decreases |scripts|
  {
    if i == |scripts| {
      assert scripts[..i] == scripts;
    } else {
      assert scripts[..|scripts| - 1][..i] == scripts[..i];
      MessagesPrefix(c, t, block, m, scripts[..|scripts| - 1], i, sha);
    }
  }

  lemma {:induction false} MessagesNext(c: Config, t: u32, block: Hash, m: Mid, scripts: seq<Bytes>, i: nat, sha: HashFunction)
    requires i < |scripts| && Messages(c, t, block, m, scripts[..i], sha).Ok?
    ensures Messages(c, t, block, m, scripts[..i + 1], sha)
         == OnMessage(c, t, block, Messages(c, t, block, m, scripts[..i], sha).value, ParseMessage(scripts[i], sha))
  {
    assert scripts[..i + 1][..i] == scripts[..i];
  }

  /** The message loop of `apply_coinbase_messages`, on local copies of the fields it updates. */
  method ReadMessages(c: Config, height: u32, block: Hash, scripts: seq<Bytes>, start: Mid, sha: HashFunction)
    returns (r: Outcome<Mid>)
    ensures r == Messages(c, height, block, start, scripts, sha)
  {
    var m := start;
    for i := 0 to |scripts|
      invariant Messages(c, height, block, start, scripts[..i], sha) == Ok(m)
    {
      MessagesNext(c, height, block, start, scripts, i, sha);
      MessagesPrefix(c, height, block, start, scripts, i + 1, sha);
      match ParseMessage(scripts[i], sha) {
        case None =>
        case Some(Proposal(h)) =>
          m :- ReadProposal(c, height, m, h);
        case Some(Ack(h)) =>
          m :- ReadAck(c, height, block, m, h);
      }
    }
    assert scripts[..|scripts|] == scripts;
    return Ok(m);
  }

  method ReadProposal(c: Config, height: u32, m: Mid, h: Hash) returns (r: Outcome<Mid>)
    ensures r == OnProposal(c, height, m, h)
  {
    if h in m.proposed {
      return Err(DuplicateProposalMessage);
    }
    var proposed, created, pending := m.proposed + {h}, m.created, m.pending;
    if h !in pending {
      if |pending| == MaxPending(c) {
        return Err(PendingProposalLimitExceeded);
      }
      pending := pending[h := Pending(h, height, 0)];
      created := created + {h};
    }
    return Ok(m.(proposed := proposed, created := created, pending := pending));
  }

  method ReadAck(c: Config, height: u32, block: Hash, m: Mid, h: Hash) returns (r: Outcome<Mid>)
    ensures r == OnAck(c, height, block, m, h)
  {
    if m.sawAck {
      return Err(MultipleAckMessages);
    }
    var after := m.(sawAck := true);
    if h in m.created || h !in m.pending {
      return Ok(after);
    }
    var proposal := m.pending[h];
    if proposal.votes == U16_MAX {
      return Err(VoteOverflow);
    }
    proposal := proposal.(votes := proposal.votes + 1);
    after := after.(pending := after.pending[h := proposal]);
    if proposal.votes > Threshold(c, m.active.Some?) {
      after := after.(active := Some(h), pending := after.pending - {h});
      assert after.pending == m.pending - {h};
      if after.required.Some? && h != c.requiredProposal {
        return Err(RequiredProposalReplaced);
      }
      if after.required.None? && h == c.requiredProposal {
        after := after.(required := Some(Activation(height, block)));
      }
    }
    return Ok(after);
  }

  /** Ageing: collect what has expired, then remove it. */
  method AgeProposals(c: Config, height: u32, active: Option<Hash>, pending: map<Hash, Pending>)
    returns (r: Outcome<map<Hash, Pending>>)
    ensures r.Ok? <==> NoneAhead(pending, height)
    ensures r.Ok? ==> r.value == Aged(c, height, active, pending)
    ensures r.Err? ==> r.error == ProposalHeightAhead || r.error == ProposalVotesAhead
  {
    var maxAge, maxFails := MaxAge(c, active.Some?), MaxFails(c, active.Some?);
    var expired: set<Hash> := {};
    var todo := pending.Keys;
    while todo != {}
      invariant todo <= pending.Keys
      invariant forall h :: h in pending && h !in todo ==> !Ahead(pending[h], height)
      invariant forall h :: h in expired <==> h in pending && h !in todo && Expired(pending[h], height, maxAge, maxFails)
      decreases todo
    {
      var h :| h in todo;
      var proposal := pending[h];
      if height < proposal.height {
        assert Ahead(pending[h], height);
        return Err(ProposalHeightAhead);
      }
      var age := height - proposal.height;
      if proposal.votes > age {
        assert Ahead(pending[h], height);
        return Err(ProposalVotesAhead);
      }
      var misses := age - proposal.votes;
      if age > maxAge || (age > maxFails && misses >= maxFails) {
        expired := expired + {h};
      }
      todo := todo - {h};
    }
    return Ok(pending - expired);
  }

  method FindTreasury(outputs: seq<TxOut>) returns (r: Outcome<Option<nat>>)
    ensures r == Treasury(outputs)
  {
    var found: Option<nat> := None;
    for i := 0 to |outputs|
      invariant Treasury(outputs[..i]) == Ok(found)
    {
      assert outputs[..i + 1][..i] == outputs[..i];
      if outputs[i].script == TREASURY_SCRIPT {
        if found.Some? {
          TwoTreasuries(outputs, i + 1);
          return Err(MultipleTreasuryOutputs);
        }
        found := Some(i);
      }
    }
    assert outputs[..|outputs|] == outputs;
    return Ok(found);
  }

  lemma {:induction false} TwoTreasuries(outputs: seq<TxOut>, i: nat)
    requires i <= |outputs| && Treasury(outputs[..i]).Err?
    ensures Treasury(outputs) == Treasury(outputs[..i])
    decreases |outputs|
  {
    if i == |outputs| {
      assert outputs[..i] == outputs;
    } else {
      assert outputs[..|outputs| - 1][..i] == outputs[..i];
      TwoTreasuries(outputs[..|outputs| - 1], i);
    }
  }

  lemma {:induction false} TransactionsPrefix(x: Context, l: Ledger, txs: seq<ParsedTransaction>, i: nat)
    requires i <= |txs|
    ensures Transactions(x, l, txs[..i]).Err? ==> Transactions(x, l, txs) == Transactions(x, l, txs[..i])
    decreases |txs|
  {
    if i == |txs| {
      assert txs[..i] == txs;
    } else {
      assert txs[..|txs| - 1][..i] == txs[..i];
      TransactionsPrefix(x, l, txs[..|txs| - 1], i);
    }
  }

  lemma {:induction false} TransactionsNext(x: Context, l: Ledger, txs: seq<ParsedTransaction>, i: nat)
    requires i < |txs| && Transactions(x, l, txs[..i]).Ok?
    ensures Transactions(x, l, txs[..i + 1]) == OnTransaction(x, Transactions(x, l, txs[..i]).value, txs[i])
  {
    assert txs[..i + 1][..i] == txs[..i];
  }

  /** The transaction loop of `apply_transactions`. */
  method ApplyTransactions(x: Context, ctip: Option<Ctip>, txs: seq<ParsedTransaction>) returns (r: Outcome<Ledger>)
    ensures r == Transactions(x, Ledger(ctip, [], 0), txs)
  {
    ghost var start := Ledger(ctip, [], 0);
    var l := Ledger(ctip, [], 0);
    for i := 0 to |txs|
      invariant Transactions(x, start, txs[..i]) == Ok(l)
    {
      TransactionsNext(x, start, txs, i);
      TransactionsPrefix(x, start, txs, i + 1);
      l :- ApplyTransaction(x, l, txs[i]);
    }
    assert txs[..|txs|] == txs;
    return Ok(l);
  }

  method ApplyTransaction(x: Context, before: Ledger, tx: ParsedTransaction) returns (r: Outcome<Ledger>)
    ensures r == OnTransaction(x, before, tx)
  {
    var l := before;
    var request := ParseM8(tx);
    if request.Some? {
      if x.m7.None? {
        return Err(M8WithoutM7);
      }
      if request.value.0 != x.m7.value.childHash {
        return Err(M8WrongChildHash);
      }
      if request.value.1 != x.previous {
        return Err(M8Expired);
      }
      if l.m8s == U32_MAX {
        return Err(M8CountOverflow);
      }
      l := l.(m8s := l.m8s + 1);
    }
    if !x.slotActive {
      return Ok(l);
    }
    r := MoveTreasury(x, l, tx);
  }

  method MoveTreasury(x: Context, l: Ledger, tx: ParsedTransaction) returns (r: Outcome<Ledger>)
    ensures r == OnTreasury(x, l, tx)
  {
    var spent := if l.ctip.Some? then Spends(tx.inputs, l.ctip.value) else 0;
    var output :- FindTreasury(tx.outputs);
    TreasuryIndex(tx.outputs);
    if l.ctip.Some? && spent == 0 && output.Some? {
      return Err(ParallelTreasuryOutput);
    }
    if l.ctip.Some? && spent == 1 && output.None? {
      return Err(CtipSpentWithoutReplacement);
    }
    if (l.ctip.Some? && spent == 0) || (l.ctip.None? && output.None?) {
      return Ok(l);
    }
    if spent > 1 {
      return Err(MalformedState);
    }
    var oldValue := if l.ctip.Some? then l.ctip.value.value else 0;
    var index := output.value;
    var newValue := Amount(tx.outputs[index]);
    if newValue == oldValue {
      return Err(ZeroCtipDelta);
    }
    if newValue < oldValue {
      return Err(CtipDecreaseUnsupported);
    }
    var address := AddressAfter(tx, index);
    if address.None? {
      return Err(MissingDepositAddress);
    }
    if index > U32_MAX {
      return Err(IndexOverflow);
    }
    var ctip := Ctip(tx.txid, index, newValue);
    var deposits := l.deposits;
    if x.requiredActive && 0 < |address.value| <= 128 {
      deposits := deposits + [Deposit(ctip, x.block, x.height, newValue - oldValue, address.value)];
    }
    return Ok(l.(ctip := Some(ctip), deposits := deposits));
  }

  class ReplayState {
    const config: Config
    var nextHeight: u32
    var tip: Hash
    var active: Option<Hash>
    var required: Option<Activation>
    var pending: map<Hash, Pending>
    var ctip: Option<Ctip>

    function View(): State
      reads this
    {
      State(config, nextHeight, tip, active, required, pending, ctip)
    }

    constructor (s: State)
      ensures View() == s
    {
      config, nextHeight, tip, active := s.config, s.nextHeight, s.tip, s.active;
      required, pending, ctip := s.required, s.pending, s.ctip;
    }

    /** Applies one parsed block; a refused block leaves every field as it was. */
    method ApplyBlock(b: ParsedBlock, sha: HashFunction) returns (r: Outcome<Effects>)
      modifies this
      ensures Step(old(View()), b, sha).Ok? ==>
        r == Ok(Step(old(View()), b, sha).value.1) && View() == Step(old(View()), b, sha).value.0
      ensures Step(old(View()), b, sha).Err? ==> r == Err(Step(old(View()), b, sha).error) && View() == old(View())
    {
      var checked :- Validate(View());
      if !Linked(View(), b) {
        return Err(BrokenParentLink);
      }
      var p :- ProcessBlock(View(), b, sha);
      if p.mid.required.Some? && p.mid.active != Some(config.requiredProposal) {
        return Err(RequiredProposalReplaced);
      }
      if nextHeight == U32_MAX {
        return Err(HeightOverflow);
      }
      var effects := EffectsOf(View(), b, p);
      var rechecked :- Validate(Committed(View(), b, p));
      nextHeight, tip, active, required := nextHeight + 1, b.hash, p.mid.active, p.mid.required;
      pending, ctip := p.pending, p.ledger.ctip;
      return Ok(effects);
    }
  }

  /** The work on the clone: the caller commits it only when everything has passed. */
  method ProcessBlock(s: State, b: ParsedBlock, sha: HashFunction) returns (r: Outcome<Processed>)
    requires Valid(s)
    ensures r == Process(s, b, sha)
  {
    var scripts := Scripts(b.coinbase.outputs);
    var mid :- ReadMessages(s.config, s.nextHeight, b.hash, scripts, Start(s), sha);
    MidOfStep(s, b, sha, false);
    var aged := AgeProposals(s.config, s.nextHeight, mid.active, mid.pending);
    var observed := ObserveSlot24M7(scripts);
    if observed.Err? {
      return Err(if observed.error.DuplicateM7? then DuplicateM7Message else IndexOverflow);
    }
    var ledger :- ApplyTransactions(ContextOf(s, b, mid, observed.value), s.ctip, Others(b));
    return Ok(Processed(mid, aged.value, observed.value, ledger));
  }
}
