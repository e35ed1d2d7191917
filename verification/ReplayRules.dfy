/**
 * The slot-24 rules stated by meaning (crates/usdd-bitcoin-bmm/src/block/bip300.rs): exactly which
 * blocks the replay accepts, what each does to every field of the state and what it reports, in terms
 * of the block's scripts and amounts and without the replay's own steps.
 */
module ReplayRules {
  import opened Machine
  import opened Blocks
  import opened Commitments
  import opened Replay

  // ----- what a coinbase says -----

  /** An M1 push for the slot whose description has this hash. */
  predicate Proposes(script: Bytes, h: Hash, sha: HashFunction) {
    var push := ExtractPush(script);
    push.Some? && |push.value| >= 5 && push.value[..5] == M1_TAG + [SLOT] && sha(push.value[5..]) == h
  }

  /** An M2 push for the slot that names this hash. */
  predicate Acks(script: Bytes, h: Hash) {
    ExtractPush(script) == Some(M2_TAG + ([SLOT] + h))
  }

  lemma {:induction false} MessageMeaning(script: Bytes, h: Hash, sha: HashFunction)
    ensures Proposes(script, h, sha) <==> ParseMessage(script, sha) == Some(Proposal(h))
    ensures Acks(script, h) <==> ParseMessage(script, sha) == Some(Ack(h))
  {
    var push := ExtractPush(script);
    if push.Some? {
      MessageForms(script, push.value, sha);
      if |push.value| >= 5 {
        TagAndSlot(push.value);
      }
    }
  }

  lemma {:induction false} TagAndSlot(push: Bytes)
    requires |push| >= 5
    ensures push[..5] == M1_TAG + [SLOT] <==> push[..4] == M1_TAG && push[4] == SLOT
  {
    assert push[..5] == push[..4] + [push[4]];
  }

  ghost predicate Named(scripts: seq<Bytes>, h: Hash, sha: HashFunction) {
    exists k :: 0 <= k < |scripts| && Proposes(scripts[k], h, sha)
  }

  ghost predicate Acked(scripts: seq<Bytes>, h: Hash) {
    exists k :: 0 <= k < |scripts| && Acks(scripts[k], h)
  }

  /** Proposed again after its vote. */
  ghost predicate NamedAfterAck(scripts: seq<Bytes>, h: Hash, sha: HashFunction) {
    exists i, k :: 0 <= i < k < |scripts| && Acks(scripts[i], h) && Proposes(scripts[k], h, sha)
  }

  ghost predicate NamedTwice(scripts: seq<Bytes>, h: Hash, sha: HashFunction) {
    exists i, k :: 0 <= i < k < |scripts| && Proposes(scripts[i], h, sha) && Proposes(scripts[k], h, sha)
  }

  ghost predicate RepeatsProposal(scripts: seq<Bytes>, sha: HashFunction) {
    exists h :: NamedTwice(scripts, h, sha)
  }

  ghost predicate IsVote(script: Bytes) {
    exists h :: Acks(script, h)
  }

  ghost predicate RepeatsVote(scripts: seq<Bytes>) {
    exists i, k :: 0 <= i < k < |scripts| && IsVote(scripts[i]) && IsVote(scripts[k])
  }

  // ----- what the messages do to the proposals -----

  /** The vote takes an earlier pending proposal above the threshold in force. */
  ghost predicate Elects(s: State, scripts: seq<Bytes>, h: Hash) {
    && h in s.pending && Acked(scripts, h)
    && s.pending[h].votes + 1 > if s.active.Some? then s.config.usedThreshold else s.config.unusedThreshold
  }

  /** Named while not pending: never proposed, dropped, or just gone by activation. */
  ghost predicate Creates(s: State, scripts: seq<Bytes>, h: Hash, sha: HashFunction) {
    if h in s.pending then Elects(s, scripts, h) && NamedAfterAck(scripts, h, sha) else Named(scripts, h, sha)
  }

  function Lookup(pending: map<Hash, Pending>, h: Hash): Option<Pending> {
    if h in pending then Some(pending[h]) else None
  }

  /** The entry of `h` once the coinbase has been read. */
  ghost predicate EntryIs(s: State, scripts: seq<Bytes>, h: Hash, entry: Option<Pending>, sha: HashFunction) {
    if Creates(s, scripts, h, sha) then entry == Some(Pending(h, s.nextHeight, 0))
    else if h !in s.pending || Elects(s, scripts, h) then entry == None
    else
      && entry.Some? && entry.value.hash == s.pending[h].hash && entry.value.height == s.pending[h].height
      && entry.value.votes == s.pending[h].votes + if Acked(scripts, h) then 1 else 0
  }

  ghost predicate ActiveAfter(s: State, scripts: seq<Bytes>, active: Option<Hash>) {
    && (forall h :: Elects(s, scripts, h) ==> active == Some(h))
    && ((forall h :: !Elects(s, scripts, h)) ==> active == s.active)
  }

  ghost predicate RequiredAfter(s: State, scripts: seq<Bytes>, block: Hash, required: Option<Activation>) {
    required == if s.required.None? && Elects(s, scripts, s.config.requiredProposal)
                then Some(Activation(s.nextHeight, block)) else s.required
  }

  /** Once activated, the required proposal may not be replaced. */
  ghost predicate ReplacesRequired(s: State, scripts: seq<Bytes>) {
    s.required.Some? && exists h :: Elects(s, scripts, h) && h != s.config.requiredProposal
  }

  /** There is room for every message, as on every run. */
  ghost predicate Roomy(s: State, scripts: seq<Bytes>) {
    && |s.pending| + |scripts| <= MaxPending(s.config)
    && forall h :: h in s.pending ==> s.pending[h].votes < U16_MAX
  }

  // ----- one more script -----

  lemma {:induction false} OneMore(init: seq<Bytes>, x: Bytes, h: Hash, sha: HashFunction)
    ensures Named(init + [x], h, sha) <==> Named(init, h, sha) || Proposes(x, h, sha)
    ensures Acked(init + [x], h) <==> Acked(init, h) || Acks(x, h)
    ensures NamedAfterAck(init + [x], h, sha) <==> NamedAfterAck(init, h, sha) || (Acked(init, h) && Proposes(x, h, sha))
  {
    var all, n := init + [x], |init|;
    assert all[n] == x && forall k :: 0 <= k < n ==> all[k] == init[k];
    if Named(init, h, sha) {
      var k :| 0 <= k < n && Proposes(init[k], h, sha);
      assert Proposes(all[k], h, sha);
    }
    if Acked(init, h) {
      var i :| 0 <= i < n && Acks(init[i], h);
      assert Acks(all[i], h);
    }
    OneMoreAfterAck(init, x, h, sha);
  }

  lemma {:induction false} OneMoreAfterAck(init: seq<Bytes>, x: Bytes, h: Hash, sha: HashFunction)
    ensures NamedAfterAck(init + [x], h, sha) <==> NamedAfterAck(init, h, sha) || (Acked(init, h) && Proposes(x, h, sha))
  {
    var all, n := init + [x], |init|;
    assert all[n] == x && forall k :: 0 <= k < n ==> all[k] == init[k];
    if NamedAfterAck(init, h, sha) {
      var i, k :| 0 <= i < k < n && Acks(init[i], h) && Proposes(init[k], h, sha);
      assert Acks(all[i], h) && Proposes(all[k], h, sha);
    }
    if Acked(init, h) && Proposes(x, h, sha) {
      var i :| 0 <= i < n && Acks(init[i], h);
      assert Acks(all[i], h) && Proposes(all[n], h, sha);
    }
  }

  lemma {:induction false} OneMoreName(init: seq<Bytes>, x: Bytes, h: Hash, sha: HashFunction)
    ensures NamedTwice(init + [x], h, sha) <==> NamedTwice(init, h, sha) || (Named(init, h, sha) && Proposes(x, h, sha))
  {
    var all, n := init + [x], |init|;
    assert all[n] == x && forall k :: 0 <= k < n ==> all[k] == init[k];
    if NamedTwice(init, h, sha) {
      var i, k :| 0 <= i < k < n && Proposes(init[i], h, sha) && Proposes(init[k], h, sha);
      assert Proposes(all[i], h, sha) && Proposes(all[k], h, sha);
    }
    if Named(init, h, sha) && Proposes(x, h, sha) {
      var i :| 0 <= i < n && Proposes(init[i], h, sha);
      assert Proposes(all[i], h, sha) && Proposes(all[n], h, sha);
    }
  }

  ghost predicate HasVote(scripts: seq<Bytes>) {
    exists k :: 0 <= k < |scripts| && IsVote(scripts[k])
  }

  lemma {:induction false} OneMoreVoteScript(init: seq<Bytes>, x: Bytes)
    ensures HasVote(init + [x]) <==> HasVote(init) || IsVote(x)
    ensures RepeatsVote(init + [x]) <==> RepeatsVote(init) || (HasVote(init) && IsVote(x))
  {
    var all, n := init + [x], |init|;
    assert all[n] == x && forall k :: 0 <= k < n ==> all[k] == init[k];
    if HasVote(init) {
      var i :| 0 <= i < n && IsVote(init[i]);
      assert IsVote(all[i]);
      if IsVote(x) {
        assert IsVote(all[n]);
      }
    }
    if RepeatsVote(init) {
      var i, k :| 0 <= i < k < n && IsVote(init[i]) && IsVote(init[k]);
      assert IsVote(all[i]) && IsVote(all[k]);
    }
  }

  lemma {:induction false} AckedIsVote(scripts: seq<Bytes>, h: Hash)
    requires Acked(scripts, h)
    ensures HasVote(scripts)
  {
    var k :| 0 <= k < |scripts| && Acks(scripts[k], h);
    assert IsVote(scripts[k]);
  }

  // ----- the message fold, by meaning -----

  /** What is known of one proposal after the messages read so far. */
  ghost predicate KnownAt(s: State, scripts: seq<Bytes>, m: Mid, h: Hash, sha: HashFunction) {
    && (h in m.proposed <==> Named(scripts, h, sha))
    && (h in m.created <==> Creates(s, scripts, h, sha))
    && EntryIs(s, scripts, h, Lookup(m.pending, h), sha)
  }

  ghost predicate ReadUpTo(s: State, block: Hash, scripts: seq<Bytes>, m: Mid, sha: HashFunction) {
    && (m.sawAck <==> HasVote(scripts))
    && (forall h :: KnownAt(s, scripts, m, h, sha))
    && ActiveAfter(s, scripts, m.active) && RequiredAfter(s, scripts, block, m.required)
  }

  lemma {:induction false} NothingAt(s: State, init: seq<Bytes>, x: Bytes, m: Mid, h: Hash, sha: HashFunction)
    requires KnownAt(s, init, m, h, sha) && !Proposes(x, h, sha) && !Acks(x, h)
    ensures KnownAt(s, init + [x], m, h, sha) && (Elects(s, init + [x], h) <==> Elects(s, init, h))
  {
    OneMore(init, x, h, sha);
  }

  lemma {:induction false} ProposalAt(s: State, init: seq<Bytes>, x: Bytes, m: Mid, h: Hash, sha: HashFunction)
    requires KnownAt(s, init, m, h, sha) && Proposes(x, h, sha) && !Acks(x, h)
    requires OnProposal(s.config, s.nextHeight, m, h).Ok?
    ensures KnownAt(s, init + [x], OnProposal(s.config, s.nextHeight, m, h).value, h, sha)
    ensures Elects(s, init + [x], h) <==> Elects(s, init, h)
  {
    OneMore(init, x, h, sha);
  }

  lemma {:induction false} ProposalElsewhere(s: State, init: seq<Bytes>, x: Bytes, m: Mid, g: Hash, h: Hash, sha: HashFunction)
    requires KnownAt(s, init, m, h, sha) && g != h && !Proposes(x, h, sha) && !Acks(x, h)
    requires OnProposal(s.config, s.nextHeight, m, g).Ok?
    ensures KnownAt(s, init + [x], OnProposal(s.config, s.nextHeight, m, g).value, h, sha)
    ensures Elects(s, init + [x], h) <==> Elects(s, init, h)
  {
    NothingAt(s, init, x, m, h, sha);
  }

  lemma {:induction false} AckAt(s: State, block: Hash, init: seq<Bytes>, x: Bytes, m: Mid, h: Hash, sha: HashFunction)
    requires KnownAt(s, init, m, h, sha) && !Proposes(x, h, sha) && Acks(x, h) && !Acked(init, h)
    requires m.active == s.active && (h in s.pending ==> s.pending[h].votes < U16_MAX)
    requires OnAck(s.config, s.nextHeight, block, m, h).Ok?
    ensures KnownAt(s, init + [x], OnAck(s.config, s.nextHeight, block, m, h).value, h, sha)
  {
    OneMore(init, x, h, sha);
  }

  lemma {:induction false} AckElsewhere(s: State, block: Hash, init: seq<Bytes>, x: Bytes, m: Mid, g: Hash, h: Hash, sha: HashFunction)
    requires KnownAt(s, init, m, h, sha) && g != h && !Proposes(x, h, sha) && !Acks(x, h)
    requires OnAck(s.config, s.nextHeight, block, m, g).Ok?
    ensures KnownAt(s, init + [x], OnAck(s.config, s.nextHeight, block, m, g).value, h, sha)
  {
    NothingAt(s, init, x, m, h, sha);
  }

  lemma {:induction false} OnlyMessage(x: Bytes, message: Option<Message>, sha: HashFunction)
    requires ParseMessage(x, sha) == message
    ensures forall h :: Proposes(x, h, sha) <==> message == Some(Proposal(h))
    ensures forall h :: Acks(x, h) <==> message == Some(Ack(h))
    ensures IsVote(x) <==> message.Some? && message.value.Ack?
  {
    forall h
      ensures Proposes(x, h, sha) <==> message == Some(Proposal(h))
      ensures Acks(x, h) <==> message == Some(Ack(h))
    {
      MessageMeaning(x, h, sha);
    }
    if message.Some? && message.value.Ack? {
      assert Acks(x, message.value.hash);
    }
  }

  lemma {:induction false} NothingStep(s: State, block: Hash, init: seq<Bytes>, x: Bytes, m: Mid, sha: HashFunction)
    requires ReadUpTo(s, block, init, m, sha) && ParseMessage(x, sha) == None
    ensures ReadUpTo(s, block, init + [x], m, sha)
  {
    OnlyMessage(x, None, sha);
    OneMoreVoteScript(init, x);
    forall h
      ensures KnownAt(s, init + [x], m, h, sha) && (Elects(s, init + [x], h) <==> Elects(s, init, h))
    {
      assert KnownAt(s, init, m, h, sha);
      NothingAt(s, init, x, m, h, sha);
    }
    SameElection(s, block, init, init + [x], m);
  }

  lemma {:induction false} SameElection(s: State, block: Hash, init: seq<Bytes>, all: seq<Bytes>, m: Mid)
    requires ActiveAfter(s, init, m.active) && RequiredAfter(s, init, block, m.required)
    requires forall h :: Elects(s, all, h) <==> Elects(s, init, h)
    ensures ActiveAfter(s, all, m.active) && RequiredAfter(s, all, block, m.required)
  {
  }

  lemma {:induction false} ProposalStep(s: State, block: Hash, init: seq<Bytes>, x: Bytes, m: Mid, g: Hash, sha: HashFunction)
    requires ReadUpTo(s, block, init, m, sha) && ParseMessage(x, sha) == Some(Proposal(g))
    requires OnProposal(s.config, s.nextHeight, m, g).Ok?
    ensures ReadUpTo(s, block, init + [x], OnProposal(s.config, s.nextHeight, m, g).value, sha)
  {
    var m' := OnProposal(s.config, s.nextHeight, m, g).value;
    OnlyMessage(x, Some(Proposal(g)), sha);
    OneMoreVoteScript(init, x);
    forall h
      ensures KnownAt(s, init + [x], m', h, sha) && (Elects(s, init + [x], h) <==> Elects(s, init, h))
    {
      assert KnownAt(s, init, m, h, sha);
      if h == g {
        ProposalAt(s, init, x, m, h, sha);
      } else {
        ProposalElsewhere(s, init, x, m, g, h, sha);
      }
    }
    SameElection(s, block, init, init + [x], m');
  }

  lemma {:induction false} AckStep(s: State, block: Hash, init: seq<Bytes>, x: Bytes, m: Mid, g: Hash, sha: HashFunction)
    requires ReadUpTo(s, block, init, m, sha) && ParseMessage(x, sha) == Some(Ack(g)) && Roomy(s, init + [x])
    requires OnAck(s.config, s.nextHeight, block, m, g).Ok?
    ensures ReadUpTo(s, block, init + [x], OnAck(s.config, s.nextHeight, block, m, g).value, sha)
  {
    var m' := OnAck(s.config, s.nextHeight, block, m, g).value;
    OnlyMessage(x, Some(Ack(g)), sha);
    OneMoreVoteScript(init, x);
    NoneElected(s, block, init, m, sha);
    forall h
      ensures KnownAt(s, init + [x], m', h, sha)
    {
      assert KnownAt(s, init, m, h, sha);
      if h == g {
        AckAt(s, block, init, x, m, h, sha);
      } else {
        AckElsewhere(s, block, init, x, m, g, h, sha);
      }
    }
    VoteDecides(s, block, init, x, m, g, sha);
  }

  lemma {:induction false} NoneElected(s: State, block: Hash, init: seq<Bytes>, m: Mid, sha: HashFunction)
    requires ReadUpTo(s, block, init, m, sha) && !m.sawAck
    ensures forall h :: !Acked(init, h)
    ensures m.active == s.active && m.required == s.required
  {
    forall h
      ensures !Acked(init, h) && !Elects(s, init, h)
    {
      if Acked(init, h) {
        AckedIsVote(init, h);
      }
    }
  }

  /** The one vote elects the proposal it names, if it is pending and now above the threshold. */
  lemma {:induction false} VoteDecides(s: State, block: Hash, init: seq<Bytes>, x: Bytes, m: Mid, g: Hash, sha: HashFunction)
    requires ReadUpTo(s, block, init, m, sha) && !m.sawAck && ParseMessage(x, sha) == Some(Ack(g)) && Roomy(s, init + [x])
    ensures forall h :: Elects(s, init + [x], h) <==>
      h == g && g in s.pending && s.pending[g].votes + 1 > Threshold(s.config, s.active.Some?)
    ensures OnAck(s.config, s.nextHeight, block, m, g).Ok? <==> !ReplacesRequired(s, init + [x])
    ensures OnAck(s.config, s.nextHeight, block, m, g).Err? ==>
      OnAck(s.config, s.nextHeight, block, m, g).error == RequiredProposalReplaced
    ensures OnAck(s.config, s.nextHeight, block, m, g).Ok? ==>
      ActiveAfter(s, init + [x], OnAck(s.config, s.nextHeight, block, m, g).value.active)
      && RequiredAfter(s, init + [x], block, OnAck(s.config, s.nextHeight, block, m, g).value.required)
  {
    NoneElected(s, block, init, m, sha);
    OnlyMessage(x, Some(Ack(g)), sha);
    forall h
      ensures Elects(s, init + [x], h) <==> h == g && g in s.pending && s.pending[g].votes + 1 > Threshold(s.config, s.active.Some?)
    {
      OneMore(init, x, h, sha);
    }
    assert KnownAt(s, init, m, g, sha);
    assert Elects(s, init + [x], g) <==> g in s.pending && s.pending[g].votes + 1 > Threshold(s.config, s.active.Some?);
    assert Elects(s, init + [x], s.config.requiredProposal) <==> s.config.requiredProposal == g && Elects(s, init + [x], g);
  }

  /** No proposal named twice, one vote at most, and no replacement of the required proposal. */
  ghost predicate MessagesAllowed(s: State, scripts: seq<Bytes>, sha: HashFunction) {
    !RepeatsProposal(scripts, sha) && !RepeatsVote(scripts) && !ReplacesRequired(s, scripts)
  }

  /** The fault that an error of the message fold reports. */
  ghost predicate MessageFault(s: State, scripts: seq<Bytes>, e: ReplayError, sha: HashFunction) {
    || (e == DuplicateProposalMessage && RepeatsProposal(scripts, sha))
    || (e == MultipleAckMessages && RepeatsVote(scripts))
    || (e == RequiredProposalReplaced && ReplacesRequired(s, scripts))
  }

  lemma {:induction false} FaultStays(s: State, init: seq<Bytes>, x: Bytes, e: ReplayError, sha: HashFunction)
    requires MessageFault(s, init, e, sha)
    ensures MessageFault(s, init + [x], e, sha)
  {
    if e == DuplicateProposalMessage {
      RepetitionStays(init, x, sha);
    } else if e == MultipleAckMessages {
      OneMoreVoteScript(init, x);
    } else {
      ReplacementStays(s, init, x, sha);
    }
  }

  lemma {:induction false} RepetitionStays(init: seq<Bytes>, x: Bytes, sha: HashFunction)
    requires RepeatsProposal(init, sha)
    ensures RepeatsProposal(init + [x], sha)
  {
    var h :| NamedTwice(init, h, sha);
    OneMoreName(init, x, h, sha);
  }

  lemma {:induction false} ReplacementStays(s: State, init: seq<Bytes>, x: Bytes, sha: HashFunction)
    requires ReplacesRequired(s, init)
    ensures ReplacesRequired(s, init + [x])
  {
    var h :| Elects(s, init, h) && h != s.config.requiredProposal;
    OneMore(init, x, h, sha);
    assert Elects(s, init + [x], h);
  }

  /** A message that is no proposal adds no repetition; a proposal adds one exactly when it was named. */
  lemma {:induction false} NewRepetition(init: seq<Bytes>, x: Bytes, message: Option<Message>, sha: HashFunction)
    requires ParseMessage(x, sha) == message && !RepeatsProposal(init, sha)
    ensures RepeatsProposal(init + [x], sha) <==>
      message.Some? && message.value.Proposal? && Named(init, message.value.hash, sha)
  {
    OnlyMessage(x, message, sha);
    forall h
      ensures NamedTwice(init + [x], h, sha) <==> message == Some(Proposal(h)) && Named(init, h, sha)
    {
      OneMoreName(init, x, h, sha);
    }
  }

  lemma {:induction false} SameReplacement(s: State, init: seq<Bytes>, x: Bytes, sha: HashFunction)
    requires !IsVote(x)
    ensures ReplacesRequired(s, init + [x]) <==> ReplacesRequired(s, init)
  {
    forall h
      ensures Elects(s, init + [x], h) <==> Elects(s, init, h)
    {
      OneMore(init, x, h, sha);
    }
  }

  /** One more message: accepted exactly when it adds no fault. */
  lemma {:induction false} MessageExactly(s: State, block: Hash, init: seq<Bytes>, x: Bytes, m: Mid, sha: HashFunction)
    requires ReadUpTo(s, block, init, m, sha) && MessagesAllowed(s, init, sha) && Roomy(s, init + [x])
    requires |m.pending| < MaxPending(s.config)
    ensures var r := OnMessage(s.config, s.nextHeight, block, m, ParseMessage(x, sha));
      && (r.Ok? <==> MessagesAllowed(s, init + [x], sha))
      && (r.Ok? ==> ReadUpTo(s, block, init + [x], r.value, sha))
      && (r.Err? ==> MessageFault(s, init + [x], r.error, sha))
  {
    var message := ParseMessage(x, sha);
    OnlyMessage(x, message, sha);
    OneMoreVoteScript(init, x);
    NewRepetition(init, x, message, sha);
    match message {
      case None =>
        NothingStep(s, block, init, x, m, sha);
        SameReplacement(s, init, x, sha);
      case Some(Proposal(g)) =>
        assert KnownAt(s, init, m, g, sha);
        SameReplacement(s, init, x, sha);
        if OnProposal(s.config, s.nextHeight, m, g).Ok? {
          ProposalStep(s, block, init, x, m, g, sha);
        }
      case Some(Ack(g)) =>
        if !m.sawAck {
          VoteDecides(s, block, init, x, m, g, sha);
          if OnAck(s.config, s.nextHeight, block, m, g).Ok? {
            AckStep(s, block, init, x, m, g, sha);
          }
        }
    }
  }

  lemma {:induction false} RoomyPrefix(s: State, scripts: seq<Bytes>, n: nat)
    requires Roomy(s, scripts) && n <= |scripts|
    ensures Roomy(s, scripts[..n])
  {
  }

  lemma {:induction false} NothingRead(s: State, block: Hash, sha: HashFunction)
    ensures ReadUpTo(s, block, [], Start(s), sha) && MessagesAllowed(s, [], sha)
  {
    forall h
      ensures KnownAt(s, [], Start(s), h, sha) && !NamedTwice([], h, sha)
    {
    }
  }

  /** What the coinbase's messages must be, what each error means, and what they leave, for any state
      with room for them. */
  lemma {:induction false} MessagesExactly(s: State, block: Hash, scripts: seq<Bytes>, sha: HashFunction)
    requires Roomy(s, scripts)
    ensures var r := Messages(s.config, s.nextHeight, block, Start(s), scripts, sha);
      && (r.Ok? <==> MessagesAllowed(s, scripts, sha))
      && (r.Ok? ==> ReadUpTo(s, block, scripts, r.value, sha) && |r.value.pending| <= |s.pending| + |scripts|)
      && (r.Err? ==> MessageFault(s, scripts, r.error, sha))
  {
    if scripts == [] {
      NothingRead(s, block, sha);
    } else {
      var n := |scripts| - 1;
      var init, x := scripts[..n], scripts[n];
      assert scripts == init + [x];
      RoomyPrefix(s, scripts, n);
      MessagesExactly(s, block, init, sha);
      var before := Messages(s.config, s.nextHeight, block, Start(s), init, sha);
      if before.Ok? {
        MessageExactly(s, block, init, x, before.value, sha);
        if OnMessage(s.config, s.nextHeight, block, before.value, ParseMessage(x, sha)).Ok? {
          GrowsByOne(s, block, before.value, ParseMessage(x, sha));
        }
      } else {
        FaultStays(s, init, x, before.error, sha);
      }
    }
  }

  // ----- expiry -----

  /** Neither too old nor out of misses, under the settings for a used or an unused slot. */
  predicate InTime(c: Config, used: bool, age: int, votes: int) {
    var maxAge, threshold := if used then c.usedMaxAge else c.unusedMaxAge, if used then c.usedThreshold else c.unusedThreshold;
    age <= maxAge && (age <= maxAge - threshold || age - votes < maxAge - threshold)
  }

  /** In time, counting the block's own vote. */
  ghost predicate Survives(s: State, scripts: seq<Bytes>, used: bool, h: Hash)
    requires h in s.pending
  {
    InTime(s.config, used, s.nextHeight - s.pending[h].height, s.pending[h].votes + if Acked(scripts, h) then 1 else 0)
  }

  /** The entry of `h` after a block: created by it, or kept with its vote counted, or gone. */
  ghost predicate PendingAfter(s: State, scripts: seq<Bytes>, used: bool, h: Hash, entry: Option<Pending>, sha: HashFunction) {
    if Creates(s, scripts, h, sha) then entry == Some(Pending(h, s.nextHeight, 0))
    else if h !in s.pending || Elects(s, scripts, h) || !Survives(s, scripts, used, h) then entry == None
    else
      && entry.Some? && entry.value.hash == h && entry.value.height == s.pending[h].height
      && entry.value.votes == s.pending[h].votes + if Acked(scripts, h) then 1 else 0
  }

  lemma {:induction false} AgedExactly(s: State, scripts: seq<Bytes>, m: Mid, h: Hash, sha: HashFunction)
    requires Valid(s) && KnownAt(s, scripts, m, h, sha)
    ensures PendingAfter(s, scripts, m.active.Some?, h, Lookup(Aged(s.config, s.nextHeight, m.active, m.pending), h), sha)
  {
    if h in s.pending {
      assert PendingOk(s, h);
    }
  }

  // ----- M7 and M8 -----

  /** A script that commits to a child hash, in any push encoding. */
  predicate CommitsTo(script: Bytes, child: Hash) {
    ExtractPush(script) == Some(M7_TAG + ([SLOT] + child))
  }

  /** The one M7 of the coinbase, or none. */
  ghost predicate Commitment(scripts: seq<Bytes>, m7: Option<ObservedM7>) {
    match m7
    case None => forall k, child :: 0 <= k < |scripts| ==> !CommitsTo(scripts[k], child)
    case Some(o) =>
      && o.outputIndex < |scripts| && CommitsTo(scripts[o.outputIndex], o.childHash)
      && (forall k, child :: 0 <= k < |scripts| && k != o.outputIndex ==> !CommitsTo(scripts[k], child))
      && (o.canonical <==> scripts[o.outputIndex] == [OP_RETURN, 37] + (M7_TAG + ([SLOT] + o.childHash)))
  }

  lemma {:induction false} CommitsIff(script: Bytes, child: Hash)
    ensures CommitsTo(script, child) <==> M7Hash(script) == Some(child)
  {
    ExtractIffPush(script, M7Payload(child));
    M7Iff(script, child);
  }

  /** The observation is the commitment, and fails exactly when there is none to observe. */
  lemma {:induction false} ObservedExactly(scripts: seq<Bytes>, m7: Option<ObservedM7>)
    requires |scripts| <= MAX_OUTPUTS
    ensures Observed(scripts) == Ok(m7) <==> Commitment(scripts, m7)
  {
    var found := M7s(scripts);
    CommitsEverywhere(scripts);
    if found == [] {
      NoneSighted(scripts);
    } else if |found| == 1 {
      SoleObservation(scripts, m7);
    } else {
      ManyObservations(scripts, m7);
    }
  }

  lemma {:induction false} ManyObservations(scripts: seq<Bytes>, m7: Option<ObservedM7>)
    requires |scripts| <= MAX_OUTPUTS && |M7s(scripts)| > 1
    ensures Observed(scripts).Err? && !Commitment(scripts, m7)
  {
    var found := M7s(scripts);
    M7sAreScripts(scripts, 0);
    M7sAreScripts(scripts, 1);
    CommitsIff(scripts[found[0].index], found[0].hash);
    CommitsIff(scripts[found[1].index], found[1].hash);
  }

  lemma {:induction false} SoleObservation(scripts: seq<Bytes>, m7: Option<ObservedM7>)
    requires |scripts| <= MAX_OUTPUTS && |M7s(scripts)| == 1
    ensures Observed(scripts) == Ok(m7) <==> Commitment(scripts, m7)
  {
    var found := M7s(scripts)[0];
    M7sAreScripts(scripts, 0);
    OneSighted(scripts);
    CommitsEverywhere(scripts);
    CanonicalM7Iff(scripts[found.index], found.hash);
    var sole := Some(ObservedM7(found.index, found.hash, found.canonical));
    assert Commitment(scripts, sole);
    if Commitment(scripts, m7) {
      CommitmentIsUnique(scripts, sole, m7);
    }
  }

  lemma {:induction false} CommitmentIsUnique(scripts: seq<Bytes>, one: Option<ObservedM7>, two: Option<ObservedM7>)
    requires one.Some? && Commitment(scripts, one) && Commitment(scripts, two)
    ensures one == two
  {
    var o := one.value;
    assert CommitsTo(scripts[o.outputIndex], o.childHash);
    CommitsIff(scripts[o.outputIndex], o.childHash);
    if two.Some? {
      CommitsIff(scripts[two.value.outputIndex], two.value.childHash);
    }
  }

  lemma {:induction false} CommitsEverywhere(scripts: seq<Bytes>)
    ensures forall k, child :: 0 <= k < |scripts| ==> (CommitsTo(scripts[k], child) <==> M7Hash(scripts[k]) == Some(child))
  {
    forall k, child | 0 <= k < |scripts|
      ensures CommitsTo(scripts[k], child) <==> M7Hash(scripts[k]) == Some(child)
    {
      CommitsIff(scripts[k], child);
    }
  }

  lemma {:induction false} NoneSighted(scripts: seq<Bytes>)
    requires M7s(scripts) == []
    ensures forall k :: 0 <= k < |scripts| ==> M7Hash(scripts[k]) == None
  {
    forall k | 0 <= k < |scripts|
      ensures M7Hash(scripts[k]) == None
    {
      if IsM7(scripts[k]) {
        ScriptsAreSighted(scripts, k);
      }
    }
  }

  lemma {:induction false} OneSighted(scripts: seq<Bytes>)
    requires |M7s(scripts)| == 1
    ensures forall k :: 0 <= k < |scripts| && k != M7s(scripts)[0].index ==> M7Hash(scripts[k]) == None
  {
    forall k | 0 <= k < |scripts| && k != M7s(scripts)[0].index
      ensures M7Hash(scripts[k]) == None
    {
      if IsM7(scripts[k]) {
        ScriptsAreSighted(scripts, k);
      }
    }
  }

  /** A BMM request: the first output pushes tag, slot, child hash and parent hash. */
  predicate Requests(tx: ParsedTransaction, child: Hash, parent: Hash) {
    tx.outputs != [] && tx.outputs[0].script == [OP_RETURN, 68] + (M8_TAG + ([SLOT] + (child + parent)))
  }

  ghost predicate IsRequest(tx: ParsedTransaction) {
    exists child, parent :: Requests(tx, child, parent)
  }

  ghost function RequestCount(txs: seq<ParsedTransaction>): nat {
    if txs == [] then 0 else RequestCount(txs[..|txs| - 1]) + if IsRequest(txs[|txs| - 1]) then 1 else 0
  }

  // ----- one transaction -----

  /** What a block fixes for the treasury: its hash and height, and which proposal is active. */
  datatype Setting = Setting(block: Hash, height: u32, slotUsed: bool, requiredActive: bool)

  predicate IsTreasury(output: TxOut) {
    output.script == TREASURY_SCRIPT
  }

  ghost predicate HasTreasury(tx: ParsedTransaction) {
    exists i :: 0 <= i < |tx.outputs| && IsTreasury(tx.outputs[i])
  }

  ghost predicate SpendsTreasury(tx: ParsedTransaction, ctip: Option<Ctip>) {
    ctip.Some? && ctip.value.txid + LittleEndian(ctip.value.vout, 4) in tx.inputs
  }

  /** Output `i` is the only treasury output and holds more than before; the push after it is the address,
      and the rise is recorded while the required proposal is active and the address has 1 to 128 bytes. */
  ghost predicate Raises(x: Setting, before: Option<Ctip>, tx: ParsedTransaction, i: nat, after: Option<Ctip>, record: Option<Deposit>) {
    && SoleTreasury(tx.outputs, i) && i + 1 < |tx.outputs| && i <= U32_MAX
    && var address, held := ExtractPush(tx.outputs[i + 1].script), if before.Some? then before.value.value else 0;
      && address.Some? && Amount(tx.outputs[i]) > held
      && after == Some(Ctip(tx.txid, i, Amount(tx.outputs[i])))
      && record == if x.requiredActive && 1 <= |address.value| <= 128
                   then Some(Deposit(after.value, x.block, x.height, Amount(tx.outputs[i]) - held, address.value)) else None
  }

  /** Before any activation treasury scripts mean nothing. Afterwards a transaction either raises the
      treasury, spending it if there is one, or has nothing to do with it. */
  ghost predicate TreasuryRule(x: Setting, before: Option<Ctip>, tx: ParsedTransaction, after: Option<Ctip>, record: Option<Deposit>) {
    if !x.slotUsed then after == before && record == None
    else if HasTreasury(tx) then
      (before.Some? ==> SpendsTreasury(tx, before)) && exists i: nat :: Raises(x, before, tx, i, after, record)
    else !SpendsTreasury(tx, before) && after == before && record == None
  }

  /** A request repeats the block's M7 and its parent. */
  ghost predicate RequestRule(tx: ParsedTransaction, m7: Option<ObservedM7>, parent: Hash) {
    forall c, p :: Requests(tx, c, p) ==> m7.Some? && c == m7.value.childHash && p == parent
  }

  function SettingOf(x: Context): Setting {
    Setting(x.block, x.height, x.slotActive, x.requiredActive)
  }

  function Recorded(record: Option<Deposit>): seq<Deposit> {
    if record.Some? then [record.value] else []
  }

  lemma {:induction false} RequestExactly(x: Context, l: Ledger, tx: ParsedTransaction)
    ensures OnM8(x, l, tx).Ok? <==> RequestRule(tx, x.m7, x.previous) && (IsRequest(tx) ==> l.m8s != U32_MAX)
    ensures OnM8(x, l, tx).Ok? ==> OnM8(x, l, tx).value == l.(m8s := l.m8s + if IsRequest(tx) then 1 else 0)
  {
    forall child, parent
      ensures Requests(tx, child, parent) <==> ParseM8(tx) == Some((child, parent))
    {
      M8Form(tx, child, parent);
    }
    if ParseM8(tx).Some? {
      assert Requests(tx, ParseM8(tx).value.0, ParseM8(tx).value.1);
    }
  }

  predicate SoleTreasury(outputs: seq<TxOut>, i: nat) {
    i < |outputs| && IsTreasury(outputs[i]) && forall k :: 0 <= k < |outputs| && k != i ==> !IsTreasury(outputs[k])
  }

  lemma {:induction false} NoTreasury(outputs: seq<TxOut>)
    ensures Treasury(outputs) == Ok(None) <==> forall k :: 0 <= k < |outputs| ==> !IsTreasury(outputs[k])
  {
    if outputs != [] {
      var n := |outputs| - 1;
      var init := outputs[..n];
      assert forall k :: 0 <= k < n ==> init[k] == outputs[k];
      NoTreasury(init);
      if Treasury(outputs) != Ok(None) && Treasury(init) == Ok(None) {
        assert IsTreasury(outputs[n]);
      }
    }
  }

  lemma {:induction false} TreasuryAt(outputs: seq<TxOut>, i: nat)
    ensures Treasury(outputs) == Ok(Some(i)) <==> SoleTreasury(outputs, i)
  {
    if outputs != [] {
      var n := |outputs| - 1;
      var init := outputs[..n];
      assert forall k :: 0 <= k < n ==> init[k] == outputs[k];
      NoTreasury(init);
      TreasuryAt(init, i);
      LastTreasury(outputs, i);
    }
  }

  /** A sole treasury output is the last one after none, or an earlier one that the last leaves alone. */
  lemma {:induction false} LastTreasury(outputs: seq<TxOut>, i: nat)
    requires outputs != []
    ensures var n := |outputs| - 1;
      SoleTreasury(outputs, i) <==>
        if IsTreasury(outputs[n]) then i == n && forall k :: 0 <= k < n ==> !IsTreasury(outputs[..n][k])
        else SoleTreasury(outputs[..n], i)
  {
    var n := |outputs| - 1;
    assert forall k :: 0 <= k < n ==> outputs[..n][k] == outputs[k];
  }

  lemma {:induction false} TreasuryOutputs(outputs: seq<TxOut>)
    ensures Treasury(outputs) == Ok(None) <==> forall k :: 0 <= k < |outputs| ==> !IsTreasury(outputs[k])
    ensures forall i: nat :: Treasury(outputs) == Ok(Some(i)) <==> SoleTreasury(outputs, i)
  {
    NoTreasury(outputs);
    forall i: nat
      ensures Treasury(outputs) == Ok(Some(i)) <==> SoleTreasury(outputs, i)
    {
      TreasuryAt(outputs, i);
    }
  }

  lemma {:induction false} SpendsExactly(tx: ParsedTransaction, c: Ctip)
    requires Distinct(tx.inputs)
    ensures Spends(tx.inputs, c) == if SpendsTreasury(tx, Some(c)) then 1 else 0
  {
    SpendsAtMostOnce(tx.inputs, c);
  }

  lemma {:induction false} SameRecord(deposits: seq<Deposit>, one: Option<Deposit>, two: Option<Deposit>)
    ensures deposits + Recorded(one) == deposits + Recorded(two) <==> one == two
    ensures deposits + Recorded(None) == deposits
  {
    if one.Some? {
      assert (deposits + Recorded(one))[|deposits|] == one.value;
    }
    if two.Some? {
      assert (deposits + Recorded(two))[|deposits|] == two.value;
    }
  }

  lemma {:induction false} MoveExactly(x: Context, l: Ledger, tx: ParsedTransaction, i: nat, ctip: Option<Ctip>, record: Option<Deposit>)
    requires Treasury(tx.outputs) == Ok(Some(i)) && i < |tx.outputs| <= MAX_OUTPUTS
    ensures Move(x, l, tx, i) == Ok(l.(ctip := ctip, deposits := l.deposits + Recorded(record)))
       <==> Raises(SettingOf(x), l.ctip, tx, i, ctip, record)
  {
    TreasuryOutputs(tx.outputs);
    var moved := Move(x, l, tx, i);
    if moved.Ok? {
      var rise := MovedRecord(x, l, tx, i);
      SameRecord(l.deposits, rise, record);
    }
  }

  /** What a successful move records. */
  lemma {:induction false} MovedRecord(x: Context, l: Ledger, tx: ParsedTransaction, i: nat) returns (record: Option<Deposit>)
    requires Treasury(tx.outputs) == Ok(Some(i)) && i < |tx.outputs| && Move(x, l, tx, i).Ok?
    ensures Raises(SettingOf(x), l.ctip, tx, i, Move(x, l, tx, i).value.ctip, record)
    ensures Move(x, l, tx, i).value == l.(ctip := Move(x, l, tx, i).value.ctip, deposits := l.deposits + Recorded(record))
  {
    TreasuryOutputs(tx.outputs);
    var address, held := AddressAfter(tx, i).value, OldValue(l);
    record := if x.requiredActive && 0 < |address| <= 128
              then Some(Deposit(Ctip(tx.txid, i, Amount(tx.outputs[i])), x.block, x.height, Amount(tx.outputs[i]) - held, address))
              else None;
    SameRecord(l.deposits, record, None);
  }

  lemma {:induction false} TreasuryExactly(x: Context, l: Ledger, tx: ParsedTransaction, ctip: Option<Ctip>, record: Option<Deposit>)
    requires ReplayableTransaction(tx) && x.slotActive
    ensures OnTreasury(x, l, tx) == Ok(l.(ctip := ctip, deposits := l.deposits + Recorded(record)))
       <==> TreasuryRule(SettingOf(x), l.ctip, tx, ctip, record)
  {
    TreasuryOutputs(tx.outputs);
    TreasuryErrors(tx.outputs);
    if l.ctip.Some? {
      SpendsExactly(tx, l.ctip.value);
    }
    SameRecord(l.deposits, record, None);
    var output := Treasury(tx.outputs);
    if output.Ok? && output.value.Some? {
      MoveExactly(x, l, tx, output.value.value, ctip, record);
    }
  }

  ghost predicate TransactionRule(x: Setting, m7: Option<ObservedM7>, parent: Hash, before: Option<Ctip>, tx: ParsedTransaction,
                                  after: Option<Ctip>, record: Option<Deposit>)
  {
    RequestRule(tx, m7, parent) && TreasuryRule(x, before, tx, after, record)
  }

  lemma {:induction false} TransactionExactly(x: Context, l: Ledger, tx: ParsedTransaction, ctip: Option<Ctip>, record: Option<Deposit>)
    requires ReplayableTransaction(tx)
    ensures OnTransaction(x, l, tx) == Ok(Ledger(ctip, l.deposits + Recorded(record), l.m8s + if IsRequest(tx) then 1 else 0))
       <==> TransactionRule(SettingOf(x), x.m7, x.previous, l.ctip, tx, ctip, record) && (IsRequest(tx) ==> l.m8s != U32_MAX)
  {
    RequestExactly(x, l, tx);
    var requested := OnM8(x, l, tx);
    SameRecord(l.deposits, record, None);
    if requested.Ok? && x.slotActive {
      TreasuryExactly(x, requested.value, tx, ctip, record);
    }
  }

  /** Whatever a transaction does is the rule with some record. */
  lemma {:induction false} TransactionRecords(x: Context, l: Ledger, tx: ParsedTransaction) returns (record: Option<Deposit>)
    requires OnTransaction(x, l, tx).Ok?
    ensures OnTransaction(x, l, tx).value.deposits == l.deposits + Recorded(record)
    ensures OnTransaction(x, l, tx).value.m8s == l.m8s + if IsRequest(tx) then 1 else 0
  {
    RequestExactly(x, l, tx);
    var after := OnTransaction(x, l, tx).value;
    record := if after.deposits == l.deposits then None else Some(after.deposits[|l.deposits|]);
  }

  /** The treasury from transaction to transaction, and what each one records. */
  ghost predicate Chain(x: Setting, m7: Option<ObservedM7>, parent: Hash, start: Option<Ctip>, txs: seq<ParsedTransaction>,
                        ctips: seq<Option<Ctip>>, records: seq<Option<Deposit>>)
  {
    && |ctips| == |txs| + 1 && |records| == |txs| && ctips[0] == start
    && forall k :: 0 <= k < |txs| ==> TransactionRule(x, m7, parent, ctips[k], txs[k], ctips[k + 1], records[k])
  }

  function DepositsOf(records: seq<Option<Deposit>>): seq<Deposit> {
    if records == [] then [] else DepositsOf(records[..|records| - 1]) + Recorded(records[|records| - 1])
  }

  lemma {:induction false} ChainPrefix(x: Setting, m7: Option<ObservedM7>, parent: Hash, start: Option<Ctip>,
                                       txs: seq<ParsedTransaction>, ctips: seq<Option<Ctip>>, records: seq<Option<Deposit>>)
    requires Chain(x, m7, parent, start, txs, ctips, records) && txs != []
    ensures Chain(x, m7, parent, start, txs[..|txs| - 1], ctips[..|txs|], records[..|txs| - 1])
  {
    var n := |txs| - 1;
    forall k | 0 <= k < n
      ensures TransactionRule(x, m7, parent, ctips[..n + 1][k], txs[..n][k], ctips[..n + 1][k + 1], records[..n][k])
    {
      assert TransactionRule(x, m7, parent, ctips[k], txs[k], ctips[k + 1], records[k]);
    }
  }

  /** A chain is what the transaction fold computes. */
  lemma {:induction false} ChainComputes(x: Context, start: Option<Ctip>, txs: seq<ParsedTransaction>, ctips: seq<Option<Ctip>>,
                                         records: seq<Option<Deposit>>)
    requires forall k :: 0 <= k < |txs| ==> ReplayableTransaction(txs[k])
    requires Chain(SettingOf(x), x.m7, x.previous, start, txs, ctips, records) && RequestCount(txs) <= U32_MAX
    ensures Transactions(x, Ledger(start, [], 0), txs) == Ok(Ledger(ctips[|txs|], DepositsOf(records), RequestCount(txs)))
  {
    if txs != [] {
      var n := |txs| - 1;
      ChainPrefix(SettingOf(x), x.m7, x.previous, start, txs, ctips, records);
      ChainComputes(x, start, txs[..n], ctips[..n + 1], records[..n]);
      var before := Ledger(ctips[n], DepositsOf(records[..n]), RequestCount(txs[..n]));
      assert Transactions(x, Ledger(start, [], 0), txs[..n]) == Ok(before);
      assert TransactionRule(SettingOf(x), x.m7, x.previous, ctips[n], txs[n], ctips[n + 1], records[n]);
      TransactionExactly(x, before, txs[n], ctips[n + 1], records[n]);
    }
  }

  /** Whatever the transaction fold accepts is a chain. */
  lemma {:induction false} FoldIsChain(x: Context, start: Option<Ctip>, txs: seq<ParsedTransaction>)
    returns (ctips: seq<Option<Ctip>>, records: seq<Option<Deposit>>)
    requires forall k :: 0 <= k < |txs| ==> ReplayableTransaction(txs[k])
    requires Transactions(x, Ledger(start, [], 0), txs).Ok?
    ensures Chain(SettingOf(x), x.m7, x.previous, start, txs, ctips, records) && RequestCount(txs) <= U32_MAX
    ensures Transactions(x, Ledger(start, [], 0), txs).value == Ledger(ctips[|txs|], DepositsOf(records), RequestCount(txs))
  {
    if txs == [] {
      ctips, records := [start], [];
    } else {
      var n := |txs| - 1;
      var init, inits := FoldIsChain(x, start, txs[..n]);
      var before := Transactions(x, Ledger(start, [], 0), txs[..n]).value;
      var after := OnTransaction(x, before, txs[n]).value;
      var record := TransactionRecords(x, before, txs[n]);
      TransactionExactly(x, before, txs[n], after.ctip, record);
      ctips, records := init + [after.ctip], inits + [record];
      ChainExtends(SettingOf(x), x.m7, x.previous, start, txs, init, inits, after.ctip, record);
    }
  }

  lemma {:induction false} ChainExtends(x: Setting, m7: Option<ObservedM7>, parent: Hash, start: Option<Ctip>,
                                        txs: seq<ParsedTransaction>, ctips: seq<Option<Ctip>>, records: seq<Option<Deposit>>,
                                        ctip: Option<Ctip>, record: Option<Deposit>)
    requires txs != [] && Chain(x, m7, parent, start, txs[..|txs| - 1], ctips, records)
    requires TransactionRule(x, m7, parent, ctips[|txs| - 1], txs[|txs| - 1], ctip, record)
    ensures Chain(x, m7, parent, start, txs, ctips + [ctip], records + [record])
    ensures DepositsOf(records + [record]) == DepositsOf(records) + Recorded(record)
  {
    var n := |txs| - 1;
    assert (records + [record])[..n] == records;
    forall k | 0 <= k < |txs|
      ensures TransactionRule(x, m7, parent, (ctips + [ctip])[k], txs[k], (ctips + [ctip])[k + 1], (records + [record])[k])
    {
      if k < n {
        assert TransactionRule(x, m7, parent, ctips[k], txs[..n][k], ctips[k + 1], records[k]);
      }
    }
  }

  // ----- one block -----

  /** The treasury rules under the proposal that is active once the coinbase has been read. */
  function SettingIn(s: State, b: ParsedBlock, active: Option<Hash>): Setting {
    Setting(b.hash, s.nextHeight, active.Some?, active == Some(s.config.requiredProposal))
  }

  /** What makes a block acceptable, apart from its transactions. */
  ghost predicate CoinbaseRule(s: State, b: ParsedBlock, m7: Option<ObservedM7>, sha: HashFunction) {
    var scripts := Scripts(b.coinbase.outputs);
    && s.nextHeight < U32_MAX && b.header.previous == (if s.nextHeight == 0 then ZERO_HASH else s.tip)
    && MessagesAllowed(s, scripts, sha) && Commitment(scripts, m7)
  }

  /** What the coinbase does to the proposals. */
  ghost predicate ProposalRule(s: State, b: ParsedBlock, after: State, sha: HashFunction) {
    var scripts := Scripts(b.coinbase.outputs);
    && after.config == s.config && after.nextHeight == s.nextHeight + 1 && after.tip == b.hash
    && ActiveAfter(s, scripts, after.active) && RequiredAfter(s, scripts, b.hash, after.required)
    && forall h :: PendingAfter(s, scripts, after.active.Some?, h, Lookup(after.pending, h), sha)
  }

  /** What the block reports. */
  ghost predicate EffectsRule(s: State, b: ParsedBlock, after: State, effects: Effects, m7: Option<ObservedM7>,
                              records: seq<Option<Deposit>>)
  {
    var requiredActive := after.active == Some(s.config.requiredProposal);
    && effects.deposits == DepositsOf(records) && effects.m8s == RequestCount(Others(b))
    && effects.sawM7 == m7.Some? && effects.requiredActive == requiredActive
    && effects.edge == if m7.Some? && m7.value.canonical && requiredActive
                       then Some(BmmEdge(b.header.previous, b.hash, s.nextHeight, b.coinbaseTxid, m7.value.outputIndex,
                                         m7.value.childHash))
                       else None
  }

  ghost predicate BlockRule(s: State, b: ParsedBlock, after: State, effects: Effects, m7: Option<ObservedM7>,
                            ctips: seq<Option<Ctip>>, records: seq<Option<Deposit>>, sha: HashFunction)
  {
    && CoinbaseRule(s, b, m7, sha) && ProposalRule(s, b, after, sha)
    && Chain(SettingIn(s, b, after.active), m7, b.header.previous, s.ctip, Others(b), ctips, records)
    && RequestCount(Others(b)) <= U32_MAX && after.ctip == ctips[|Others(b)|]
    && EffectsRule(s, b, after, effects, m7, records)
  }

  lemma {:induction false} ScriptAt(outputs: seq<TxOut>, k: nat)
    requires k < |outputs|
    ensures Scripts(outputs)[k] == outputs[k].script
  {
    if k < |outputs| - 1 {
      ScriptAt(outputs[..|outputs| - 1], k);
    }
  }

  lemma {:induction false} ObserveInExactly(b: ParsedBlock, m7: Option<ObservedM7>)
    requires |b.coinbase.outputs| <= MAX_OUTPUTS
    ensures ObserveIn(b) == Ok(m7) <==> Commitment(Scripts(b.coinbase.outputs), m7)
  {
    ObservedExactly(Scripts(b.coinbase.outputs), m7);
  }

  /** Reading the coinbase leaves exactly the proposals of the rule. */
  lemma {:induction false} ReadMeansRule(s: State, b: ParsedBlock, mid: Mid, sha: HashFunction)
    requires Valid(s) && ReadUpTo(s, b.hash, Scripts(b.coinbase.outputs), mid, sha)
    ensures forall h :: PendingAfter(s, Scripts(b.coinbase.outputs), mid.active.Some?, h,
                                     Lookup(Aged(s.config, s.nextHeight, mid.active, mid.pending), h), sha)
  {
    var scripts := Scripts(b.coinbase.outputs);
    forall h
      ensures PendingAfter(s, scripts, mid.active.Some?, h, Lookup(Aged(s.config, s.nextHeight, mid.active, mid.pending), h), sha)
    {
      assert KnownAt(s, scripts, mid, h, sha);
      AgedExactly(s, scripts, mid, h, sha);
    }
  }

  lemma {:induction false} StepFollowsRule(s: State, b: ParsedBlock, sha: HashFunction)
    returns (m7: Option<ObservedM7>, ctips: seq<Option<Ctip>>, records: seq<Option<Deposit>>)
    requires Valid(s) && Replayable(b) && NonzeroHashes(b, sha) && Roomy(s, Scripts(b.coinbase.outputs)) && Step(s, b, sha).Ok?
    ensures BlockRule(s, b, Step(s, b, sha).value.0, Step(s, b, sha).value.1, m7, ctips, records, sha)
  {
    StepAcceptedIff(s, b, sha);
    var p := Process(s, b, sha).value;
    m7, ctips, records := ProcessFollowsRule(s, b, p, sha);
  }

  lemma {:induction false} ProcessFollowsRule(s: State, b: ParsedBlock, p: Processed, sha: HashFunction)
    returns (m7: Option<ObservedM7>, ctips: seq<Option<Ctip>>, records: seq<Option<Deposit>>)
    requires Valid(s) && Replayable(b) && Roomy(s, Scripts(b.coinbase.outputs)) && s.nextHeight < U32_MAX && Linked(s, b)
    requires Process(s, b, sha) == Ok(p)
    ensures BlockRule(s, b, Committed(s, b, p), EffectsOf(s, b, p), m7, ctips, records, sha)
  {
    m7 := p.m7;
    CoinbaseFollowsRule(s, b, p, sha);
    ctips, records := FoldIsChain(ContextOf(s, b, p.mid, m7), s.ctip, Others(b));
  }

  lemma {:induction false} CoinbaseFollowsRule(s: State, b: ParsedBlock, p: Processed, sha: HashFunction)
    requires Valid(s) && Replayable(b) && Roomy(s, Scripts(b.coinbase.outputs)) && s.nextHeight < U32_MAX && Linked(s, b)
    requires Process(s, b, sha) == Ok(p)
    ensures CoinbaseRule(s, b, p.m7, sha) && ProposalRule(s, b, Committed(s, b, p), sha)
    ensures RequiredActive(s.config, p.mid.active, p.mid.required) == (p.mid.active == Some(s.config.requiredProposal))
  {
    MessagesExactly(s, b.hash, Scripts(b.coinbase.outputs), sha);
    MidOfStep(s, b, sha, false);
    ObserveInExactly(b, p.m7);
    ReadMeansRule(s, b, p.mid, sha);
  }

  lemma {:induction false} ActiveIsUnique(s: State, scripts: seq<Bytes>, a: Option<Hash>, b: Option<Hash>)
    requires ActiveAfter(s, scripts, a) && ActiveAfter(s, scripts, b)
    ensures a == b
  {
    if h :| Elects(s, scripts, h) {
      assert a == Some(h);
    }
  }

  lemma {:induction false} PendingIsUnique(s: State, scripts: seq<Bytes>, used: bool, a: map<Hash, Pending>, b: map<Hash, Pending>,
                                           sha: HashFunction)
    requires forall h :: PendingAfter(s, scripts, used, h, Lookup(a, h), sha)
    requires forall h :: PendingAfter(s, scripts, used, h, Lookup(b, h), sha)
    ensures a == b
  {
    forall h: Hash
      ensures Lookup(a, h) == Lookup(b, h)
    {
      assert PendingAfter(s, scripts, used, h, Lookup(a, h), sha) && PendingAfter(s, scripts, used, h, Lookup(b, h), sha);
    }
    assert forall h :: h in a <==> Lookup(a, h).Some?;
    assert forall h :: h in b <==> Lookup(b, h).Some?;
    assert forall h :: h in a ==> a[h] == Lookup(a, h).value && b[h] == Lookup(b, h).value;
  }

  lemma {:induction false} RuleIsStep(s: State, b: ParsedBlock, after: State, effects: Effects, m7: Option<ObservedM7>,
                                      ctips: seq<Option<Ctip>>, records: seq<Option<Deposit>>, sha: HashFunction)
    requires Valid(s) && Replayable(b) && NonzeroHashes(b, sha) && Roomy(s, Scripts(b.coinbase.outputs))
    requires BlockRule(s, b, after, effects, m7, ctips, records, sha)
    ensures Step(s, b, sha) == Ok((after, effects))
  {
    var p := RuleIsProcess(s, b, after, effects, m7, ctips, records, sha);
    StepAcceptedIff(s, b, sha);
    StepOutput(s, b, p, sha);
  }

  lemma {:induction false} StepOutput(s: State, b: ParsedBlock, p: Processed, sha: HashFunction)
    requires Step(s, b, sha).Ok? && Process(s, b, sha) == Ok(p)
    ensures Step(s, b, sha) == Ok((Committed(s, b, p), EffectsOf(s, b, p)))
  {
  }

  lemma {:induction false} RuleIsProcess(s: State, b: ParsedBlock, after: State, effects: Effects, m7: Option<ObservedM7>,
                                         ctips: seq<Option<Ctip>>, records: seq<Option<Deposit>>, sha: HashFunction)
    returns (p: Processed)
    requires Valid(s) && Replayable(b) && Roomy(s, Scripts(b.coinbase.outputs))
    requires BlockRule(s, b, after, effects, m7, ctips, records, sha)
    ensures s.nextHeight < U32_MAX && Linked(s, b) && Process(s, b, sha) == Ok(p)
    ensures Committed(s, b, p) == after && EffectsOf(s, b, p) == effects
  {
    var mid := RuleIsMid(s, b, after, m7, sha);
    var ledger := Ledger(after.ctip, effects.deposits, effects.m8s);
    ChainComputes(ContextOf(s, b, mid, m7), s.ctip, Others(b), ctips, records);
    ObserveInExactly(b, m7);
    Assemble(s, b, mid, m7, ledger, sha);
    p := Processed(mid, after.pending, m7, ledger);
  }

  /** Reading the coinbase of an allowed block succeeds, with the rule's proposals. */
  lemma {:induction false} RuleIsMid(s: State, b: ParsedBlock, after: State, m7: Option<ObservedM7>, sha: HashFunction)
    returns (mid: Mid)
    requires Valid(s) && Roomy(s, Scripts(b.coinbase.outputs))
    requires CoinbaseRule(s, b, m7, sha) && ProposalRule(s, b, after, sha)
    ensures Messages(s.config, s.nextHeight, b.hash, Start(s), Scripts(b.coinbase.outputs), sha) == Ok(mid)
    ensures NoneAhead(mid.pending, s.nextHeight) && mid.active == after.active && mid.required == after.required
    ensures Aged(s.config, s.nextHeight, mid.active, mid.pending) == after.pending
    ensures RequiredActive(s.config, mid.active, mid.required) == (after.active == Some(s.config.requiredProposal))
  {
    var scripts := Scripts(b.coinbase.outputs);
    MessagesExactly(s, b.hash, scripts, sha);
    MidOfStep(s, b, sha, false);
    mid := Messages(s.config, s.nextHeight, b.hash, Start(s), scripts, sha).value;
    ActiveIsUnique(s, scripts, mid.active, after.active);
    ReadMeansRule(s, b, mid, sha);
    PendingIsUnique(s, scripts, after.active.Some?, Aged(s.config, s.nextHeight, mid.active, mid.pending), after.pending, sha);
  }

  lemma {:induction false} Assemble(s: State, b: ParsedBlock, mid: Mid, m7: Option<ObservedM7>, ledger: Ledger, sha: HashFunction)
    requires Messages(s.config, s.nextHeight, b.hash, Start(s), Scripts(b.coinbase.outputs), sha) == Ok(mid)
    requires NoneAhead(mid.pending, s.nextHeight) && ObserveIn(b) == Ok(m7)
    requires Transactions(ContextOf(s, b, mid, m7), Ledger(s.ctip, [], 0), Others(b)) == Ok(ledger)
    ensures Process(s, b, sha) == Ok(Processed(mid, Aged(s.config, s.nextHeight, mid.active, mid.pending), m7, ledger))
  {
  }

  /** The replay's step is exactly the block rule: it accepts what the rule accepts, with that state and
      those effects. */
  lemma {:induction false} StepExactly(s: State, b: ParsedBlock, after: State, effects: Effects, sha: HashFunction)
    requires Valid(s) && Replayable(b) && NonzeroHashes(b, sha) && Roomy(s, Scripts(b.coinbase.outputs))
    ensures Step(s, b, sha) == Ok((after, effects)) <==>
      exists m7, ctips, records :: BlockRule(s, b, after, effects, m7, ctips, records, sha)
  {
    if Step(s, b, sha) == Ok((after, effects)) {
      var m7, ctips, records := StepFollowsRule(s, b, sha);
      assert BlockRule(s, b, after, effects, m7, ctips, records, sha);
    }
    if m7, ctips, records :| BlockRule(s, b, after, effects, m7, ctips, records, sha) {
      RuleIsStep(s, b, after, effects, m7, ctips, records, sha);
    }
  }

  // ----- runs -----

  lemma {:induction false} RunHasRoom(c: Config, blocks: seq<ParsedBlock>, b: ParsedBlock, sha: HashFunction)
    requires ValidConfig(c) && GoodBlocks(blocks, sha) && Run(c, blocks, sha).Ok? && Replayable(b)
    ensures Roomy(Run(c, blocks, sha).value.0, Scripts(b.coinbase.outputs))
  {
    var s := Run(c, blocks, sha).value.0;
    RunValid(c, blocks, sha);
    RunTraced(c, blocks, sha);
    RoomForOneMoreBlock(s, blocks, sha);
    Distribute(LongestAge(c), 1, MAX_OUTPUTS);
    forall h | h in s.pending
      ensures s.pending[h].votes < U16_MAX
    {
      assert TracedTo(s.pending[h], h, blocks, c, sha);
    }
  }

  /** On every run from before genesis, the next block is accepted exactly by the rule. */
  lemma {:induction false} NextBlockExactly(c: Config, blocks: seq<ParsedBlock>, b: ParsedBlock, after: State, effects: Effects,
                                            sha: HashFunction)
    requires ValidConfig(c) && GoodBlocks(blocks, sha) && Run(c, blocks, sha).Ok? && Replayable(b) && NonzeroHashes(b, sha)
    ensures Step(Run(c, blocks, sha).value.0, b, sha) == Ok((after, effects)) <==>
      exists m7, ctips, records :: BlockRule(Run(c, blocks, sha).value.0, b, after, effects, m7, ctips, records, sha)
  {
    RunValid(c, blocks, sha);
    RunHasRoom(c, blocks, b, sha);
    StepExactly(Run(c, blocks, sha).value.0, b, after, effects, sha);
  }

  /** The state before block `i` of a run. */
  function StateAt(c: Config, blocks: seq<ParsedBlock>, i: nat, sha: HashFunction): State
    requires i <= |blocks|
  {
    var run := Run(c, blocks[..i], sha);
    if run.Ok? then run.value.0 else Genesis(c)
  }

  /** Votes for `h` from block `from` on. */
  ghost function AckCount(blocks: seq<ParsedBlock>, from: nat, h: Hash): nat {
    if |blocks| <= from then 0
    else
      AckCount(blocks[..|blocks| - 1], from, h)
      + if Acked(Scripts(blocks[|blocks| - 1].coinbase.outputs), h) then 1 else 0
  }

  /** Created in block `j`: proposed there while not pending. */
  ghost predicate CreatedIn(c: Config, blocks: seq<ParsedBlock>, j: nat, h: Hash, sha: HashFunction) {
    j < |blocks| && Creates(StateAt(c, blocks, j, sha), Scripts(blocks[j].coinbase.outputs), h, sha)
  }

  /** A proposal of this age, with these votes, outlives the block between two states: it is not activated,
      not too old, and not out of misses under the settings in force after the block. */
  ghost predicate OutlivesBlock(c: Config, before: State, b: ParsedBlock, after: State, h: Hash, age: nat, votes: nat) {
    !Elects(before, Scripts(b.coinbase.outputs), h) && InTime(c, after.active.Some?, age, votes)
  }

  /** A proposal created in block `j` outlives block `i`. */
  ghost predicate Outlives(c: Config, blocks: seq<ParsedBlock>, j: nat, i: nat, h: Hash, sha: HashFunction)
    requires j < i < |blocks|
  {
    OutlivesBlock(c, StateAt(c, blocks, i, sha), blocks[i], StateAt(c, blocks, i + 1, sha), h, i - j,
                  AckCount(blocks[..i + 1], j + 1, h))
  }

  ghost predicate Alive(c: Config, blocks: seq<ParsedBlock>, j: nat, h: Hash, sha: HashFunction) {
    CreatedIn(c, blocks, j, h, sha) && forall i :: j < i < |blocks| ==> Outlives(c, blocks, j, i, h, sha)
  }

  /** Pending since block `j`. */
  ghost predicate PendingSince(s: State, h: Hash, j: nat) {
    h in s.pending && s.pending[h].height == j
  }

  lemma {:induction false} AliveSnoc(c: Config, init: seq<ParsedBlock>, last: ParsedBlock, j: nat, h: Hash, sha: HashFunction)
    requires j < |init|
    ensures Alive(c, init + [last], j, h, sha) <==> Alive(c, init, j, h, sha) && Outlives(c, init + [last], j, |init|, h, sha)
  {
    var all, n := init + [last], |init|;
    assert all[..j] == init[..j] && all[j] == init[j];
    forall i | j < i < n
      ensures Outlives(c, all, j, i, h, sha) <==> Outlives(c, init, j, i, h, sha)
    {
      assert all[..i] == init[..i] && all[..i + 1] == init[..i + 1] && all[i] == init[i];
    }
  }

  lemma {:induction false} AckSnoc(init: seq<ParsedBlock>, last: ParsedBlock, from: nat, h: Hash)
    ensures AckCount(init + [last], from, h)
         == if from > |init| then 0 else AckCount(init, from, h) + if Acked(Scripts(last.coinbase.outputs), h) then 1 else 0
  {
    assert (init + [last])[..|init|] == init;
  }

  /** One block: pending since `j` afterwards exactly when pending since `j` before and surviving, or
      created now. */
  lemma {:induction false} SinceAfterStep(s: State, b: ParsedBlock, after: State, h: Hash, j: nat, sha: HashFunction)
    requires Valid(s) && ProposalRule(s, b, after, sha)
    ensures var scripts := Scripts(b.coinbase.outputs);
      && (PendingSince(after, h, s.nextHeight) <==> Creates(s, scripts, h, sha))
      && (j < s.nextHeight ==> (PendingSince(after, h, j) <==>
            PendingSince(s, h, j) && !Elects(s, scripts, h) && Survives(s, scripts, after.active.Some?, h)))
      && (Creates(s, scripts, h, sha) ==> after.pending[h].votes == 0)
      && (j < s.nextHeight && PendingSince(after, h, j) ==>
            after.pending[h].votes == s.pending[h].votes + if Acked(scripts, h) then 1 else 0)
      && (PendingSince(after, h, j) ==> j <= s.nextHeight)
  {
    assert PendingAfter(s, Scripts(b.coinbase.outputs), after.active.Some?, h, Lookup(after.pending, h), sha);
    if h in s.pending {
      assert PendingOk(s, h);
    }
  }

  lemma {:induction false} ProposalsFollowRule(c: Config, init: seq<ParsedBlock>, before: State, last: ParsedBlock, after: State,
                                               sha: HashFunction)
    requires ValidConfig(c) && GoodBlocks(init, sha) && Run(c, init, sha).Ok? && before == Run(c, init, sha).value.0
    requires Replayable(last) && NonzeroHashes(last, sha) && Step(before, last, sha).Ok? && after == Step(before, last, sha).value.0
    ensures Valid(before) && ProposalRule(before, last, after, sha)
  {
    RunValid(c, init, sha);
    RunHasRoom(c, init, last, sha);
    var m7, ctips, records := StepFollowsRule(before, last, sha);
  }

  lemma {:induction false} PendingIsAlive(c: Config, blocks: seq<ParsedBlock>, h: Hash, j: nat, sha: HashFunction)
    requires ValidConfig(c) && GoodBlocks(blocks, sha) && Run(c, blocks, sha).Ok?
    ensures PendingSince(Run(c, blocks, sha).value.0, h, j) <==> Alive(c, blocks, j, h, sha)
    ensures PendingSince(Run(c, blocks, sha).value.0, h, j) ==>
      Run(c, blocks, sha).value.0.pending[h].votes == AckCount(blocks, j + 1, h)
  {
    if blocks != [] {
      var init, last := SplitLast(blocks);
      var before, effects, after, effect := RunSnoc(c, init, last, sha);
      PendingIsAlive(c, init, h, j, sha);
      RunValid(c, init, sha);
      ProposalsFollowRule(c, init, before, last, after, sha);
      assert blocks[..|init|] == init && blocks[..|init| + 1] == blocks;
      if j < |init| {
        OlderIsAlive(c, init, last, before, after, h, j, sha);
      } else {
        SinceAfterStep(before, last, after, h, j, sha);
      }
    }
  }

  lemma {:induction false} OlderIsAlive(c: Config, init: seq<ParsedBlock>, last: ParsedBlock, before: State, after: State, h: Hash, j: nat,
                                        sha: HashFunction)
    requires j < |init| == before.nextHeight && before.config == c && Valid(before) && ProposalRule(before, last, after, sha)
    requires StateAt(c, init + [last], |init|, sha) == before && StateAt(c, init + [last], |init| + 1, sha) == after
    requires PendingSince(before, h, j) <==> Alive(c, init, j, h, sha)
    requires PendingSince(before, h, j) ==> before.pending[h].votes == AckCount(init, j + 1, h)
    ensures PendingSince(after, h, j) <==> Alive(c, init + [last], j, h, sha)
    ensures PendingSince(after, h, j) ==> after.pending[h].votes == AckCount(init + [last], j + 1, h)
  {
    SinceAfterStep(before, last, after, h, j, sha);
    AckSnoc(init, last, j + 1, h);
    AliveSnoc(c, init, last, j, h, sha);
    if PendingSince(before, h, j) {
      OutlivesIsSurvival(c, init, last, before, after, h, j, sha);
    }
  }

  lemma {:induction false} OutlivesIsSurvival(c: Config, init: seq<ParsedBlock>, last: ParsedBlock, before: State, after: State,
                                              h: Hash, j: nat, sha: HashFunction)
    requires j < |init| == before.nextHeight && before.config == c
    requires StateAt(c, init + [last], |init|, sha) == before && StateAt(c, init + [last], |init| + 1, sha) == after
    requires PendingSince(before, h, j) && before.pending[h].votes == AckCount(init, j + 1, h)
    ensures Outlives(c, init + [last], j, |init|, h, sha) <==>
      !Elects(before, Scripts(last.coinbase.outputs), h)
      && Survives(before, Scripts(last.coinbase.outputs), after.active.Some?, h)
  {
    AckSnoc(init, last, j + 1, h);
    var votes := AckCount(init + [last], j + 1, h);
    LastOutlives(c, init, last, before, after, h, j, votes, sha);
    BlockSurvival(before, last, after, h, votes);
  }

  lemma {:induction false} LastOutlives(c: Config, init: seq<ParsedBlock>, last: ParsedBlock, before: State, after: State, h: Hash,
                                        j: nat, votes: nat, sha: HashFunction)
    requires j < |init| && votes == AckCount(init + [last], j + 1, h)
    requires StateAt(c, init + [last], |init|, sha) == before && StateAt(c, init + [last], |init| + 1, sha) == after
    ensures Outlives(c, init + [last], j, |init|, h, sha) <==> OutlivesBlock(c, before, last, after, h, |init| - j, votes)
  {
    assert (init + [last])[..|init| + 1] == init + [last];
  }

  lemma {:induction false} BlockSurvival(before: State, b: ParsedBlock, after: State, h: Hash, votes: nat)
    requires h in before.pending && before.pending[h].height < before.nextHeight
    requires votes == before.pending[h].votes + if Acked(Scripts(b.coinbase.outputs), h) then 1 else 0
    ensures OutlivesBlock(before.config, before, b, after, h, before.nextHeight - before.pending[h].height, votes) <==>
      !Elects(before, Scripts(b.coinbase.outputs), h)
      && Survives(before, Scripts(b.coinbase.outputs), after.active.Some?, h)
  {
  }

  /** The entry of a proposal by its history: none unless some block created it and it is still alive, and
      then from that block, with the votes cast since. */
  ghost predicate HasHistory(c: Config, blocks: seq<ParsedBlock>, h: Hash, entry: Option<Pending>, sha: HashFunction) {
    if entry.None? then forall j :: !Alive(c, blocks, j, h, sha)
    else
      && entry.value.hash == h && Alive(c, blocks, entry.value.height, h, sha)
      && entry.value.votes == AckCount(blocks, entry.value.height + 1, h)
      && forall j :: Alive(c, blocks, j, h, sha) ==> j == entry.value.height
  }

  /** On every run the pending proposals are exactly those that some block created and that outlived every
      block since, with the votes that those blocks cast for them. */
  lemma {:induction false} RunPendingExactly(c: Config, blocks: seq<ParsedBlock>, h: Hash, sha: HashFunction)
    requires ValidConfig(c) && GoodBlocks(blocks, sha) && Run(c, blocks, sha).Ok?
    ensures HasHistory(c, blocks, h, Lookup(Run(c, blocks, sha).value.0.pending, h), sha)
  {
    var s := Run(c, blocks, sha).value.0;
    RunValid(c, blocks, sha);
    forall j
      ensures PendingSince(s, h, j) <==> Alive(c, blocks, j, h, sha)
    {
      PendingIsAlive(c, blocks, h, j, sha);
    }
    if h in s.pending {
      assert PendingOk(s, h) && PendingSince(s, h, s.pending[h].height);
      PendingIsAlive(c, blocks, h, s.pending[h].height, sha);
    }
  }
}
