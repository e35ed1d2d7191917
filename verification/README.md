# USDD bridge: verified model

A Dafny 4.11 model of the USDD bridge, with proofs about its consensus-critical parts. The bridge mints
USDD on an Elements drivechain against USDT locked in an Ethereum vault, and pays USDT out against
proven USDD burns. Five connected pieces are modelled, each in its own modules:

- **Parent-chain replay** (`Replay`, `ReplayRules`): BIP300 proposals, votes, activation and expiry for
  slot 24, the single treasury output, and BIP301 requests, one parsed Bitcoin block a step.
- **Header work** (`Uint256`, `Difficulty`, `HeaderChain`): 256-bit limb arithmetic, compact
  difficulty bits, block proof, retargeting and cumulative chainwork.
- **Block parsing** (`Blocks`, `TransactionCodec`, `BlockParser`, `OrderedMerkle`, `Commitments`,
  `Signet`): exact transaction and block parsing against a canonical serializer, Merkle reduction with
  mutation detection, the two M7 extractors, and the Signet commitment rewrite with its signing digest.
  `BlockRules` and `SignetRules` say which blocks are accepted without the parser's and the verifier's
  steps, and `BlockFacts` carries what parsing guarantees over to the replay.
- **Burns and payouts** (`BurnTree`, `ElementsGuest`, `Vault`): the depth-64 sparse accumulator and
  its prover, the guest that sees only roots and branches, and the vault that pays out from its result.
- **Money accounting** (`MintController`, `Audit`): mint batches and controller transitions, the
  validators that restate them, and the audit replay.

`Machine` and `Digests` hold machine integers, powers of two, failure types and hash terms.

Operations that the sources write as loops or as updates of an object are methods and classes here,
each proved equal to a function or relation; the properties are lemmas about those functions, over all
inputs, all runs or all reachable states. `dafny verify dfyconfig.toml` checks everything.

Hypotheses are stated where they are used. Double SHA-256 is a function parameter over byte strings in
the Bitcoin modules: binding results there exhibit a collision instead of assuming there is none, and
`NonzeroHashes` says where a block's hashes must not be the all-zero string. In the burn and vault
modules hashes are free terms, so equal digests were made from equal inputs. `SoundVerifier` in `Vault`
says that the proof system accepts only statements of accepted guest runs.

Findings, each an exact condition with a witness. The two Ethereum guests do not check the execution
timestamp that the output validators require to be nonzero: their outputs validate exactly when it is
(`DepositGuestCommits`, `HeartbeatGuestOutput`; `ZeroTimestampDeposit`, `ZeroTimestampHeartbeat`).
Retarget bits can decode to nothing, exactly when the scaled target vanishes, which needs a target below
four (`SignetRetarget`, `ExpectedBits`; `VanishingTarget`). The Elements guest commits burns whose
recipient is the vault itself, which the vault always refuses; every other committed, unspent, affordable
burn is redeemable (`RunRedeemsExactly`; `BurnToVault`).

The pending-proposal limit is explained in the source by an age window of eleven blocks at insertion. That
window holds on every run of the Elements V1 settings (`ElementsV1Runs`), and whenever the unused threshold
is not above the used one (`LiveHeights`). The limit itself holds under every valid configuration
(`PendingLimitIsUnreachable`), because a proposal past its allowance of misses needs votes, and a block has
at most one (`PendingAtRest`).

## Model

| member | source | states |
|---|---|---|
| Replay.StepAcceptedIff | crates/usdd-bitcoin-bmm/src/block/bip300.rs:694-746 | From a valid state a linked block that gets past messages and transactions is always committed, except at the last height; the committed state always passes `validate` again; otherwise the processing error is returned |
| ReplayRules.NextBlockExactly | crates/usdd-bitcoin-bmm/src/block/bip300.rs:694-746 | On every run the next block is accepted, with this state and these effects, exactly when the block rule holds: link and height, messages without repetition or replacement, one M7 at most, the proposals of the rule, and a chain of treasury moves whose records are the reported deposits, of this block's hash and height |
| ReplayRules.MessagesExactly | crates/usdd-bitcoin-bmm/src/block/bip300.rs:486-550 | The coinbase is accepted exactly when no proposal is named twice, at most one vote is cast and the required proposal is not replaced; each error names its fault; an M1 for a hash that is not pending makes it pending with no votes, and a vote is counted once or elects |
| ReplayRules.StepExactly | crates/usdd-bitcoin-bmm/src/block/bip300.rs:694-746 | The same equivalence for any valid state with room for the block's messages |
| ReplayRules.RunPendingExactly | crates/usdd-bitcoin-bmm/src/block/bip300.rs:486-574 | On every run the pending proposals are exactly those that some block created and that outlived every block since: not activated, not above the maximum age and not out of misses, with the votes cast for them since |
| ReplayRules.TransactionExactly | crates/usdd-bitcoin-bmm/src/block/bip300.rs:589-680 | A transaction is accepted exactly when its request repeats M7 and parent and it raises the treasury by its only treasury output, spending the CTIP if there is one, or has nothing to do with it; what it records is fixed |
| ReplayRules.ObservedExactly | crates/usdd-bitcoin-bmm/src/block/bip300.rs:420-450 | The observed M7 is the only commitment of the coinbase, with its position, hash and canonical form, or there is none |
| Replay.RedundantChecksNeverFire | crates/usdd-bitcoin-bmm/src/block/bip300.rs:525-574 | No valid state can make a step report InvalidConfig, MalformedState (so no double CTIP input), ProposalHeightAhead or ProposalVotesAhead; RequiredProposalReplaced comes only from the vote, never from the final check |
| Replay.CommittedIsValid | crates/usdd-bitcoin-bmm/src/block/bip300.rs:268-332 | Validity is inductive: the state a processed block commits satisfies every rule of `validate` |
| Replay.PendingLimitIsUnreachable | crates/usdd-bitcoin-bmm/src/block/bip300.rs:53-61 | On every run from before genesis, under every valid configuration, no step meets the pending-proposal limit or overflows a vote counter, and at rest at most 111,111 times the longest age are pending |
| Replay.LiveMeansRecentlyNamed | crates/usdd-bitcoin-bmm/src/block/bip300.rs:552-574 | Every live proposal was named by an M1 or M2 within the last `max age` blocks: the miss rule and the age window together |
| Replay.RoomForOneMoreBlock | crates/usdd-bitcoin-bmm/src/block/bip300.rs:499-513 | At rest there is room for a full coinbase of new proposals below the derived bound |
| Replay.PendingAtRest | crates/usdd-bitcoin-bmm/src/block/bip300.rs:499-574 | On every run, under every valid configuration, at most 111,111 times (allowed misses + 1) plus the longest age proposals are pending: the older ones live on votes, at most one a block |
| Replay.LiveHeights | crates/usdd-bitcoin-bmm/src/block/bip300.rs:552-574 | When the unused threshold is not above the used one, every pending proposal of every run was created within the age in force and has at most the threshold's votes |
| Replay.ElementsV1Runs | crates/usdd-bitcoin-bmm/src/block/bip300.rs:53-83 | On every run with the Elements V1 settings at most ten creation heights are live at rest, hence eleven at insertion, no proposal keeps more than 5 votes, and at most 666,676 are pending, below the limit of 1,222,221 |
| Replay.OnlyVotesActivate | crates/usdd-bitcoin-bmm/src/block/bip300.rs:514-549 | An accepted block changes the active proposal exactly when its one vote takes an earlier pending proposal above the threshold in force; every other pending proposal keeps its votes, the voted one gains one, new ones have none |
| Replay.RunCountsVotes | crates/usdd-bitcoin-bmm/src/block/bip300.rs:522-534 | On every run a pending proposal's votes equal the number of votes cast for it in blocks after its creation |
| Replay.ActivationHasItsVotes | crates/usdd-bitcoin-bmm/src/block/bip300.rs:535-549 | Whatever a run activates was created in an earlier block and collected more votes since than the threshold in force |
| Replay.RequiredIsPermanent | crates/usdd-bitcoin-bmm/src/block/bip300.rs:540-548 | Once the required proposal is active, every accepted continuation keeps it active with the same activation record |
| Replay.TreasuryIsSingleton | crates/usdd-bitcoin-bmm/src/block/bip300.rs:606-651 | On every run the unspent treasury outputs created by non-coinbase transactions since activation are exactly the recorded CTIP with its recorded value, or none |
| Replay.StepKeepsStack | crates/usdd-bitcoin-bmm/src/block/bip300.rs:645-680 | In every accepted block the CTIP never disappears, each change strictly raises its value, and deposits extend the stack of disjoint rises |
| Replay.DepositsAreBacked | crates/usdd-bitcoin-bmm/src/block/bip300.rs:667-680 | On every run the mintable deposits are disjoint rises of the treasury's value and sum to at most the CTIP value, which never exceeds the money supply |
| Replay.StackedIncreases | crates/usdd-bitcoin-bmm/src/block/bip300.rs:663-680 | Later mintable deposits name strictly higher treasury values |
| BlockFacts.RepeatedOutpointCollides | crates/usdd-bitcoin-bmm/src/block/bip300.rs:663-680 | On a run over parsed blocks, two mintable deposits with the same txid and output index exhibit a double SHA-256 collision of two transactions |
| Replay.TreasuryIsAllGains | crates/usdd-bitcoin-bmm/src/block/bip300.rs:606-651 | On every run the treasury's value is the sum of all its gains, recorded as mintable deposits or not |
| Replay.TransactionRises | crates/usdd-bitcoin-bmm/src/block/bip300.rs:645-680 | A transaction moves the treasury only upwards and records at most one deposit, of exactly the rise, while the required proposal is active; the address, of 1 to 128 bytes, is the push in the output after the treasury output |
| Replay.RequestsMatchCommitment | crates/usdd-bitcoin-bmm/src/block/bip300.rs:589-604 | Every M8 of an accepted block repeats the block's M7 and its parent, all are counted, and an edge is reported exactly for a canonical M7 while the required proposal is active |
| Replay.MessageForms | crates/usdd-bitcoin-bmm/src/block/bip300.rs:397-411 | A push is a vote exactly when it is the M2 tag, the slot and 32 bytes; any M1 tag and slot makes a proposal of the hash of the rest |
| Replay.M8Form | crates/usdd-bitcoin-bmm/src/block/bip300.rs:452-470 | A BMM request has one form only: the first output is the minimal push of tag, slot, child hash and parent hash |
| Replay.TreasuryIndex | crates/usdd-bitcoin-bmm/src/block/bip300.rs:617-626 | The treasury output found is the only output with the treasury script; none is found only when there is none |
| Replay.SpendsAtMostOnce | crates/usdd-bitcoin-bmm/src/block/bip300.rs:608-615 | With distinct inputs at most one spends the CTIP, and one does exactly when its outpoint is listed |
| BlockFacts.ParsedBlocksAreReplayable | crates/usdd-bitcoin-bmm/src/block/bip300.rs:642-644 | Every block the parser accepts has at most 111,111 coinbase outputs and, in every other transaction, distinct inputs and values within the money supply, which is all the replay assumes |
| Replay.ReadMessages | crates/usdd-bitcoin-bmm/src/block/bip300.rs:486-550 | The message loop computes the fold of the per-message rules, with the same first error |
| Replay.AgeProposals | crates/usdd-bitcoin-bmm/src/block/bip300.rs:552-574 | The ageing loop fails exactly when some proposal is ahead of its block, and otherwise removes exactly the expired proposals |
| Replay.ApplyTransactions | crates/usdd-bitcoin-bmm/src/block/bip300.rs:578-682 | The transaction loop computes the fold of the per-transaction rules, with the same first error |
| Replay.FindTreasury | crates/usdd-bitcoin-bmm/src/block/bip300.rs:617-626 | The output loop finds the sole treasury output and refuses a second one |
| Replay.ReplayState.ApplyBlock | crates/usdd-bitcoin-bmm/src/block/bip300.rs:700-746 | Applying a block to the state object is the step, effects included, and a refused block leaves every field unchanged |
| BlockFacts.ApplyBytes | crates/usdd-bitcoin-bmm/src/block/bip300.rs:694-746 | On serialized blocks: an invalid state, then a block the parser refuses, then the step's own errors; whatever the error, the state is unchanged |
| Uint256.CheckedAdd | crates/usdd-bitcoin-bmm/src/lib.rs:133-143 | Carried limb addition is exact, and fails exactly when the sum needs more than 256 bits |
| Uint256.CheckedMulU64 | crates/usdd-bitcoin-bmm/src/lib.rs:213-222 | Multiplication by a word is exact, and fails exactly when the product needs more than 256 bits |
| Uint256.DivU64 | crates/usdd-bitcoin-bmm/src/lib.rs:224-236 | Division by a word is the floor quotient, and fails exactly for zero |
| Uint256.Shr | crates/usdd-bitcoin-bmm/src/lib.rs:170-188 | The limb shift is division by a power of two, rounded down, for every shift |
| Uint256.CheckedShl | crates/usdd-bitcoin-bmm/src/lib.rs:190-211 | The limb shift is exact multiplication by a power of two, and fails exactly when the result does not fit |
| Uint256.ShlGuard | crates/usdd-bitcoin-bmm/src/lib.rs:194-196 | The bit-length guard of the left shift is equivalent to the product fitting |
| Uint256.BitLen | crates/usdd-bitcoin-bmm/src/lib.rs:157-164 | The highest nonzero limb gives the bit length of the number |
| Uint256.BitValue | crates/usdd-bitcoin-bmm/src/lib.rs:149-151 | Testing a bit of a limb tests that bit of the number |
| Uint256.SetBit | crates/usdd-bitcoin-bmm/src/lib.rs:153-155 | Or-ing a bit into its limb adds its weight to the number unless it was set |
| Uint256.CompareLimbs | crates/usdd-bitcoin-bmm/src/lib.rs:304-312 | Comparing from the highest limb orders the numbers, for four limbs and for five |
| Uint256.WrappingNotValue | crates/usdd-bitcoin-bmm/src/lib.rs:238-240 | Limb complement is 2^256 - 1 minus the number |
| Uint256.ShiftIn | crates/usdd-bitcoin-bmm/src/lib.rs:257-262 | Shifting the five-limb remainder left by one and bringing in a bit doubles it exactly, with no carry lost |
| Uint256.Subtract | crates/usdd-bitcoin-bmm/src/lib.rs:314-323 | In-place subtraction of a smaller number is exact and leaves no borrow |
| Uint256.DivisionStep | crates/usdd-bitcoin-bmm/src/lib.rs:255-267 | One step of the long division keeps quotient times divisor plus remainder, and the remainder below the divisor |
| Uint256.Div | crates/usdd-bitcoin-bmm/src/lib.rs:245-268 | The 256-step shift-and-subtract loop computes the floor quotient for every numerator and every nonzero denominator |
| Difficulty.ToCompact | crates/usdd-bitcoin-bmm/src/lib.rs:270-284 | The limb encoder computes the compact form of the number's value; the debug assertion on the mantissa holds |
| Difficulty.DecodeAndValidateTarget | crates/usdd-bitcoin-bmm/src/lib.rs:432-466 | The limb decoder agrees, value and error, with validation by the denoted number alone; after the overflow test the shift never fails |
| Difficulty.OverflowTest | crates/usdd-bitcoin-bmm/src/lib.rs:443-449 | The exponent table is equivalent to the denoted number needing more than 256 bits |
| Difficulty.EncodeThenDecode | crates/usdd-bitcoin-bmm/src/lib.rs:270-284 | Every nonzero number encodes to bits that decode to a number at most it, within one part in 2^15, and that number encodes to the same bits |
| Difficulty.DecodeThenEncode | crates/usdd-bitcoin-bmm/src/lib.rs:432-466 | For every accepted bits, minimal or not, decoding, encoding and decoding again gives the same target |
| Difficulty.CompactIsGreatestLowerBound | crates/usdd-bitcoin-bmm/src/lib.rs:270-284 | Encoding picks the largest number that any accepted bits denote not above its argument |
| Difficulty.CompactMonotone | crates/usdd-bitcoin-bmm/src/lib.rs:270-284 | Rounding through the compact codec preserves order |
| Difficulty.BlockWork | crates/usdd-bitcoin-bmm/src/lib.rs:468-478 | Block proof succeeds exactly for targets 1 to 2^256 - 2, and is floor(2^256 / (target + 1)) |
| Difficulty.WorkAntitone | crates/usdd-bitcoin-bmm/src/lib.rs:468-478 | A lower target never counts for less work, and no target for none |
| HeaderChain.RetargetLimbs | crates/usdd-bitcoin-bmm/src/lib.rs:619-624 | Multiply, divide, clamp to the limit and encode on limbs computes the retarget by value, with the same overflow error |
| HeaderChain.SignetMultiplyFits | crates/usdd-bitcoin-bmm/src/lib.rs:490-496 | With the Signet limit and timespan the retarget product stays below 2^256 |
| HeaderChain.SignetRetarget | crates/usdd-bitcoin-bmm/src/lib.rs:612-624 | From any target up to the limit the Signet retarget succeeds; its bits decode exactly when target times timespan reaches 1209600, to the scaled target rounded down, at most four times the old one |
| HeaderChain.NextTargetFollowsTimes | crates/usdd-bitcoin-bmm/src/lib.rs:612-625 | At a boundary the next target is the old one scaled by the seconds from interval start to tip time over two weeks, at least a quarter and at most four times, capped and rounded; elsewhere it stays |
| HeaderChain.ExpectedBitsFollowTimes | crates/usdd-bitcoin-bmm/src/lib.rs:597-625 | The expected bits are the tip's inside an interval and at a boundary the compact form of that scaled and capped target |
| HeaderChain.SlowerIsEasier | crates/usdd-bitcoin-bmm/src/lib.rs:612-625 | A later tip time never gives a lower next target |
| HeaderChain.VanishingTarget | crates/usdd-bitcoin-bmm/src/lib.rs:612-624 | From target 1 after the fastest interval the Signet retarget succeeds with bits that decode to nothing |
| HeaderChain.ExpectedBits | crates/usdd-bitcoin-bmm/src/lib.rs:597-625 | Expected bits always exist from a verified tip and denote the next target, which is at most four times the old one and the limit, and positive from four up |
| HeaderChain.SuccessorAcceptedIff | crates/usdd-bitcoin-bmm/src/lib.rs:630-660 | The exact condition under which a Signet successor is accepted, and what the accepted state records |
| HeaderChain.RunAccumulatesWork | crates/usdd-bitcoin-bmm/src/lib.rs:597-660 | Along every accepted run chainwork is the checkpoint's plus the proofs of its targets; every header meets its target and links to its parent; targets change only at boundaries, where they follow the time fields of the interval's first and last headers |
| HeaderChain.ChainworkStrictlyIncreases | crates/usdd-bitcoin-bmm/src/lib.rs:643-646 | Chainwork grows by at least one a header and never wraps |
| HeaderChain.IntervalStartIsLatestBoundary | crates/usdd-bitcoin-bmm/src/lib.rs:647-652 | `interval_start_time` is the time of the latest block at an interval boundary |
| HeaderChain.IntervalStartKept | crates/usdd-bitcoin-bmm/src/lib.rs:647-652 | A run without a boundary keeps `interval_start_time` |
| TransactionCodec.CompactSizeIsCodec | crates/usdd-bitcoin-bmm/src/block.rs:191-221 | CompactSize decoding and encoding are inverse on all values below 2^64, and non-minimal forms are refused |
| TransactionCodec.TransactionIsCodec | crates/usdd-bitcoin-bmm/src/block.rs:294-473 | The parser accepts precisely the canonical serializations of valid transactions and recovers every field; the remaining-bytes guards never refuse one |
| TransactionCodec.SizesAddUp | crates/usdd-bitcoin-bmm/src/block.rs:424-428 | Consumed length is the stripped size plus marker, flag and witness bytes |
| BlockParser.SortFindsDuplicates | crates/usdd-bitcoin-bmm/src/block.rs:352-357 | Sorting and comparing neighbours finds a duplicate input exactly when there is one |
| BlockParser.ReadTransaction | crates/usdd-bitcoin-bmm/src/block.rs:294-473 | The cursor parser accepts what the functional parser accepts, stops where it stops, and reports txid, wtxid, stripped size, coinbase, inputs and outputs of the parsed transaction |
| BlockParser.Cursor.ReadCompactSize | crates/usdd-bitcoin-bmm/src/block.rs:191-221 | The cursor reads exactly the canonical CompactSize; a refusal is an unexpected end exactly when the bytes stop inside it |
| BlockParser.Cursor.Take | crates/usdd-bitcoin-bmm/src/block.rs:167-178 | The cursor hands out the next bytes and moves past them, or reports the end without moving |
| BlockParser.CheckInputs | crates/usdd-bitcoin-bmm/src/block.rs:341-357 | Input rules, with the error of each: one null outpoint with a script of 2 to 100 bytes, or no null outpoint and no duplicate |
| BlockParser.ReadOutputLoop | crates/usdd-bitcoin-bmm/src/block.rs:370-396 | The output loop accepts exactly the outputs whose running total stays within the money supply; outputs that parse are refused only for their total |
| BlockParser.ReadStacks | crates/usdd-bitcoin-bmm/src/block.rs:398-420 | The witness loop requires one stack per input and some stack nonempty; stacks that parse are refused only as superfluous |
| BlockParser.SerializedWithReplacedScript | crates/usdd-bitcoin-bmm/src/block.rs:240-263 | The coinbase serializer writes the coinbase with exactly one script replaced, and fails exactly for an index out of range |
| BlockParser.OwnScriptIsTxidPreimage | crates/usdd-bitcoin-bmm/src/block.rs:240-263 | Re-serializing a coinbase with its own script yields exactly the txid preimage |
| BlockParser.BlockTransactionsExact | crates/usdd-bitcoin-bmm/src/block.rs:542-591 | A block is a list of transactions exactly when it is an 80-byte header, a canonical count and the canonical serializations of valid transactions, the coinbase first and only first |
| BlockParser.ReadViews | crates/usdd-bitcoin-bmm/src/block.rs:572-591 | The transaction loop reads the whole list, refuses a misplaced coinbase with the right error, and adds up stripped sizes |
| BlockParser.ReadBlock | crates/usdd-bitcoin-bmm/src/block.rs:542-630 | The block parser accepts what the functional description accepts and reports its header, sizes, weight, coinbase and txids; a block whose transactions parse gets exactly the verdict of the checks on the whole list, error included |
| BlockRules.AcceptedIff | crates/usdd-bitcoin-bmm/src/block.rs:542-630 | A block is accepted exactly when it is a header and canonical transactions within the weight limit, their Merkle tree, built level by level, has no twins and the header's bytes 36 to 68 at its top, and a witness commitment is present and right if one is needed |
| BlockRules.AcceptedReports | crates/usdd-bitcoin-bmm/src/block.rs:611-630 | Every reported field of an accepted block: header fields by position, block hash, txids and wtxids as hashes of the two serializations, sizes, weight, inputs, outputs and coinbase |
| BlockRules.WitnessIff | crates/usdd-bitcoin-bmm/src/block.rs:504-540 | The witness check passes exactly when no witness and no commitment is there, or the last commitment holds the hash of the witness root and the coinbase's one 32-byte item |
| BlockRules.LevelsMean | crates/usdd-bitcoin-bmm/src/block.rs:482-502 | Root and mutation flag are those of the tree in which each node is the double SHA-256 of its left and right neighbour in this order |
| BlockParser.WeightBoundsBase | crates/usdd-bitcoin-bmm/src/block.rs:595-601 | Weight up to 4,000,000 forces base size up to 1,000,000, at most 111,111 coinbase outputs and less than 1,000,000 script bytes |
| BlockParser.HeaderBindsTransactions | crates/usdd-bitcoin-bmm/src/block.rs:603-609 | Two accepted blocks with the same header Merkle root contain the same transactions up to witnesses, unless a double SHA-256 collision is exhibited or a coinbase is exactly 64 bytes long |
| Commitments.ExtractIffPush | crates/usdd-bitcoin-bmm/src/lib.rs:751-784 | The extractor accepts exactly OP_RETURN followed by one push that ends the script, in any of the four length encodings |
| Commitments.M7Iff | crates/usdd-bitcoin-bmm/src/block/bip300.rs:425-433 | A script commits to a child hash exactly when it is one push, however encoded, of tag, slot and hash |
| Commitments.CanonicalM7Iff | crates/usdd-bitcoin-bmm/src/block/bip300.rs:445-447 | The canonical test singles out the one 39-byte form |
| Commitments.ObserveSlot24M7 | crates/usdd-bitcoin-bmm/src/block/bip300.rs:420-450 | The replay's loop reports the sole M7 with its position and form, and refuses two |
| Commitments.ExtractElementsSlot24M7 | crates/usdd-bitcoin-bmm/src/lib.rs:697-749 | The counting loop requires exactly one M7, canonical, within the output limits |
| Commitments.ExtractorsAgree | crates/usdd-bitcoin-bmm/src/lib.rs:697-749 | Within the limits the strict extractor succeeds with a position and hash exactly when the replay observes that one M7 as canonical; they miss alike |
| BlockFacts.ExtractorsAgreeOnBlocks | crates/usdd-bitcoin-bmm/src/block.rs:592-601 | On every parsed block the output limits cannot fire, so the two extractors agree |
| OrderedMerkle.MerkleRootAndMutation | crates/usdd-bitcoin-bmm/src/block.rs:482-502 | The in-place reduction computes the level-by-level root and flags exactly the lists with equal paired hashes on some level |
| OrderedMerkle.UnmutatedRootIsUnique | crates/usdd-bitcoin-bmm/src/block.rs:482-502 | Two unmutated lists with the same root are the same list, for injective pairing and txids that are not pair hashes |
| OrderedMerkle.EqualRootsCollide | crates/usdd-bitcoin-bmm/src/block.rs:482-502 | For any node hash, different unmutated lists of equal depth with the same root exhibit two different pairs with the same node hash |
| OrderedMerkle.ShallowLeafIsNode | crates/usdd-bitcoin-bmm/src/block.rs:482-502 | Lists of different depth with the same root exhibit a collision or a first leaf that is a node hash |
| OrderedMerkle.RepeatedTailIsFlagged | crates/usdd-bitcoin-bmm/src/block.rs:486-491 | Repeating the last hash of an odd list keeps the root and is always flagged |
| OrderedMerkle.MerkleRoot | crates/usdd-core/src/merkle.rs:26-41 | The root loop computes the level-by-level root with odd nodes duplicated |
| OrderedMerkle.ProveLeaf | crates/usdd-core/src/merkle.rs:71-103 | The prover returns the path of exactly the asked leaf, or the error for an empty tree or an index out of range |
| OrderedMerkle.DepthIsBitLength | crates/usdd-core/src/merkle.rs:110-117 | The number of levels is the bit length of leaf count minus one |
| OrderedMerkle.VerifyProof | crates/usdd-core/src/merkle.rs:105-130 | The verifier checks index and depth and climbs to the root |
| OrderedMerkle.ProofIffLeaf | crates/usdd-core/src/merkle.rs:105-130 | With the true leaf count and an injective node hash a proof verifies exactly for the true leaf and its true path |
| OrderedMerkle.PathReachesRoot | crates/usdd-core/src/merkle.rs:71-130 | For any node hash and every index the prover's path verifies |
| OrderedMerkle.PairProofIffLeaf | crates/usdd-core/src/merkle.rs:105-130 | On hash terms a well-formed proof with the true leaf count verifies exactly when it is the prover's own proof of the leaf at its index |
| OrderedMerkle.RoundTrip | crates/usdd-core/src/merkle.rs:71-130 | Proving any leaf and verifying the proof against the root succeeds |
| BurnTree.EmptyRoot | crates/usdd-core/src/burn_accumulator.rs:9-18 | The loop computes the root of the empty tree of each height up to 64 |
| BurnTree.RootForLeaves | crates/usdd-core/src/burn_accumulator.rs:140-158 | The layered computation, which may collapse to one node, equals the perfect depth-64 tree padded with empty leaves |
| BurnTree.ComputeRoot | crates/usdd-core/src/burn_accumulator.rs:35-46 | The branch loop folds the leaf with its siblings by the index bits |
| BurnTree.BurnAccumulator.Append | crates/usdd-core/src/burn_accumulator.rs:94-99 | Appending pushes the leaf, answers its index, and changes nothing else |
| BurnTree.BurnAccumulator.Proof | crates/usdd-core/src/burn_accumulator.rs:105-137 | For every index below the length the layered prover returns the sparse tree's path, and refuses every other index |
| BurnTree.BranchIffEntry | crates/usdd-core/src/burn_accumulator.rs:48-51 | A branch verifies at an index exactly when the leaf is the entry there and the branch is its path |
| BurnTree.AppendByBranch | crates/usdd-core/src/burn_accumulator.rs:35-51 | A branch that proves the next slot empty computes the root after the append, so root-only appending is list appending |
| BurnTree.BurnAccumulator.ComputedRoot | crates/usdd-core/src/burn_accumulator.rs:101-103 | The accumulator's root is the depth-64 root of its list |
| BurnTree.RootInjective | crates/usdd-core/src/burn_accumulator.rs:140-158 | Two lists without the empty leaf, of any lengths up to 2^64, with the same depth-64 root are the same list |
| ElementsGuest.BuildElementsStateJournal | crates/usdd-proof-core/src/guest.rs:167-293 | The guest's loop accepts and outputs exactly what the fold of its per-burn rules does, in the same order of checks |
| ElementsGuest.GuestIff | crates/usdd-proof-core/src/guest.rs:167-293 | From a state that commits a list the guest accepts exactly the verified claims with a valid manifest, a valid successor, allowed burns, honest branches and the root of the longer list, and publishes both states, the hash chain and the statement that binds them |
| ElementsGuest.AppendAllExact | crates/usdd-proof-core/src/guest.rs:194-239 | The fold over roots and branches succeeds exactly for honest branches of the growing list, and ends at the root of the list with the new leaves appended |
| ElementsGuest.RunCommitsAllBurns | crates/usdd-proof-core/src/guest.rs:167-293 | Over every accepted run from the zero state the burn root is the depth-64 root of the concatenation of all appended burns and the burn count its length |
| ElementsGuest.CommittedEntry | contracts/src/libraries/Sha256SparseMerkle.sol:42-66 | Any branch that verifies against a committed root at an index below the count proves exactly the entry of the list there |
| ElementsGuest.EntriesAreStable | crates/usdd-proof-core/src/guest.rs:194-239 | A branch accepted at an index at any time of a run proves the entry that the final list still holds |
| Vault.USDDVaultV1.Deposit | contracts/src/USDDVaultV1.sol:205-258 | A deposit either reverts with every field unchanged or takes the step: next nonce, commitment, liability and total, however the token calls back in between |
| Vault.RunDepositsExactly | contracts/src/USDDVaultV1.sol:215-258 | In every reachable state a deposit is taken exactly when amount and script length are in range, the cap and a nonce leave room, the token call succeeded and moved exactly the amount from sender to vault, and the vault stays solvent; then exactly nonce, totals and commitment change |
| Vault.RunMatchesToken | contracts/src/USDDVaultV1.sol:215-367 | Over every sequence of calls the deposited total is what the vault's balance gained in the deposits, the redeemed total what it lost in the payouts, and the liability their difference |
| Vault.RunAdvancesExactly | contracts/src/USDDVaultV1.sol:293-322 | In every reachable state an advance is taken exactly when the state follows by the guest's rules, carries the activation work if it is the first, the verifier's code and identity are the configured ones, and it accepts the statement; then state and hash chain are adopted |
| Vault.USDDVaultV1.AdvanceElementsState | contracts/src/USDDVaultV1.sol:293-322 | Advancing either reverts unchanged or adopts the next state and chains its hash |
| Vault.USDDVaultV1.Redeem | contracts/src/USDDVaultV1.sol:326-367 | A redemption either reverts unchanged or marks the burn spent and moves liability and total by its amount, however the token calls back in between |
| Vault.USDDVaultV1.CallToken | contracts/src/USDDVaultV1.sol:205-210 | While the lock is taken no callback, nor any sequence of nested callbacks, changes a field |
| Vault.RunKeepsBooks | contracts/src/USDDVaultV1.sol:215-367 | Over every sequence of calls liability is deposited minus redeemed and within the cap, nonces are gap-free with their commitments, and redeemed burn IDs are distinct and exactly the spent set |
| Vault.ValidatorsAgree | contracts/src/USDDVaultV1.sol:410-456 | From every valid current state and for every bridge hash the contract's successor rules accept exactly what the guest's accept, plus the activation work when the hash is still zero |
| Vault.RunPaysListedBurns | contracts/src/USDDVaultV1.sol:326-367 | With a sound verifier every payout of every run equals, in amount and recipient, the entry at its index of the burn list that the finalized root commits |
| Vault.RunRedeemsExactly | contracts/src/USDDVaultV1.sol:326-367 | In every state that a run behind a sound verifier reaches, a redemption is paid exactly when it claims the committed burn at its index with the true branch, the burn is unspent and affordable, the token moves the exact amount, and the recipient is not the vault |
| Vault.BurnToVault | contracts/src/USDDVaultV1.sol:341-345 | The guest allows burns that name the vault as recipient, and no redemption of such a burn is ever paid |
| Vault.RedeemedAtMostBurned | contracts/src/USDDVaultV1.sol:326-367 | With a sound verifier the total redeemed over any run is at most the total burned: no burn is paid twice |
| Signet.ReadScriptOp | crates/usdd-bitcoin-bmm/src/block/signet.rs:76-133 | The scanner reads the next operation with its data, in every length encoding, or reports a malformed script exactly where the description has no operation |
| Signet.AppendScriptPush | crates/usdd-bitcoin-bmm/src/block/signet.rs:135-150 | The shortest length encoding is appended; only lengths of 2^32 and more fail |
| Signet.ExtractSolutionAndModifiedScript | crates/usdd-bitcoin-bmm/src/block/signet.rs:154-184 | The loop computes solution and replacement, stopping at a malformed suffix; its length errors cannot occur |
| Signet.OpReadsBack | crates/usdd-bitcoin-bmm/src/block/signet.rs:76-133 | Every encoding of an operation reads back as it, with the rest untouched |
| Signet.ReplacementIgnoresSolution | crates/usdd-bitcoin-bmm/src/block/signet.rs:154-184 | Scripts that differ only in the data of the first Signet push, or in how its length is encoded, have the same replacement, whatever follows |
| Signet.ExtractedIsSplit | crates/usdd-bitcoin-bmm/src/block/signet.rs:154-184 | Every script that yields a solution splits at its first Signet push, so the previous result covers all of them |
| Signet.SolutionIsCanonical | crates/usdd-bitcoin-bmm/src/block/signet.rs:186-217 | A solution has exactly one accepted serialization |
| Signet.ReadSolution | crates/usdd-bitcoin-bmm/src/block/signet.rs:186-217 | The cursor reads exactly that serialization and nothing after it |
| Signet.StrictDerIff | crates/usdd-bitcoin-bmm/src/block/signet.rs:248-283 | The byte checks accept exactly the DER of two shortest positive integers with a hash type |
| Signet.VirtualSpentBinds | crates/usdd-bitcoin-bmm/src/block/signet.rs:219-246 | The virtual transaction fixes version, parent, modified Merkle root and time |
| Signet.SighashTextBinds | crates/usdd-bitcoin-bmm/src/block/signet.rs:285-329 | The digest preimage fixes the spent outpoint, the hash type and the three hashes |
| Signet.DigestIgnoresSolution | crates/usdd-bitcoin-bmm/src/block/signet.rs:357-370 | Blocks that differ only in the solution have the same modified coinbase, Merkle root and virtual txid, hence the same digest for every hash type |
| Signet.PushEncodingIsIrrelevant | crates/usdd-bitcoin-bmm/src/block/signet.rs:331-382 | How the length of the solution push is encoded never changes the verdict |
| Signet.VerifyParsedSignet | crates/usdd-bitcoin-bmm/src/block/signet.rs:331-382 | The verifier's steps compute the described verdict, with the same error for each failed step |
| SignetRules.AcceptedIff | crates/usdd-bitcoin-bmm/src/block/signet.rs:331-382 | A block is accepted exactly when it is genesis or its last commitment script splits at a Signet push whose data is an empty script and a two-item stack of a DER signature and a key of the challenge that signed the block's digest |
| SignetRules.SolutionVerdict | crates/usdd-bitcoin-bmm/src/block/signet.rs:331-382 | The error of every refusal once the commitment is split: no canonical solution, or its first fault among script, stack, key hash, DER and signature |
| SignetRules.UncommittedIsRefused | crates/usdd-bitcoin-bmm/src/block/signet.rs:331-346 | Without a commitment output a block that is not genesis is refused for that |
| SignetRules.UnsplitIsRefused | crates/usdd-bitcoin-bmm/src/block/signet.rs:331-346 | A last commitment without a Signet push that carries data is refused as missing a solution |
| SignetRules.ReplacementIs | crates/usdd-bitcoin-bmm/src/block/signet.rs:154-184 | What replaces the commitment is everything readable in it in shortest form, with the solution cut off the first Signet push |
| SignetRules.RewrittenIsShortest | crates/usdd-bitcoin-bmm/src/block/signet.rs:135-150 | Each operation is rewritten to the shortest of all pushes of its data, or to its opcode if it pushes nothing |
| SignetRules.SpentIsTransaction | crates/usdd-bitcoin-bmm/src/block/signet.rs:219-246 | The spent text is the serialization of BIP325's transaction to spend: its input pushes version, parent, modified root and time, its output locks to the challenge's key hash |
| SignetRules.DigestIsBip143 | crates/usdd-bitcoin-bmm/src/block/signet.rs:285-329 | For every hash type the digest is BIP143's for the input of the signing transaction |
| Audit.VerifyIffBalanced | crates/usdd-core/src/audit.rs:269-339 | Verification accepts exactly the balanced snapshots; no snapshot reaches the conservation underflow or the second backing mismatch; the report backs every unit in circulation |
| Audit.AuditDeposits | crates/usdd-core/src/audit.rs:148-173 | The deposit loop accepts exactly sequential, nonzero, distinct, positive deposits whose total fits |
| Audit.AuditMints | crates/usdd-core/src/audit.rs:175-202 | The mint loop accepts exactly the logs that consume a prefix of the deposits in order and in full |
| Audit.AuditBurns | crates/usdd-core/src/audit.rs:204-227 | The burn loop accepts exactly sequential, distinct, convertible burns whose total fits |
| Audit.AuditPayouts | crates/usdd-core/src/audit.rs:229-250 | The payout loop accepts exactly the logs that settle distinct burns in full; its total cannot overflow |
| Audit.Reconstruct | crates/usdd-core/src/audit.rs:140-264 | The reconstruction is an exact decision; partition, paid-above-deposited and conservation errors and both failed subtractions cannot come from any logs |
| Audit.AcceptedBooksAreBacked | crates/usdd-core/src/audit.rs:311-339 | In accepted books what circulates, waits to be minted or waits to be paid is covered unit for unit by the vault's balance |
| MintController.FromDeposits | crates/usdd-core/src/types.rs:390-448 | A batch is built exactly from 1 to 64 valid consecutive deposits of one vault within the budget, and mints exactly them in order |
| MintController.MintsCarry | crates/usdd-core/src/types.rs:323-334 | Every output of a batch carries the deposit's own script, ID, nonce and amount, and a hundred units a micro-USDT, in the order of the deposits |
| MintController.RunPaysDeposits | crates/usdd-core/src/types.rs:390-448 | A run over batches made from deposits mints to the recipients of those deposits, in order |
| MintController.ValidateBatch | crates/usdd-core/src/types.rs:450-493 | The validating loop accepts exactly the batches with consecutive valid outputs and correct totals |
| MintController.ConstructedIsValid | crates/usdd-core/src/types.rs:390-493 | A built batch passes validation exactly when no deposit ID is zero |
| MintController.MintTransition | crates/usdd-core/src/types.rs:1083-1114 | The mint transition computes the described successor or refuses |
| MintController.MintIff | crates/usdd-core/src/types.rs:1083-1114 | A mint leads to a successor exactly when state, batch and finality are valid, the nonce is next, the total fits and finality repeats unchanged or moves on by at most 4096 slots with a new digest; the successor adopts finality, nonce and total |
| MintController.HeartbeatIff | crates/usdd-core/src/types.rs:1116-1141 | A heartbeat leads to a successor exactly when finality moves on by 1 to 4096 slots with a new digest; the successor adopts it and mints nothing |
| MintController.TransitionsStayValid | crates/usdd-core/src/types.rs:1112-1141 | The final revalidation of a transition never fails |
| MintController.DepositOutputIffTransition | crates/usdd-proof-core/src/claims.rs:238-286 | The deposit output validator accepts exactly the pairs that some finality witness makes the mint transition produce |
| MintController.HeartbeatOutputIffTransition | crates/usdd-proof-core/src/claims.rs:328-361 | The heartbeat output validator accepts exactly the pairs that some finality witness makes the heartbeat produce |
| MintController.DepositGuest | crates/usdd-proof-core/src/guest.rs:64-122 | The deposit guest's checks and loops compute the described journal, with the same error for each refusal |
| MintController.DepositGuestCommits | crates/usdd-proof-core/src/guest.rs:64-122 | The guest commits exactly to proven, consecutive deposits of the manifest's vault that the controller can mint next; it mints exactly them, and its output validates exactly when the execution timestamp is not zero |
| MintController.ZeroTimestampDeposit | crates/usdd-proof-core/src/guest.rs:64-122 | A deposit claim with timestamp zero that the guest accepts and whose output is refused |
| MintController.HeartbeatGuestOutput | crates/usdd-proof-core/src/guest.rs:124-162 | The heartbeat guest's output validates exactly when the execution timestamp is not zero |
| MintController.HeartbeatGuestCommits | crates/usdd-proof-core/src/guest.rs:124-162 | The heartbeat guest commits exactly to proven heartbeats of the manifest's controller, and to the successor, states and timestamp given |
| MintController.ZeroTimestampHeartbeat | crates/usdd-proof-core/src/guest.rs:124-162 | A heartbeat with timestamp zero that the guest accepts and whose output is refused |
| MintController.RunMintsOnce | crates/usdd-core/src/types.rs:1083-1179 | Over every run nonces are minted one after another, each once; total minted is 100 times the deposits; sequence counts transitions; slots never go back |
| MintController.RunContinues | crates/usdd-core/src/types.rs:1083-1179 | Every single transition of every run continues the one before it: next sequence, next nonce, added value, and a slot step of at most 4096 |
| MintController.BootstrapRunMintsOnce | crates/usdd-core/src/types.rs:1034-1053 | From bootstrap every minted nonce is at least the first, minted nonces strictly increase, the sequence and total count the run, and the slot is nonzero and never goes back |

## Left out

- SHA-256, Keccak, HASH160, ECDSA, BLS, the Ethereum light client and the proof systems: foreign calls, taken as function parameters, booleans or free terms.
- Run theorems of `Replay` are about parsed blocks; `ParsedBlocksAreReplayable` and `ApplyBytes` connect them to serialized ones.
- Replay.ReplayState.ApplyBlock: does not model `from_unverified_checkpoint_requires_manifest_binding`, which only collects a list into the pending map and validates; results that hold from any valid state cover its result.
- Replay.AgeProposals: does not say which of the two ahead-errors comes first when several proposals are ahead (the source goes by hash order); from a valid state neither occurs.
- BlockParser.ReadTransaction: states acceptance and result; which error a refusal carries is modelled in the methods, and specified for input rules, output totals and superfluous witnesses, not for bytes that do not parse.
- BlockParser.ReadOutputLoop: the error for outputs that do not parse is modelled but not specified.
- BlockParser.ReadStacks: the error for stacks that do not parse is modelled but not specified.
- BlockParser.ReadViews: the error for transactions that do not parse is modelled but not specified.
- BlockParser.Cursor.Take: does not model a position overflowing the machine's address size; that and running out of bytes are one failure here.
- BlockParser.ReadBlock: the error is specified for sizes out of range and for blocks whose transactions parse, not for bytes that do not parse.
- MintController.DepositGuest: manifest validation is a flag, as in the other guests, and the Ethereum verifier a boolean.
- MintController.FromDeposits: all refusals are one error; the source's messages differ only in text.
- Audit.Reconstruct: says which errors are possible, not which of several applicable ones is reported first.
- HeaderChain.SuccessorAcceptedIff: states acceptance; the order of refusals is that of the function `VerifySuccessor`.
- Conditional difficulty parameters: run results are for the Signet parameters; the rule functions cover the others, including the refused testnet branch.
- ElementsGuest.BuildElementsStateJournal: manifest validation is a flag, preimage byte layouts are constructors of hash terms, and the journal wrapper is not modelled.
- Vault.USDDVaultV1.Deposit: the token call is an observed balance change that may fail and may call back; gas, events, return-data decoding and the constructor's own checks are not modelled.
- Vault.USDDVaultV1.AdvanceElementsState: the verifier contract is a predicate on statement and proof with its reported identity given by the caller.
- Vault.USDDVaultV1.Redeem: reserve balances are what the token reports around the call; identity getters and `reserveStatus` are not modelled.
- Fixed-width record codecs, manifests, hex and text formatting, `Debug` and `Display`: long but shallow.
- `validate_bmm_finality_freshness`, `require_child_hash` and the composed successor entry points: single comparisons or sequences of modelled calls.
- The TypeScript and Python copies of the rules, the command line, build and provenance scripts.
