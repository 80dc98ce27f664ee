# XChain Hub: a verified model

This project models the parts of XChain Hub whose mistakes would be hard to see in review, and proves what the
platform relies on there. It is a Dafny 4.11 project; `dafny verify dfyconfig.toml` checks it.

What is modelled:

- **Price arithmetic.** The decimal helpers (`Decimal`), the winsorized volume-weighted XCHAIN rate and its USD legs
  (`XchainPrice`), and the selection of its fills (`XchainPriceQuery`).
- **Rewards.** The oracle-round split (`RewardSplit`), the anchor reward collapse under its per-anchor lock
  (`AnchorRewards`), and the judgement whether a transaction's anchor rows prove a reward (`AnchorProofBinding`).
- **Attestation rounds.** The leader ladder and model fallback (`Escalation`), the signed response bytes
  (`ResponseCanonical`) and the admission map in them (`AdmissionMap`), one hub's round state and what every handler
  does to it (`AttestationRound`), the mutable `pending` object that implements it (`AttestationConsensus`), what whole
  rounds keep (`AttestationSafety`), where their outcomes come from (`AttestationOutcomes`), what is counted for them
  (`AttestationCounting`, `AttestationQuorums`), what a hub signs in one (`AttestationVotes`), when a round finalizes
  (`AttestationRuns`), and when the finalizations of one request agree over all attempts at it
  (`AttestationAgreement`).
- **Printers and canonical forms.** JSON strings (`JsonText`), the consensus-rules digest (`RulesDigest`), the active
  gate set (`ActiveGates`), the legacy reward pins (`LegacyPins`), the compressed price batch (`PriceBatchWire`) and
  config redaction (`ConfigRedaction`, and `RedactionMeaning` for what its output is of its input).
- **Rate limiting.** The fixed-window store and the batch surcharge (`RateLimit`).

`JsValues`, `Ordering`, `Pubkeys` and `Facts` hold the shared vocabulary.

How the model is built:

- Decimals and chain heights are exact numbers (`real`); every rounding the source performs is written out. The
  64-significant-digit intermediates are taken as exact.
- The database, gossip, clocks and other hubs appear as inputs or as steps of a run. An attestation run is any
  sequence of handler events; a buffered envelope is an event that happens later or never, and the two halves of the
  asynchronous winner selection are separate events with anything in between.
- Hashing, signature checking, zlib, UTF-8 and the JSON parser are parameters. The lemmas that need a law of theirs
  name it: `Lawful` in `PriceBatchWire` and `ConfigRedaction`, `OwnIdentity` and `HashWidth` in `AttestationSafety`,
  `UnforgedRun` in `AttestationVotes`, `KeysVerify` in `AttestationRuns`, `NoCollision` and `CountsGenuine` in
  `AttestationAgreement`. Unforgeability is asked only of the signatures a run actually handles.
- Loops and mutable objects of the source are methods and classes here, proved equal to a specification function or
  to a property stated outright; the lemmas are about those. Lemmas named `...Exactly` say what such a function answers
  in terms of its inputs alone, with constants written out, so that they do not move with its body.

Findings worth a maintainer's eye, each with its exact condition proved:

- One row per anchor holds over a run if and only if no superseding write goes through on a row archived since the body
  read it (`OneRowPerAnchor`). Such a write always leaves two rows (`TornWriteLeavesTwoRows`), and runs with one exist
  (`RaceLeavesTwoRows`).
- The double rounding of the reward split is exact precisely while 2*10^10 * (n - k mod n) > n, which every n below
  2*10^10 meets (`SplitIsIntegerQuotient`).
- The fill order is canonical exactly when no two different fills share (block, action, venue)
  (`OrderImmaterialExactly`).
- A bundle proof made by rows without an action index is lost exactly when an added candidate section lies above the
  reward's block and no added row proves the reward; with an index it is never lost (`SiblingsUnproveExactly`).
- Within one attempt per member, two finalizations agree whenever twice the redundancy exceeds the members plus the faulty
  ones, and at or below that bar two runs that disagree exist (`AgreementAboveBar`, `DisagreementBelowBar`); there each
  widened slot costs one tolerated fault. The quorum formula alone gives an honest overlap exactly for sizes 1 modulo 3,
  2, 3 and 6 (`HonestOverlapExactly`).
- A retry after a timeout fetches and signs again, and nothing binds the two attempts. Above the bar finalizations still
  agree unless one honest member was given both answers (`SharedFetch`); when the provider answers differently, two
  members of any round of two or more can finalize different bodies with nobody faulty (`RetriesDisagree`).
- The prepare quorum gates a hub's own COMMIT, not finalization: a round finalizes without it exactly when some
  member's COMMIT, even an unsigned one, finds or completes the needed signatures first (`PrepareGateExactly`,
  `BareCommitFinalizes`). The comment in the source calls the prepare quorum the required gate.
- A hub's ok vote is for its own body and meta, but its own fetch status is not asked: a hub whose fetch failed signs an
  ok vote exactly when others' PREPAREs settle its round on an empty body and meta (`FailedFetchSignsExactly`), which
  two of them bring about (`FailedFetchVouches`).
- The admission map encoder takes heights written as text of any length, the decoder only those up to 2^53-1; up to there
  maps and texts correspond one to one (`ReadsBackExactly`, `LongHeightIsRefused`).
- Builds that list the same gates in another order publish different digests although the diff between them names no gate
  (`DigestsAgree`, `OrderIsUnnamed`).
- A document inside a config string comes back clean exactly when the pass counted something in it or it was clean
  before. Secrets only below the depth cap, which the source says fails closed, are handed back unchanged
  (`EmbeddedCleanExactly`, `PasswordBelowCap`). Strings held directly in arrays are never opened
  (`ArrayStringsKept`). These two are all that can leave a secret at any nesting (`DeepCleanExactly`).

## Model

| member | source | states |
|---|---|---|
| `Decimal.ToFixedError` | src/bcmath.js:93-100 | rounding to 8 or 18 decimals lands on that grid and moves a value by at most half a unit in the last place |
| `Decimal.ToFixedExact` | src/bcmath.js:93-100 | a value already on the grid is not moved |
| `Decimal.ToFixedMonotone` | src/bcmath.js:93-100 | rounding keeps order, so it never carries a value across a grid point |
| `Decimal.OnGridSum` | src/bcmath.js:55-60 | adding two grid values with `bcadd` rounds nothing away |
| `Decimal.BcRoundVersusToFixed` | src/bcmath.js:121-128 | `bcround` and the plain fixed format agree exactly off the negative midpoints, where one rounds up and the other away from zero |
| `XchainPrice.SumWinsorizedFills` | src/xchainPrice.js:104-132 | the loop's four totals are those of `SumsOf`, whose error and limits the lemmas below state |
| `XchainPrice.DeriveXchainRate` | src/xchainPrice.js:161-204 | the published result, and `None` exactly where the source returns null, is `Derived` |
| `XchainPrice.UsableAreThePriced` | src/xchainPrice.js:65-74 | a fill is used, as often as it was given, exactly when both its amounts are there and positive, whatever its venue |
| `XchainPrice.RateOfTheFills` | src/xchainPrice.js:161-204 | every figure of a published result, from the fills as given: rate and raw rate within rounding of the clamped and plain volume-weighted averages over the positions holding two positive amounts, the four counts and totals over those positions, and the edges from the reference and band |
| `XchainPrice.PublishedExactlyWhen` | src/xchainPrice.js:161-204 | a rate is published exactly when there is a positive reference, some such fill, XCHAIN left in the rounded total, and an average of at least half a satoshi |
| `XchainPrice.PublishedOnTheGrid` | src/xchainPrice.js:161-204 | on stored amounts that is decided by the exact average: never below 0.49 satoshi, always from 0.51 on |
| `XchainPrice.ContributionError` | src/xchainPrice.js:104-132 | one fill's rounded contribution is within half an 18th-decimal unit per XCHAIN, plus half a unit when clamped, of its unrounded winsorized notional |
| `XchainPrice.NumeratorError` | src/xchainPrice.js:104-132 | over any usable fills on the 8-decimal grid no total rounds, and the numerator is within 0.5e-18 * (X + clamped count) of the unrounded sum |
| `XchainPrice.PublishedNearIdeal` | src/xchainPrice.js:161-204 | the published rate is within 0.51e-8 of the exact winsorized volume-weighted average |
| `XchainPrice.PublishedWithinBand` | src/xchainPrice.js:161-204 | whatever the fills, the published rate is within 1e-8 of the winsorization band |
| `XchainPrice.UnclampedIsRaw` | src/xchainPrice.js:161-204 | with no fill clamped the published rate equals the raw rate exactly, for any amounts and any band |
| `XchainPrice.BoundedInfluence` | src/xchainPrice.js:104-185 | with the sizes fixed, changing the coin amounts of fills of total weight w moves the published rate by at most (upper - lower) * w / X + 2e-8 |
| `XchainPrice.UsdRoundTrip` | src/xchainPrice.js:214-239 | below the price ceiling, converting a published USD price to BTC terms and back returns it exactly |
| `XchainPrice.UsdLegs` | src/xchainPrice.js:214-239 | the two conversions refuse exactly a missing or nonpositive input, and otherwise are the quotient and the product, to 18 and 8 decimals |
| `XchainPriceQuery.WindowsTile` | src/xchainPriceQuery.js:125-141 | a block b >= 1 is in the window of exactly the W reference heights from b+K to b+K+W-1, and no lower block is in any window |
| `XchainPriceQuery.WindowRefusedExactly` | src/xchainPriceQuery.js:125-141 | exactly when there is no window: a missing or negative height or buffer, a missing or nonpositive length, or a chain no longer than the buffer |
| `XchainPriceQuery.FillsExactly` | src/xchainPriceQuery.js:270-295 | the answer row by row: every dispense and every trade of the tick against the coin, with its own amounts, as often as it was read and nothing else, in order; it fails exactly when coin or tick is not identified |
| `XchainPriceQuery.DexOrientation` | src/xchainPriceQuery.js:216-242 | a dex trade and its mirror image map to the same fill |
| `XchainPriceQuery.FillLeIsPreorder` | src/xchainPriceQuery.js:249-253 | the comparator is total and transitive, and ties exactly on equal (block, action, venue) |
| `XchainPriceQuery.RowOrderImmaterial` | src/xchainPriceQuery.js:270-295 | every permutation of the database rows yields the same fill sequence and so the same derived rate, when the sort key decides the fill |
| `XchainPriceQuery.OrderImmaterialExactly` | src/xchainPriceQuery.js:249-295 | that key condition is exact: the sequence is independent of arrival order if and only if it holds |
| `RewardSplit.SplitIsIntegerQuotient` | src/anchor/reward_tracker.js:63-97 | dividing k satoshis half-up at 18 decimals and flooring at 8 gives floor(k/n) satoshis if and only if 2*10^10 * (n - k mod n) > n, and otherwise one more |
| `RewardSplit.ShareExactly` | src/anchor/reward_tracker.js:63-97 | for any decimal budget the share is q satoshis if and only if q*n <= budget in satoshis + n*5e-11 < (q+1)*n |
| `RewardSplit.SharesFitBudget` | src/anchor/reward_tracker.js:63-97 | for n < 2*10^10 participants the n shares never exceed the budget and leave under n satoshis |
| `RewardSplit.SplitFailsAtTwentyBillion` | src/bcmath.js:69-76 | the bound on n is sharp: at 2*10^10 a concrete budget is overspent |
| `RewardSplit.CanonicalByNames` | src/anchor/reward_tracker.js:63-97 | two participant lists credit the same keys if and only if they name the same keys, whatever the order, repetition or letter case |
| `RewardSplit.CanonicalExactly` | src/anchor/reward_tracker.js:63-97 | who is credited: each string of 64 hex digits among the participants, in lower case, once, in ascending order |
| `RewardSplit.RoundRewards.DistributeRewards` | src/anchor/reward_tracker.js:63-97 | the whole new ledger: one share per canonical key not already paid for the round, other rows untouched, nothing on a skipped or invalid budget |
| `AnchorRewards.QualifierSeparatesArchives` | src/anchor/anchor_reward_key.js:42-46 | all writers of one logical anchor share one lock; rewards of one lock are one anchor, except archive rewards, told apart by their qualifiers |
| `AnchorRewards.QualifierIsTheHeight` | src/anchor/anchor_reward_key.js:42-46 | the qualifier of an archive reward is its block rounded down, 0 for a negative block or no number, and 0 for every other reward type |
| `AnchorRewards.ArchivesByHeight` | src/anchor/anchor_reward_key.js:42-46 | so two archive rewards of one round at integer heights are one anchor if and only if the heights are equal |
| `AnchorRewards.DeletesExactly` | src/db/validators.js:34-45 | the two DELETEs take exactly the rows their WHERE names |
| `AnchorRewards.RewardTable.RecordAnchorRewardLocked` | src/anchor/reward_tracker.js:159-211 | the locked read-modify-write leaves exactly the rows and outcome of `Body`, failures included |
| `AnchorRewards.RewardTable.RetractOwnRow` | src/anchor/publisher/anchor_stamp_sweep.js:198-223 | the stamp sweep's retraction under the same lock deletes exactly this hub's unarchived row |
| `AnchorRewards.MutualExclusion` | src/anchor/reward_tracker.js:149-157 | in every run from the empty state two bodies sharing a lock are never both running |
| `AnchorRewards.StepKeepsLock` | src/anchor/reward_tracker.js:134-157 | every step, in any interleaving and with any failure, keeps the promise chain in order |
| `AnchorRewards.LockNeverStalls` | src/anchor/reward_tracker.js:149-157 | in every run, while some call on a lock is unsettled the first one can take its next step, whether its predecessors failed or not |
| `AnchorRewards.OneRowPerAnchor` | src/anchor/reward_tracker.js:134-211 | over every run of calls, retractions, stamps and failures, each anchor always holds at most one row, the smallest key among the calls completed since it last lost its row and before it was archived, if and only if no superseding write goes through on a row archived since it was read |
| `AnchorRewards.EveryRowWasAskedFor` | src/anchor/reward_tracker.js:134-211 | over every run each row is what a call asked for: its reward and round, its lower-cased key of 64 hex digits, exactly its positive amount, and archived only if that key was stamped |
| `AnchorRewards.ArchivedRowStays` | src/db/validators.js:34-45 | an archived row stays, unchanged, in every run from any state |
| `AnchorRewards.ArchivedAnchorFrozen` | src/anchor/reward_tracker.js:178-184 | and while no torn write occurs no row joins it |
| `AnchorRewards.TornWriteLeavesTwoRows` | src/db/validators.js:37-39 | a torn write always leaves two rows, because the DELETE spares the archived one |
| `AnchorRewards.RaceLeavesTwoRows` | src/db/validators.js:294-304 | such runs exist: any two calls for one anchor in falling key order, the first one's row stamped between the second one's SELECT and write |
| `AnchorRewards.StepsAreTheBody` | src/anchor/reward_tracker.js:134-211 | all the interleaved steps of one call whose turn has come, taken together, are the locked method's specification |
| `AnchorProofBinding.BundleHeaderBlocks` | src/anchor/anchor_proof_binding.js:195-219 | the map holds, for every action with a section and no other, that action's largest section block; the fallback is the largest over all candidate sections |
| `AnchorProofBinding.BindsToTupleMeansBinds` | src/anchor/anchor_proof_binding.js:227-267 | comparing with the reconstructed header is asking whether no section of the same bundle lies higher |
| `AnchorProofBinding.JudgeAnchors` | src/anchor/anchor_proof_binding.js:271-305 | the loop's verdict is `Judge`, whose every answer the next two rows give from the rows' own fields |
| `AnchorProofBinding.VerdictExactly` | src/anchor/anchor_proof_binding.js:224-305 | verified exactly when the first row that proves the reward is deep enough, rejected exactly for a reward of no live family or when some row attests and none proves; a row proves an archive or bundle reward by its own version, status, network, publisher, block, batch and place in its bundle |
| `AnchorProofBinding.ProvedExactly` | src/anchor/anchor_proof_binding.js:224-305 | with one confirmation count any proving row will do |
| `AnchorProofBinding.RulesOutExactly` | src/anchor/anchor_proof_binding.js:118-152 | a status rules a row out exactly when it begins with "invalid" in any letter case and is none of the three node-dependent verdicts |
| `AnchorProofBinding.RowOrderImmaterial` | src/anchor/anchor_proof_binding.js:271-305 | with one confirmation count the verdict depends only on which rows are there |
| `AnchorProofBinding.SectionVerdictIsNodeClassDependent` | src/anchor/anchor_proof_binding.js:136-137 | the section quorum verdict is recognised for every section number, tail and letter case |
| `AnchorProofBinding.NodeClassImmaterial` | src/anchor/anchor_proof_binding.js:136-152 | swapping node-class-dependent statuses for each other or for valid ones never changes the verdict |
| `AnchorProofBinding.SiblingsUnproveExactly` | src/anchor/anchor_proof_binding.js:195-267 | a verified verdict survives added rows of other actions if and only if the reward is an archive one, or a proving row carries an action index, or no added candidate section lies above the reward's block, or an added row proves the reward itself |
| `AnchorProofBinding.SiblingsCannotUnprove` | src/anchor/anchor_proof_binding.js:195-267 | so where a bundle's own rows carry action indexes, and for any archive reward, no sibling takes a proof away |
| `AnchorProofBinding.NamelessSiblingUnproves` | src/anchor/anchor_proof_binding.js:183-191 | a losing input of that condition |
| `AnchorProofBinding.BurialNeverTouchesRejected` | src/anchor/anchor_proof_binding.js:291-305 | changing confirmations never reaches nor leaves a reject |
| `AnchorProofBinding.BurialKeepsVerified` | src/anchor/anchor_proof_binding.js:291-305 | growing confirmations never lose a verified verdict |
| `Escalation.NextLiveSlot` | src/attestation/escalation.js:78-83 | the first live slot at or after the given one, or -1 exactly when there is none |
| `Escalation.EffectiveLeaderSlot` | src/attestation/escalation.js:117-135 | the live slot numbered min(step, 3, L-1), the last slot when none is live, 0 for at most one member |
| `Escalation.StepExactly` | src/attestation/escalation.js:54-65 | the step counts the whole rotation windows between request block plus confirmation lag and tip, the window being 2 unless it is a finite number of at least 1, and is 0 for heights that are no numbers |
| `Escalation.SeatedExactly` | src/attestation/escalation.js:117-135 | who is seated, by counting: the live slot with min(step, 3, L-1) live slots before it, the last slot when none is live, 0 for at most one member |
| `Escalation.NeverSilent` | src/attestation/escalation.js:117-135 | while a live slot exists the seated one is a live member |
| `Escalation.LadderMovesForward` | src/attestation/escalation.js:117-135 | a later step never seats an earlier slot |
| `Escalation.PlainLadder` | src/attestation/escalation.js:141-143 | with nothing proven silent the ladder is min(step, 3, count-1) |
| `Escalation.ConvictionsAreBounded` | src/attestation/escalation.js:85-135 | in any run that adds each seated mute slot to the silent set, whatever the steps, no slot is convicted twice and a speaking one is seated within as many convictions as there are mute slots |
| `Escalation.ConvictedByOneStep` | src/attestation/escalation.js:153-163 | a leader is proven silent exactly when both heights are known and the ladder, started where it was first observed, has moved a step |
| `Escalation.ConvictionSpansARotation` | src/attestation/escalation.js:153-163 | when a leader is proven silent the ladder has moved at least one step since it was first observed |
| `Escalation.ModelIndexMovesForward` | src/attestation/escalation.js:171-180 | the model slot is in [0, n-1] and nondecreasing in the tip |
| `Escalation.ModelExactly` | src/attestation/escalation.js:171-180 | on all numbers, the k-th of n equal segments of the span from request plus lag to deadline, held at the last model past it and at the first before it or where there is no span |
| `Escalation.FairShare` | src/attestation/escalation.js:171-180 | each of the n models serves floor(span/n) or ceil(span/n) heights of the serviceable span |
| `ResponseCanonical.SpellingUnique` | src/attestation/attest_response_canonical.js:81-91 | a number has one canonical spelling |
| `ResponseCanonical.DecimalIsCanonical` | src/attestation/attest_response_canonical.js:81-91 | the decimal text of a natural number is that spelling |
| `ResponseCanonical.CanonicalInjective` | src/attestation/attest_response_canonical.js:102-113 | with fixed-width request and hash, prefix-free providers and statuses and the era a function of the request, equal canonicals have equal fields |
| `ResponseCanonical.CanonicalLayout` | src/attestation/attest_response_canonical.js:102-113 | the signed bytes place by place: the five fields in order with nothing between them, a time after one bar at the end; refused exactly for a time that is no decimal numeral |
| `ResponseCanonical.NumeralsExactly` | src/attestation/attest_response_canonical.js:81-91 | the accepted spellings are exactly the decimal texts of natural numbers |
| `ResponseCanonical.ErasMustNotMix` | src/attestation/attest_response_canonical.js:102-113 | without the era assumption every mirror-era canonical is also that of a legacy response |
| `AdmissionMap.DecodeAdmitBlocks` | src/consensus/gates/mirror_admission_gate.js:285-301 | the loop returns `Decoded`, which the next row says on its own terms |
| `AdmissionMap.DecodesExactly` | src/consensus/gates/mirror_admission_gate.js:285-301 | a text is read as a map if and only if it is the text of that map: some codes of one to ten capitals and digits, strictly ascending, each with the decimal text of a height up to 2^53-1 |
| `AdmissionMap.EncodeAdmitBlocks` | src/consensus/gates/mirror_admission_gate.js:251-276 | encodes exactly the objects with at least one field, whose codes are such codes and whose heights are safe integers or canonical numerals, to the text of their contents in code order |
| `AdmissionMap.OneMapOneText` | src/consensus/gates/mirror_admission_gate.js:226-240 | two objects have one text if and only if they hold the same heights, in any key order and spelling |
| `AdmissionMap.ReadsBackExactly` | src/consensus/gates/mirror_admission_gate.js:251-301 | an encoded object is read back, to exactly its contents, if and only if no height exceeds 2^53-1 |
| `AdmissionMap.LongHeightIsRefused` | src/consensus/gates/mirror_admission_gate.js:266-297 | a longer height held as text is encoded, and then refused by the decoder |
| `AttestationConsensus.SelectFinalizedSigners` | src/attestation/consensus/finalized_signers.js:25-32 | the emitted signers are the needed number of smallest public keys |
| `AttestationConsensus.Pending.Open` | src/attestation/consensus/propose.js:137-191 | the state a round opens with, the own vote signed and, within the body cap, proposed; it satisfies the safety invariant |
| `AttestationConsensus.Pending.CollectWinnerSignatures` | src/attestation/consensus.js:153-176 | exactly the proposals whose own signature covers the winner canonical (and, on the ok path, match its body hash and meta) are counted |
| `AttestationConsensus.Pending.EstablishOk` | src/attestation/consensus/advance.js:92-104 | the state after an ok winner is established: time and map settled, sweep, re-sign, PREPARE |
| `AttestationConsensus.Pending.EstablishNonOk` | src/attestation/consensus.js:197-220 | the state after a non-ok outcome is established, nothing when one is already settled or published |
| `AttestationConsensus.Pending.BeginAgree` | src/attestation/consensus/advance.js:51-72 | when a hub starts agree(), waits for its leader, or concludes an outage; every held signature keeps covering the winner |
| `AttestationConsensus.Pending.EndAgree` | src/attestation/consensus/advance.js:73-105 | after the await whatever happened meanwhile stands; every held signature keeps covering the winner |
| `AttestationConsensus.Pending.Propose` | src/attestation/consensus/propose.js:338-389 | a verified, bounded PROPOSE is stored once per sender |
| `AttestationConsensus.Pending.AdoptNonOk` | src/attestation/consensus/prepare.js:112-153 | a non-ok PREPARE is adopted only after every check, and is co-signed only by a hub that saw the same failure |
| `AttestationConsensus.Pending.DerivationRefuses` | src/attestation/consensus/prepare.js:168-221 | the method refuses what `NonOkDerivationRefuses` does; what that lets through, over every run, is `FailuresAreBorneOut` |
| `AttestationConsensus.Pending.AdmitMapAllowed` | src/attestation/consensus/canonical.js:203-225 | exactly which admission maps a PREPARE may carry |
| `AttestationConsensus.Pending.Corroborate` | src/attestation/consensus/prepare.js:325-369 | adoption on the own match or a second signer of the same canonical, one live candidate per sender |
| `AttestationConsensus.Pending.AdoptOk` | src/attestation/consensus/prepare.js:232-280 | an ok PREPARE establishes the winner only after its checks, adopting the sender's time and map |
| `AttestationConsensus.Pending.CoSign` | src/attestation/consensus.js:273-319 | when this hub adds its own signature to an adopted ok winner |
| `AttestationConsensus.Pending.Prepare` | src/attestation/consensus/prepare.js:35-98 | the state after any PREPARE, every held signature and candidate covering its canonical |
| `AttestationConsensus.Pending.PrepareQuorum` | src/attestation/consensus/commit.js:33-59 | a hub commits once the needed number of prepares is in, and only once |
| `AttestationConsensus.Pending.CommitQuorum` | src/attestation/consensus/commit.js:102-134 | a round finalizes once on the needed number of signatures, never on votes |
| `AttestationConsensus.Pending.Commit` | src/attestation/consensus.js:341-372 | the state after any COMMIT; what is emitted is exactly the needed number of verifying signatures |
| `AttestationOutcomes.StepSettlesExactly` | src/attestation/consensus.js:153-372 | which events settle a round and on what, told from the event and the proposals held: exactly the own outage, the own verdict, and a PREPARE fit to be adopted |
| `AttestationOutcomes.SettlesExactly` | src/attestation/consensus.js:153-372 | over every run a round is settled by its first settling event, and a hub signs its own fetch and at most that outcome |
| `AttestationOutcomes.FailuresAreBorneOut` | src/attestation/consensus/prepare.js:168-221 | over every run a failure settled on or voted for is the own finding, or came with a PREPARE that what the hub held bears out: for provider_error enough proposals and none ok; for no_quorum under byte_equality enough proposals, one ok, and an own agree() that answers no winner too; under judge_model the word of the leader |
| `AttestationCounting.SettlingCountsExactly` | src/attestation/consensus.js:153-319 | whose signatures are held once an event settles a round |
| `AttestationCounting.SettlesWith` | src/attestation/consensus/advance.js:92-104 | the time and admission map an outcome is settled with: those a PREPARE states, the leader's, the judge's stamp, or the own ones |
| `AttestationCounting.AnnounceExactly` | src/attestation/consensus/prepare.js:344-369 | an announcement moves its sender to the announced canonical, leaves everybody else where they were, and forgets what nobody announces |
| `AttestationCounting.OneLiveCandidate` | src/attestation/consensus/prepare.js:344-369 | so a sender has one live candidate |
| `AttestationCounting.ProposesExactly` | src/attestation/consensus/propose.js:299-389 | exactly which PROPOSE is stored, and as what |
| `AttestationCounting.AgreesExactly` | src/attestation/consensus/advance.js:51-90 | exactly when the own agree() starts |
| `AttestationCounting.LatePrepareExactly` | src/attestation/consensus.js:332-338 | what a PREPARE brings to a settled round |
| `AttestationCounting.LateCommitExactly` | src/attestation/consensus.js:341-372 | what a COMMIT brings to it |
| `AttestationCounting.PublishedExactly` | src/attestation/consensus/commit.js:139-197 | over every run the published failures are those known at the start and the one the round emitted |
| `AttestationQuorums.PreparesExactly` | src/attestation/consensus/prepare.js:35-98 | after each event the prepared members are those of before and exactly who joins with it |
| `AttestationQuorums.QuorumsAct` | src/attestation/consensus/commit.js:33-134 | over every run a settled round that is not finalized has sent its COMMIT exactly when its prepares number the quorum and the redundancy, and once it has, its signatures do not |
| `AttestationSafety.EveryRunKeepsInv` | src/attestation/consensus.js:153-372 | in every reachable round state every held signature, whichever handler stored it, is by a responsible member and verifies over the round's winner canonical, none is held before a winner, and only such signatures, exactly the needed number, are emitted |
| `AttestationSafety.CorroboratedOver` | src/attestation/consensus/prepare.js:325-369 | candidates grouped under one key cover one canonical |
| `AttestationSafety.CandidateKeyInjective` | src/attestation/consensus/prepare.js:344-345 | the candidate key text determines the canonical it stands for, whatever the free-form meta holds |
| `AttestationSafety.CanonicalDetermines` | src/attestation/consensus/canonical.js:77-106 | equal signed bytes for one request have equal body hashes and, for known outcomes, equal statuses |
| `AttestationVotes.EveryRunKeepsOwnVotes` | src/attestation/consensus.js:240-319 | outside judge_model, over every run, all a hub signs has a known outcome, a failure has no body, and an ok vote is for a body and meta it may vouch for |
| `AttestationVotes.OkVoteNeedsOwnFetch` | src/attestation/consensus.js:297-319 | so an ok vote is for the body and meta of the own fetch, with nothing asked about forged envelopes; only a hub whose body was over the cap can be led back to a body of an earlier attempt |
| `AttestationVotes.FailedFetchSignsExactly` | src/attestation/consensus.js:297-319 | a hub whose fetch failed signs an ok vote exactly in the runs in which PREPAREs of others settle its round on an ok winner with an empty body and meta |
| `AttestationVotes.FailedFetchVouches` | src/attestation/consensus.js:297-319 | such runs exist: two members announcing an empty ok body make a hub whose fetch failed sign it |
| `AttestationRuns.PrepareGateExactly` | src/attestation/consensus.js:341-372 | over every run a hub sends its COMMIT on a prepare quorum only, but a round finalizes without one exactly when some member's COMMIT, even an unsigned one, finds or completes the needed signatures first |
| `AttestationRuns.BareCommitFinalizes` | src/attestation/consensus/commit.js:102-134 | such runs exist for every redundancy above 1: one unsigned COMMIT finalizes a round on this hub's own PREPARE alone |
| `AttestationAgreement.MemberVotes` | src/attestation/round/start_round.js:168-218 | whatever an honest member signs in any of its attempts at a request, an ok vote is for a body it fetched in that attempt or an earlier one |
| `AttestationAgreement.SignerVouches` | src/attestation/consensus/commit.js:102-134 | an ok finalization counting an honest member's signature carries a body one of that member's fetches brought |
| `AttestationAgreement.SharedFetch` | src/attestation/consensus.js:297-319 | above the bar (the two finalization counts together exceed the members of both rounds plus the faulty ones) some honest member's fetches brought both finalized bodies |
| `AttestationAgreement.BothTakesTwoFetches` | src/attestation/round/start_round.js:168-218 | which takes two attempts, and for two nonempty bodies two ok fetches with different answers |
| `AttestationAgreement.FinalizationsAgree` | src/attestation/consensus/commit.js:102-134 | hence above the bar two hubs finalize one body, for any number of attempts and any widening between them, unless an honest member was given both answers |
| `AttestationRuns.RedundancyBinds` | src/attestation/consensus/propose.js:82-133 | the finalization count is the greater of quorum and redundancy, and for a round as it is opened the redundancy, however far the set is widened |
| `AttestationAgreement.AgreementAboveBar` | src/attestation/consensus/propose.js:82-133 | for rounds as they are opened the bar is twice the redundancy above the members, widened slots included, plus the faulty ones |
| `AttestationAgreement.DisagreementBelowBar` | src/attestation/consensus/propose.js:82-133 | with one attempt per member the bar is exact: at or below it two full runs finalize any two given bodies for one request, every member honest but at most f |
| `AttestationAgreement.RetriesDisagree` | src/attestation/consensus/propose.js:196-214 | with a second attempt no bar suffices: for every redundancy two members of a round of two or more finalize any two given bodies, nobody faulty and no ok outcome retried |
| `AttestationAgreement.OverlapExactly` | src/lib/bft_quorum.js:52-54 | every two groups of q members share one outside any f of them if and only if 2q exceeds the set by more than f |
| `AttestationAgreement.HonestOverlapExactly` | src/lib/bft_quorum.js:52-54 | every two quorums of the bare formula share a member outside any third of the set if and only if its size is 1 modulo 3, or 2, 3 or 6 |
| `JsonText.QuoteDecides` | src/anchor/legacy_reward_pins.js:24-25 | a JSON-quoted string ends where it says it ends and determines its text |
| `JsonText.QuoteReads` | src/anchor/legacy_reward_pins.js:24-25 | a reader of section 7 of RFC 8259 gets a quoted string back, and what follows it |
| `JsonText.EscapeExactly` | src/anchor/legacy_reward_pins.js:24-25 | which characters stand for themselves, which take a two-character escape, and which \\u00 with two lower-case digits |
| `RulesDigest.CanonicalDecides` | src/consensus_rules_digest.js:194-202 | a printed value is self-delimiting and determines the value up to object key order |
| `RulesDigest.SamePrintsAlike` | src/consensus_rules_digest.js:194-202 | values equal up to object key order print the same text |
| `RulesDigest.PreimageInjective` | src/consensus_rules_digest.js:269-279 | two builds, whatever gates each lists, have equal preimages if and only if they list the same gates in the same order and every value agrees up to key order |
| `RulesDigest.DigestsAgree` | src/consensus_rules_digest.js:269-279 | short of a hash collision, two builds publish one digest exactly when they list the same gates in the same order and diffGates finds nothing |
| `RulesDigest.OrderIsUnnamed` | src/consensus_rules_digest.js:368-376 | a mere reordering of the gates moves the digest although diffGates names no gate |
| `RulesDigest.RulesModule.ComputeConsensusRulesDigest` | src/consensus_rules_digest.js:269-279 | the digest and the gates map, and that the cached answer is the computed one |
| `RulesDigest.DiffGates` | src/consensus_rules_digest.js:368-376 | the sorted list of exactly the gates on which the maps differ, a missing gate counting as differing |
| `RulesDigest.DiffExplainsDigest` | src/consensus_rules_digest.js:368-376 | for builds listing the same gates in the same order the list is empty exactly when the preimages are equal, and names exactly the gates whose values differ |
| `ActiveGates.NetworkActivationHeight` | src/consensus_rules_digest.js:301-321 | with a coin its own height or else the bare one; without one the answer is armed by h exactly when some key of the network is |
| `ActiveGates.ActiveGatesAt` | src/consensus_rules_digest.js:347-363 | the sorted list of exactly the active gates, empty for a height that is no number |
| `ActiveGates.ActiveExactly` | src/consensus_rules_digest.js:301-363 | whether a gate is active, on its own entries: some height declared for the network, below 9999999999, has been reached (with a coin named, the coin's own, else the bare one), and it has a unit where one is asked for |
| `ActiveGates.FilterHeightExactly` | src/consensus_rules_digest.js:175-189 | from which height a unit is asked for, for every network and coin: 156140, 4912553 and 67988245 on the test network by coin, the lowest without a known coin, 0 elsewhere |
| `ActiveGates.UnitGatesOnlyGrow` | src/consensus_rules_digest.js:347-363 | a gate with an activation unit stays active as the height grows |
| `ActiveGates.LostExactlyAtFilter` | src/consensus_rules_digest.js:182-189 | an active gate is lost at a later height if and only if it has no unit and the height crossed the unit-filter height |
| `ActiveGates.CoinlessIsUnion` | src/consensus_rules_digest.js:301-321 | for gates with a unit the coin-less answer is the union over all nonempty coin names |
| `ActiveGates.CoinFiltersLater` | src/consensus_rules_digest.js:175-189 | on a network with only coin-keyed entries, naming a coin never filters earlier |
| `LegacyPins.TupleKeyInjective` | src/anchor/legacy_reward_pins.js:20-26 | two complete tuples share a key if and only if their five fields spell alike |
| `LegacyPins.SpelledAlikeExactly` | src/anchor/legacy_reward_pins.js:20-26 | when two tuples count as one, field by field |
| `LegacyPins.LoadLegacyRewardPins` | src/anchor/legacy_reward_pins.js:40-60 | refuses exactly the lists holding a pin that is no object or has a field undefined, null or empty; otherwise isPinned holds exactly for tuples whose five fields have the texts of some pin, and size counts distinct tuples |
| `PriceBatchWire.AcceptsExactlyEncodings` | src/price_batch_compression.js:145-152 | the decoder accepts s with result b if and only if b is nonempty and s is its base64 (RFC 4648, sections 3.5 and 4) |
| `PriceBatchWire.OneSpelling` | src/price_batch_compression.js:134-152 | no two accepted fields mean the same bytes |
| `PriceBatchWire.StrayBitsRejected` | src/price_batch_compression.js:138-143 | `QR==` is refused and `QQ==` accepted although the runtime reads both as one byte |
| `PriceBatchWire.EncodeSpells` | src/price_batch_compression.js:145-166 | the base64 of bytes by its bits: each three read as one 24-bit number and spelled by four symbols of table 1 of RFC 4648, padded at the end |
| `PriceBatchWire.RefusedUnread` | src/price_batch_compression.js:177-188 | exactly which fields are refused before inflating, with which reason; every other one is judged by its bytes |
| `PriceBatchWire.UnpacksExactly` | src/price_batch_compression.js:190-225 | the verdict on decoded bytes c by what inflates under min(8189, 150 * \|c\|), with the reason named in each case |
| `PriceBatchWire.RoundTripExactly` | src/price_batch_compression.js:162-225 | an emitted body inflates back exactly when it is nonempty and within the caps, and otherwise the reason is the cap it broke |
| `PriceBatchWire.SuccessIsBounded` | src/price_batch_compression.js:177-225 | every success is at most min(8189, 150 * compressed) bytes and names one wire and one payload |
| `ConfigRedaction.RedactNode` | src/api/config_redaction.js:98-114 | the recursive walk terminates on every tree, and returns `Redact` with the counter advanced by `Count`; what these are is `FollowsExactly` and `CountIsSecrets` |
| `ConfigRedaction.RedactStringValue` | src/api/config_redaction.js:86-96 | a string is rewritten exactly when the pass counts a replaced param in its embedded document |
| `ConfigRedaction.EmbeddedCleanExactly` | src/api/config_redaction.js:86-100 | what a string carries afterwards is clean exactly when the pass counted something in it or it was clean before |
| `ConfigRedaction.PasswordBelowCap` | src/api/config_redaction.js:98-100 | the remaining case: nodes below the depth cap are truncated uncounted, so a document whose only secret lies there is handed back as it came |
| `ConfigRedaction.ArrayStringsKept` | src/api/config_redaction.js:98-101 | a string held directly in an array is never opened |
| `ConfigRedaction.StringCountsWhatItReaches` | src/api/config_redaction.js:86-114 | the pass counts something in a string exactly when its document holds a secret-named key within the walk's reach, through the documents of string fields |
| `ConfigRedaction.DeepCleanExactly` | src/api/config_redaction.js:86-114 | the redacted tree holds no secret at any nesting of documents exactly when all the pass leaves untouched was so before: strings held directly in arrays, and documents in which it reaches no secret |
| `ConfigRedaction.RedactConfigTree` | src/api/config_redaction.js:127-131 | the tree and number of the pass from the root, a non-object returned as it is |
| `RedactionMeaning.FollowsExactly` | src/api/config_redaction.js:86-114 | the redacted tree is the one tree that keeps array lengths, keys in order except `__proto__`, and every null, boolean, number and secret-free string, puts the sentinel under secret-named keys, prints the redacted document of other strings, and cuts off only nodes below the cap |
| `RedactionMeaning.NothingToRedact` | src/api/config_redaction.js:98-114 | a tree with no secret reached, no `__proto__` and no node below the cap comes back equal, nothing counted |
| `RedactionMeaning.CountIsSecrets` | src/api/config_redaction.js:86-131 | the reported number is that of the secret-named keys within reach, each counted once |
| `ConfigRedaction.SecretNamesExactly` | src/api/config_redaction.js:56-69 | a param name is secret exactly when one of the nineteen words stands in it, in any letter case |
| `ConfigRedaction.RedactCleans` | src/api/config_redaction.js:98-114 | only the sentinel stands under a secret-named key of the returned tree's own nodes; documents inside its strings are the subject of `EmbeddedCleanExactly` |
| `ConfigRedaction.EmbeddedIsRedacted` | src/api/config_redaction.js:86-96 | a rewritten string carries the redacted document, which is clean |
| `ConfigRedaction.RedactionIdempotent` | src/api/config_redaction.js:86-131 | redacting twice equals redacting once, with the same count unless an object has the key `__proto__`, which assignment drops |
| `RateLimit.FixedWindowStore.CurrentWindow` | src/api/rate_limit_store.js:46-51 | the key's live window is the one the unswept ledger holds |
| `RateLimit.FixedWindowStore.Sweep` | src/api/rate_limit_store.js:53-57 | sweeping loses no live window |
| `RateLimit.FixedWindowStore.IncrementBy` | src/api/rate_limit_store.js:61-68 | with a clock that never goes back, the answer and the new state are the unswept ledger's |
| `RateLimit.FixedWindowStore.Increment` | src/api/rate_limit_store.js:70-72 | one token |
| `RateLimit.FixedWindowStore.Get` | src/api/rate_limit_store.js:74-77 | likewise for a read |
| `RateLimit.FixedWindowStore.ResetKey` | src/api/rate_limit_store.js:84-86 | a reset key is forgotten by the ledger too, other keys kept |
| `RateLimit.FixedWindowStore.ResetAll` | src/api/rate_limit_store.js:88-90 | and all keys |
| `RateLimit.FixedWindowStore.Decrement` | src/api/rate_limit_store.js:79-82 | likewise for a refund |
| `RateLimit.LedgerExactly` | src/api/rate_limit_store.js:46-68 | after any run of charges a key holds the window its last uncovered charge opened, for windowMs, with every token charged since, and a read sees it until it ends |
| `RateLimit.RefundUndoesOne` | src/api/rate_limit_store.js:79-82 | a refund takes back one token of the live window and otherwise nothing |
| `RateLimit.BatchSurcharge` | src/api/rate_limit_tiers.js:92-105 | charges n - 1 tokens for an n-call batch, and refuses exactly when the window's total passes the limit |
| `RateLimit.WindowNeverOvergrants` | src/api/rate_limit_tiers.js:78-105 | under every interleaving of limiter charges and surcharges the tokens of steps not refused in one key's window sum to at most the limit |
| `RateLimit.RefusalIsFinal` | src/api/rate_limit_tiers.js:92-105 | after a refusal nothing more is granted to the key until its window ends |

## Left out

- PublishedWithinBand: and the other bounds on published rates assume a band factor of at least 1, which the default of 2 meets and no caller overrides; a smaller one would put the lower edge above the upper.
- UsdRoundTrip: assumes the USD price is on the 8-decimal grid, as stored prices are.
- AnchorProofBinding.RowOrderImmaterial: takes one confirmation count per transaction, as all rows of a transaction are buried equally deep.
- FinalizationsAgree: is about ok outcomes outside judge_model for the honest signer; under judge_model honest hubs sign bodies they did not fetch, by design.
- EveryRunKeepsOwnVotes: covers one attempt; all attempts of a member together are `MemberVotes`.
- RetriesDisagree: at full redundancy its runs let a signature of a first attempt reach another hub's second one; below full redundancy the attempts line up.
- DisagreementBelowBar: exhibits its runs in a byte_equality round of the legacy era; the agreement results cover every era.
- FairShare: counts the heights from the serviceable start up to, not including, the deadline; the deadline itself clamps to the last model.
- EffectiveLeaderSlot: takes integer counts and steps, which is what the caller's list length and `escalationStep` give.
- CanonicalInjective: takes effective times as the text the canonical carries, so the type check on other JavaScript values is not modelled.
- RedactCleans: speaks of the nodes of the returned tree; what its strings carry is `EmbeddedCleanExactly`.
- Admission maps: an attestation round's map is carried as its encoded text, which stands for exactly one map (`DecodesExactly`, `OneMapOneText`); the follower bound against the own tips is an input of each event.
- RateOfTheFills: takes amounts on the 8-decimal grid, as stored amounts are, and like PublishedOnTheGrid a band factor of at least 1.
- SettlingCountsExactly: takes rounds that hold no signature before a winner, as every reachable one does (`EveryRunKeepsInv`); so do SettlesWith and PreparesExactly.
- QuorumsAct: takes a redundancy of at least 1, which a request without one is given.
- Wire caps, drop counters, log lines, slash evidence, timers and the early buffers of an attestation round: they only drop, delay or observe envelopes.
- `provider.agree()`: any verdict is allowed, so nothing is assumed of the provider's choice.
- Letter case outside ASCII: `toLowerCase` on public keys and statuses is modelled on A to Z.
- Prototype names such as `constructor` used as a network or coin name in a gate table lookup.
- Strings are sequences of whole characters; lone surrogates and sorting by UTF-16 code unit of characters beyond the basic plane are not modelled.
- Function-valued gates and non-finite numbers in the digest; negative fill amounts in the price lemmas.
- Whether the stamp sweep finds another stamp at the block, and whether a transaction vanished: a retraction is a call that may arrive at any time.
- The lookup of an anchor reward's amount: it is an input of each call.
- The limiter of express-rate-limit: it is a charge of one token refused when the total passes the limit.
- Publishers, relays, checkpointing, reorg handling, the activation-height resolvers, authentication, metrics and the command-line tools: threshold tests and wiring that would only add easy members.
