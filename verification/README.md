# Bitcoin-Trinity, verified

A Dafny model of Bitcoin-Trinity, a 2-of-3 Bitcoin wallet whose phone holds two of the three keys, and proofs about it.
`dafny verify dfyconfig.toml` checks the whole project.

What is modelled, in the wallet's own terms:

- **The spend window** (`Limits`, `Window`, `WindowRuns`, `WindowClock`, `WindowSigned`, `WindowAnchors`,
  `WindowCounter`, `StateCodec`, `StateLayout`, `InputSets`). A counter limits what may be signed without a passphrase.
  Its clock combines monotonic time, chain tip and wall time; its ledger is pruned and merges replacements. `WindowRuns`
  puts it in a world with true time, reboots and a full history, and proves the limit over every run; `WindowClock` says
  which platform clocks it holds for, and `WindowAnchors` proves it over every stretch of blocks under any clock.
  `WindowCounter.Counter` is the object the program mutates.
- **The two-key protocol** (`Signing`, `SignsWhen`, `SignRefusals`, `SignAb`, `SignRuns`, `SigningSteps`). Policy,
  verifier, first signer, verifier again, transaction binding, check of key A's signatures, second signer, booking. The
  first signer is an arbitrary function. Every call leaves a list of events, and the theorems say what must precede
  what, over every run.
- **The independent verifier** (`Verify`, `VerifyMeaning`, `VerifyRefusals`, `Recipients`, `VerifyPanics`,
  `PrefixedWallet`, `VerifyLoops`, `IndexSearch`, `SpendCharge`): checks V1 to V10, an exact declarative reading of
  what they accept and of every error they report, conservation of value, and the charge booked for a transaction.
- **Derivation and finishing** (`Derive`, `DerivesWhen`, `Bip67`, `Multisig`, `Finalize`, `FinalRefusals`,
  `FinalizeLoops`, `AfterProtocol`): child keys, the BIP-67 sort, the 2-of-3 script, the witness and the one-pass
  multisignature rule.
- **Codes and parsers** (`PolymodCode`, `PolymodField`, `Checksum`, `ChecksumVectors`, `OriginPath`, `Descriptor`,
  `DescriptorParser`, `ParseRefusals`, `Entropy`, `EntropyForm`): the BIP-380 checksum as 64-bit arithmetic, the
  one-grammar descriptor parser and its printer, and the entropy-source encoding.
- **Loops with a fixpoint or a bound** (`ChainScan`, `StopGap`, `PlanCheck`, `PlanRaises`): the two-pass relevance scan,
  the stop-gap scan, and the depth-first cycle check of the plan script.

`Machine`, `Errors`, `Bitcoin`, `Order`, `Division`, `LittleEndian`, `Psbts` and `Gather` hold what these share. Pure
code is modelled as functions with lemmas; loops and objects as methods and classes, each proved equal to the function its
theorems are about.

Hashing, curve arithmetic, AEAD, base58, addresses, transaction sizes and the consensus library are parameters: records
of functions (`Derive.Curve`, `Psbts.Host`, `Signing.KeyHost`, `StateCodec.Aead`), so every theorem holds for any of
them. The only law ever required of all of one is that opening a sealed blob returns its plaintext and that the
ciphertext is as long as the plaintext and the tag. Two theorems name what they ask of particular values: that a
transaction id tells two transactions apart (`SignRuns.BookedCharge`), and that no signature verifies under another key
of the script (`Finalize.WitnessSatisfies`). Clocks, tips, balances, nonces and what a node answers are inputs. A string
is a sequence of characters that stand for bytes.

Where two error types of the program share a variant name, the signer's is renamed (`SighashNotAll`, `NoWitnessUtxo`,
`NoWitnessScript`), `UndecodableXpub` is the deriver's `MalformedXpub`, and `AeadFailure` the counter's `Aead`.
`VerifierPanics` and `SignerPanics` are not values of the program: they mark the places where an `expect` does not hold.

## What the proofs turned up

- The parser accepts origins with a leading `m/` and keeps them as written; V4 puts `m/` before them again, and its
  comment takes them to be unprefixed. With all three so written no change output is ever accepted, and any honest spend
  with change makes the verifier panic (`PrefixedWallet.HonestSpendPanicsIff`, `PrefixedWallet.SampleSpendPanics`). When
  it panics is proved exactly, for the check and for the whole verifier (`VerifyPanics.PrefixedOrigins`,
  `VerifyPanics.VerdictPanicsIff`).
- After the plan script has recorded a cycle, outer frames of the search go on, and one may look up a package that has
  left the path, which raises (`PlanCheck.RaisesAfterRecording`). It raises only after a genuine cycle was recorded;
  exactly when is read off the graph and the order (`PlanRaises.RaisesIff`).
- A counter field that is known and holds the largest value of its type comes back from storage as unknown; every other
  state comes back unchanged (`StateCodec.Normalise`).
- The limit over true time rests on the platform's clock, whose reading after a reboot has an origin of the platform's
  own. A clock that starts every boot from zero, or anywhere not ahead of its last reading, needs no boot ids at all;
  for any other it is enough that every call reports an id and every boot has its own. Without ids the reading may jump
  ahead, and when that lets a second full spend through is proved exactly (`WindowClock.RestartsBehindNeverOverrun`,
  `WindowClock.ReportedBootsNeverOverrun`, `WindowClock.SpentTwiceIff`).
- The limit is on what is newly booked. A replacement at no higher charge books nothing and leaves its row's time as it
  was, so the largest charges signed for different coins within one window may reach twice the limit, and never exceed
  it (`WindowSigned.SignedWithinTwice`, `WindowSigned.TwiceIsAttained`).
- `finalize` takes the first two signed keys in BIP-67 order whether or not their signatures verify, so a bad signature
  of the first spoils the witness though two good ones are there (`Finalize.BadFirstSignature`). Given that no signature
  verifies under another key of the script, the witness is accepted exactly when the two signatures taken verify under
  their own keys, whatever the others are (`Finalize.WitnessSatisfies`).

## Model

| member | source | states |
|---|---|---|
| `SignRuns.WalletSpendingIsBounded` | crates/trinity-signer/src/sign.rs:63-77 | in every run of ticks, reboots to any reading, passphrase changes, reopenings and `sign_ab` calls with any transaction, descriptor, first signer, tip, boot id and wall time, in which no observation overruns true time, the sats booked inside any window-long interval of true time total at most the limit |
| `SignRuns.WalletUnderLawfulClock` | crates/trinity-signer/src/clock.rs:13-24 | the same bound for every clock that never runs fast within a boot and either never starts a boot ahead of its last reading or reports an id of its own for every boot |
| `SignRuns.WalletSignsWithinTwice` | crates/trinity-signer/src/window.rs:224-244 | counting signatures and not only what is newly booked: in every such run, for any different input sets, the largest charges signed for them inside one window-long interval of true time total at most twice the limit |
| `SignRuns.EveryEventJustified` | crates/trinity-signer/src/sign.rs:26-98 | in every run each event has its reasons earlier in the same call: no signer is called before policy and verifier accepted; the second key is unwrapped only after the verifier accepted the first signer's result, the transaction id is the authorised one and key A's signature is valid on every input |
| `SignAb.ProtocolJustified` | crates/trinity-signer/src/sign.rs:63-77 | the same for one call with an arbitrary first signer, and a booking happens exactly when the result is Ok |
| `SignAb.ProtocolResult` | crates/trinity-signer/src/sign.rs:63-98 | an Ok result carries the authorised transaction id and, on every input, valid SIGHASH_ALL signatures of key A and of the second signer |
| `SignRuns.ProtocolIsStep` | crates/trinity-signer/src/sign.rs:63-77 | the effect of a call on the counter is the step the window theorems quantify over; history grows by exactly one entry with that charge and input set when the result is Ok, and not at all otherwise |
| `SignRuns.BookedCharge` | crates/trinity-signer/src/window.rs:411-449 | what a successful call books is the watch-only value of the inputs of the transaction it returns minus that transaction's own outputs, given that the transaction id tells it from the one submitted; at least the fee and at most the amount plus fee the verifier reports |
| `SignAb.KeyAMeaning` | crates/trinity-signer/src/sign.rs:79-98 | the check passes exactly when every input carries a valid SIGHASH_ALL signature of the descriptor's first key |
| `SignsWhen.ProtocolIff` | crates/trinity-signer/src/sign.rs:63-98 | `sign_ab` returns a given PSBT exactly when the window affords the call, the verifier accepts the PSBT, the first signer returns one the verifier accepts too, of the same transaction id and with key A's signatures, and that one signed by the second signer is the PSBT returned |
| `SignRefusals.ProtocolRefuses` | crates/trinity-signer/src/sign.rs:63-98 | a refused call reports the first fault of policy, window, verifier, first signer, verifier again, transaction id, key A's signatures, second signer, and books nothing; an invalid policy does not even move the clock |
| `WindowRuns.SpendingIsBounded` | crates/trinity-signer/src/window.rs:180-372 | for any sequence of admissible steps that never overruns, newly booked sats in any true-time interval of the window's length stay within the limit |
| `WindowSigned.SignedWithinTwice` | crates/trinity-signer/src/window.rs:224-244 | the same for any sequence of admissible steps that never overruns: what a set's row held as the interval opened and what was added since cover every charge signed for it |
| `WindowSigned.TwiceIsAttained` | crates/trinity-signer/src/window.rs:224-244 | twice the limit is reached under a perfect clock: a replacement at the same charge does not restamp its row, so the row expires one nanosecond later and the allowance is free for another coin |
| `WindowRuns.WindowNeverOutrunsTime` | crates/trinity-signer/src/window.rs:246-283 | between any two moments of any run the elapsed window time never falls, and in a run that never overruns it grows by at most the true time between the observations they stand on |
| `WindowRuns.AgesTooFastIff` | crates/trinity-signer/src/window.rs:295-372 | one observation ages the window by more than a given time exactly when the reading moved on by more, no pair of boot ids differs, the blocks seen cover more, the wall clock moved on by no more than the reading, and the counter does not saturate |
| `WindowRuns.OverrunsIff` | crates/trinity-signer/src/window.rs:246-283 | a step of a run outruns true time exactly when it is such an observation for the true time since the last one |
| `WindowRuns.NeverOverrunsIff` | crates/trinity-signer/src/window.rs:246-283 | a run is free of such observations exactly when no step of it outruns true time |
| `WindowClock.RestartsBehindNeverOverrun` | crates/trinity-signer/src/clock.rs:13-24 | whatever boot ids are or are not reported, a clock that never runs fast within a boot and never starts a boot ahead of its last reading, such as one that starts from zero, never overruns |
| `WindowClock.ReportedBootsNeverOverrun` | crates/trinity-signer/src/clock.rs:13-24 | wherever the platform starts the reading of a boot, the clock never overruns when every call reports the id of its boot, no two boots share one and none is the value storage keeps for an unknown id |
| `WindowClock.SpentTwiceIff` | crates/trinity-signer/src/window.rs:295-372 | spend the whole allowance, reboot to any reading, try again at the same moment, each call with any boot id, tip and wall time: twice the limit is booked exactly when the reading jumped by more than the window, no pair of boot ids differs, a pair of tips is more than the window apart and a pair of wall times moved on by no more than the reading; otherwise only the limit |
| `WindowRuns.LedgerIsHistory` | crates/trinity-signer/src/window.rs:203-244 | rows have pairwise different input sets, each holds the largest charge committed for exactly its inputs since it was opened, and no increment younger than the window is missing |
| `WindowRuns.ReachableSealsAndReopens` | crates/trinity-signer/src/core_state.rs:153-180 | every reachable counter state is within the encoder's limits, so sealing never fails, and opening the blob gives the state the run goes on from |
| `WindowRuns.RunKeepsInv` | crates/trinity-signer/src/window.rs:180-292 | the joint invariant of clock, ledger, history and limit holds after every run |
| `WindowRuns.NextKeepsInv` | crates/trinity-signer/src/window.rs:180-292 | every single step keeps that invariant |
| `WindowRuns.ObservedKeepsLedger` | crates/trinity-signer/src/window.rs:285-291 | pruning keeps every row's tie to history and drops no increment younger than the window |
| `WindowRuns.BookedKeepsRows` | crates/trinity-signer/src/window.rs:224-244 | booking keeps rows distinct, within limits and equal to the largest charge of their history |
| `WindowRuns.BookedKeepsYoung` | crates/trinity-signer/src/window.rs:224-244 | booking a spend that has a row or room for one loses no increment younger than the window |
| `WindowRuns.AdvancedAges` | crates/trinity-signer/src/window.rs:246-283 | one observation ages the window by at most the monotonic progress since the anchor, and never backwards |
| `WindowRuns.RecentWithinTotal` | crates/trinity-signer/src/window.rs:209-213 | everything newly booked in the last window of true time is inside the sum the next approval is checked against |
| `WindowAnchors.BookedWithinBlocks` | crates/trinity-signer/src/window.rs:295-347 | under any clock whatever: over any stretch of a run whose every step reports a tip and in which the tips climb by less than a window's worth of ten-minute blocks, what is newly booked totals at most the limit |
| `WindowAnchors.BookedWithinLimit` | crates/trinity-signer/src/window.rs:180-221 | the same over any stretch in which the elapsed window time moves on by no more than the window |
| `WindowAnchors.AgesWithinBlocks` | crates/trinity-signer/src/window.rs:246-283 | over a run whose steps all report a tip the window ages by at most ten minutes for every block by which the tips climb |
| `WindowAnchors.ClimbIsDifference` | crates/trinity-signer/src/window.rs:295-347 | where the tips never fall, that climb is the last tip minus the first |
| `WindowAnchors.RunAgesWithin` | crates/trinity-signer/src/window.rs:246-283 | each observation of a run ages the window by at most the blocks since the last tip reported to it, and by nothing unless the wall clock moved on since the last wall time reported, by no more than the monotonic one |
| `WindowAnchors.AnchorsAreLast` | crates/trinity-signer/src/window.rs:246-283 | in every run the counter's anchors are the last reading, the last tip and the last wall time reported, but for the value storage forgets |
| `WindowAnchors.ConsecutiveReadings` | crates/trinity-signer/src/window.rs:246-347 | for any state and two observations in a row: the window ages by at most ten minutes for every block between their tips, by nothing unless the wall clock moved on and no further than the monotonic one, and by nothing across different boot ids |
| `WindowAnchors.AnchorsMove` | crates/trinity-signer/src/window.rs:246-283 | an observation leaves its own reading and whatever tip, boot id and wall time it reports, keeps the others, and starts the window at zero when it is the first |
| `Window.StepElapsedCases` | crates/trinity-signer/src/window.rs:295-372 | the elapsed step is zero on another boot, on a monotonic regression and on a wall clock that ran back or ahead; otherwise it is the monotonic progress braked by the blocks seen |
| `Window.ApprovedIff` | crates/trinity-signer/src/window.rs:180-221 | approval exactly when the passphrase was used, charge and inputs are known, the addition fits under the allowance with all that is booked (or is nothing), and a row or room for one exists |
| `Window.CommitAddsExtra` | crates/trinity-signer/src/window.rs:203-244 | booking an approval raises the exact total by its extra charge, stays under the allowance and leaves a row for its inputs: an approved spend never falls into the branch that drops it |
| `SignRefusals.DecisionRefuses` | crates/trinity-signer/src/window.rs:180-221 | which refusal: the passphrase first, then the charge's error, the inputs' error, the allowance, and the full ledger only where the addition fits and neither a row nor room for one exists |
| `Window.BookedIsTotal` | crates/trinity-signer/src/window.rs:160-168 | the saturating sum is the exact sum clipped at the 64-bit maximum |
| `Window.Live` | crates/trinity-signer/src/window.rs:285-291 | exactly the rows stamped at or after the window start survive |
| `Window.FindRow` | crates/trinity-signer/src/window.rs:225-229 | the first row whose inputs are the given set, or none when no row has them |
| `InputSets.SameInputsIsSetEquality` | crates/trinity-signer/src/window.rs:389-394 | the length test plus membership is set equality on rows without repetitions |
| `WindowCounter.Counter.New` | crates/trinity-signer/src/window.rs:114-122 | an empty counter for a 32-byte key, otherwise the length error |
| `WindowCounter.Counter.Open` | crates/trinity-signer/src/window.rs:124-134 | the counter holding the decrypted state; the length error, or the core-state error with its variant |
| `WindowCounter.Counter.Seal` | crates/trinity-signer/src/window.rs:141-147 | the encrypted current state under the nonce drawn, or the core-state error with its variant: no randomness, or outside the encoder's limits |
| `WindowCounter.Counter.SetPassphraseUsed` | crates/trinity-signer/src/window.rs:149-152 | changes that flag and nothing else |
| `WindowCounter.Counter.Booked` | crates/trinity-signer/src/window.rs:160-168 | the loop computes the saturating total of the rows |
| `WindowCounter.Counter.Advance` | crates/trinity-signer/src/window.rs:246-283 | field by field, the in-place update is the clock step of the run theorems and leaves the anchors `WindowAnchors.AnchorsMove` says |
| `WindowCounter.Counter.Prune` | crates/trinity-signer/src/window.rs:285-291 | in place, the window start moves and exactly the expired rows go |
| `WindowCounter.Counter.Authorize` | crates/trinity-signer/src/window.rs:180-221 | decision and new state are those of the run theorems for this PSBT's own charge and inputs; an invalid policy moves nothing |
| `WindowCounter.Counter.Commit` | crates/trinity-signer/src/window.rs:224-244 | in place, the replacement-merging booking of the run theorems |
| `Limits.OfIsFloor` | crates/trinity-signer/src/limits.rs:46-55 | the share is the exact rounded-down quotient: the 128-bit product never saturates |
| `Limits.ShareAtMostWhole` | crates/trinity-signer/src/limits.rs:119-141 | a validated share of a balance is at most the balance |
| `Limits.AllowanceBounds` | crates/trinity-signer/src/limits.rs:156-172 | never above balance or cap; under a valid policy at least the smaller of floor and balance, and exactly the share where it lies between floor and cap |
| `Limits.AllowanceMonotone` | crates/trinity-signer/src/limits.rs:156-172 | a larger balance never lowers the allowance |
| `Limits.AllowanceIs` | crates/trinity-signer/src/limits.rs:156-172 | the share held between floor and cap and never above the balance, the cap without a share, nothing when the floor is above the cap |
| `Limits.ValidateIff` | crates/trinity-signer/src/limits.rs:119-141 | accepted exactly when the floor is not above the cap, the passphrase is asked for, the share is from one to a hundred percent and the window from one hour to seven days |
| `Limits.ValidateRefuses` | crates/trinity-signer/src/limits.rs:119-141 | which refusal: a floor above the cap first, then a policy without the passphrase, then what is out of range |
| `StateCodec.DecodeAfterEncode` | crates/trinity-signer/src/core_state.rs:205-305 | decoding an encoded state gives it back, except that a known field holding the sentinel value becomes unknown |
| `StateCodec.EncodeAfterDecode` | crates/trinity-signer/src/core_state.rs:205-305 | re-encoding any accepted plaintext gives the same bytes |
| `StateCodec.Normalise` | crates/trinity-signer/src/core_state.rs:307-326 | storage changes a state exactly when a known field holds a sentinel |
| `StateCodec.OpenAfterSeal` | crates/trinity-signer/src/core_state.rs:153-203 | opening a sealed state under the same key returns the stored state |
| `StateCodec.EncodePlaintext` | crates/trinity-signer/src/core_state.rs:205-238 | the encoder loops produce the byte layout, or fail exactly when the rows do not fit a 16-bit count or a row has no inputs or too many |
| `StateCodec.EncodeRow` | crates/trinity-signer/src/core_state.rs:224-236 | appends the bytes the decoder reads back as that row |
| `StateCodec.DecodePlaintext` | crates/trinity-signer/src/core_state.rs:240-305 | the offset-driven decoder accepts exactly the encodings |
| `StateCodec.DecodeRow` | crates/trinity-signer/src/core_state.rs:263-289 | reads one row or rejects what no row encodes to |
| `StateCodec.DecodeRows` | crates/trinity-signer/src/core_state.rs:261-293 | reads the rows in order and rejects trailing bytes |
| `StateCodec.DecodeInputs` | crates/trinity-signer/src/core_state.rs:278-284 | reads back the outpoints written |
| `StateLayout.FixedLayout` | crates/trinity-signer/src/core_state.rs:205-222 | every field before the rows at its offset: unknown ones as all ones, the two flags as bits 0 and 1, the row count last |
| `StateLayout.RowLayout` | crates/trinity-signer/src/core_state.rs:223-236 | the fields of every row and of every input of it at their offsets |
| `StateLayout.Digits` | crates/trinity-signer/src/core_state.rs:215-234 | byte i of a written integer is its i-th digit to the base 256, the least first |
| `StateLayout.Accepts` | crates/trinity-signer/src/core_state.rs:153-168 | the encoder takes up to 65535 rows of one to a hundred inputs, the sealer up to 256 |
| `StateLayout.SealedLayout` | crates/trinity-signer/src/core_state.rs:153-188 | a sealed blob is `TRCS`, version 1, three zero bytes, the nonce, and the ciphertext bound to all of these; a state out of limits is refused |
| `StateLayout.OpenRefusals` | crates/trinity-signer/src/core_state.rs:169-203 | which refusal answers which fault of a blob: too short, magic, version, reserved bytes, authentication, in this order |
| `VerifyMeaning.AcceptedIff` | crates/trinity-verify/src/verify.rs:57-120 | wherever the gap window derives, a PSBT is accepted exactly when it meets a declarative reading of V2 to V10: shape, known outputs of the wallet only, every output declared or fitting change, positive capped fee, declared amount, canonical signatures |
| `VerifyMeaning.Conservation` | crates/trinity-verify/src/verify.rs:93-120 | amount + change + fee of an accepted PSBT equals the sum of the watch-only values of its inputs; the amount is what goes to declared recipients; no saturating addition saturates |
| `Recipients.AcceptedPays` | crates/trinity-verify/src/verify.rs:93-120 | an accepted PSBT pays, outside its change, only addresses that are letter for letter a declared one up to the case of ASCII letters, and to those the declared amount |
| `Recipients.VerdictReports` | crates/trinity-verify/src/verify.rs:93-120 | the verdict names the first declared recipient, or else the address of the first output that is not change; its rate is the least whole one that pays its fee for the size |
| `Recipients.DeclaredIff` | crates/trinity-verify/src/verify.rs:343-358 | an output counts as declared exactly when it has an address that is one of the declared ones up to the case of ASCII letters |
| `Recipients.EqualIgnoringCaseIff` | crates/trinity-verify/src/verify.rs:476-483 | two addresses match exactly when they are of one length and at every place equal or the two cases of one ASCII letter |
| `Recipients.CaseNeverMatters` | crates/trinity-verify/src/verify.rs:476-483 | texts without capitals match only when equal, and changing the case of either never changes the answer |
| `VerifyRefusals.RefusedIff` | crates/trinity-verify/src/verify.rs:57-120 | wherever the gap window derives, a PSBT is rejected with a given error exactly when it has the fault the error names, at the first input or output that has it and with the numbers reported, and passes everything checked before: V8, V9, V7, V2, V3 and V4, V5, V6, V10 |
| `VerifyRefusals.OutputErrorIs` | crates/trinity-verify/src/verify.rs:343-374 | an output neither declared nor change is answered by what it lacks: an address, an index of the change descriptor, a map that describes it, or one V4 can read |
| `VerifyRefusals.FeeFaultIff` | crates/trinity-verify/src/verify.rs:485-536 | each fee error exactly for its fault, with the exact fee, and the rate the least whole one that pays it |
| `VerifyRefusals.HighSIff` | crates/trinity-verify/src/verify.rs:564-585 | of one input the error is a wrong sighash unless its first bad signature is ALL, and then it is high-s |
| `VerifyRefusals.V8Refuses` | crates/trinity-verify/src/verify.rs:139-192 | which error: inconsistent for a missing or surplus map, no inputs or a signed transaction, too many above a hundred of either, proprietary only after all of these |
| `VerifyRefusals.V7Names` | crates/trinity-verify/src/verify.rs:217-239 | the error names the first input the watch-only wallet does not know or knows otherwise, and says which |
| `VerifyRefusals.V2Names` | crates/trinity-verify/src/verify.rs:245-267 | where the window derives, the error names the first input neither descriptor derives |
| `VerifyRefusals.V10Names` | crates/trinity-verify/src/verify.rs:564-585 | the first input with a bad signature gives the error |
| `VerifyMeaning.ChangeOutputIff` | crates/trinity-verify/src/verify.rs:359-373 | change is accepted exactly when an index of the window derives to the script and the map describes it; the paths then give the hint, so no other index matters |
| `VerifyMeaning.V4Iff` | crates/trinity-verify/src/verify.rs:378-431 | V4 passes exactly on three entries with distinct fingerprints, each path its own key's origin followed by 1 and the index, and the derived keys as key set |
| `VerifyMeaning.OriginStepsIff` | crates/trinity-verify/src/verify.rs:457-464 | of the origins the parser accepts, V4 can read exactly those written without a leading m/ |
| `VerifyPanics.PrefixedOrigins` | crates/trinity-verify/src/verify.rs:378-464 | V4 panics exactly when the output derives, the map has three entries, and the first that is not a fitting change path of a new fingerprint is change of a new fingerprint whose key's origin is written with m/; with all three written so it never passes |
| `VerifyPanics.VerdictPanicsIff` | crates/trinity-verify/src/verify.rs:57-120 | wherever the gap window derives, the whole verifier panics exactly when every check on the inputs passes and the first output that is not fine has an address, is not declared, and is derived by the change descriptor at an index where its map makes V4 panic |
| `VerifyPanics.SearchIsFound` | crates/trinity-verify/src/verify.rs:307-331 | where the window derives, the index found is the hint if it derives to the script, and otherwise the least that does |
| `PrefixedWallet.HonestChangePanics` | crates/trinity-verify/src/verify.rs:442-464 | every map accepted as change of a wallet makes V4 panic when the same wallet's origins are all written with m/ |
| `PrefixedWallet.HonestSpendPanicsIff` | crates/trinity-verify/src/verify.rs:57-120 | any PSBT the whole verifier accepts of a wallet whose descriptors are written without m/ makes it panic, when the same wallet is written with m/, exactly if some output goes to no declared recipient |
| `PrefixedWallet.SampleChangePanics` | crates/trinity-verify/src/verify.rs:442-464 | one such wallet, three keys with origin m/48'/0'/0'/2' and its three-entry map at any index: accepted without the m/, a panic with it |
| `PrefixedWallet.SampleSpendPanics` | crates/trinity-verify/src/verify.rs:57-120 | a whole call: two descriptor texts with their checksums, a policy and a PSBT that are accepted without the m/, and a panic with it |
| `VerifyMeaning.ClassifyIff` | crates/trinity-verify/src/verify.rs:343-374 | an output is classified exactly when it has an address and is declared or fitting change; it counts as change exactly when not declared |
| `VerifyMeaning.V2Meaning` | crates/trinity-verify/src/verify.rs:245-283 | acceptance means every spent script is derived by the receive or change descriptor inside the window, and conversely where the window derives |
| `VerifyMeaning.V5Iff` | crates/trinity-verify/src/verify.rs:485-536 | accepted exactly when inputs fit 64 bits and the fee is positive, under the absolute cap, the declared one if any, and at most the rate cap times the size |
| `VerifyMeaning.FoldedIsKindSum` | crates/trinity-verify/src/verify.rs:542-558 | the saturating fold is the exact sum of one kind of output, clipped |
| `VerifyMeaning.V10Iff` | crates/trinity-verify/src/verify.rs:564-593 | accepted exactly when every present sighash field is ALL and every signature is ALL and low-s |
| `Verify.V7From` | crates/trinity-verify/src/verify.rs:217-239 | accepted exactly when every input is in the watch-only map with the same value and script |
| `Verify.V9From` | crates/trinity-verify/src/verify.rs:198-211 | accepted exactly when every input carries its witness output |
| `Verify.V9Names` | crates/trinity-verify/src/verify.rs:198-211 | otherwise the error names the first input that does not, and says whether it carries the whole previous transaction instead |
| `Verify.DivCeilBound` | crates/trinity-verify/src/verify.rs:524-528 | the rounded-up rate is the least whose product with the size covers the fee |
| `IndexSearch.HintedIsScan` | crates/trinity-verify/src/verify.rs:285-331 | for every hint the search succeeds exactly when the plain scan of the window does, finds a matching index, and the same one when scripts are distinct |
| `IndexSearch.SearchSound` | crates/trinity-verify/src/verify.rs:307-331 | without any assumption: a found index is in the window and matches, and not found means nothing matches |
| `IndexSearch.FindIndexMatching` | crates/trinity-verify/src/verify.rs:307-331 | the loop with its skipped hint is that search |
| `IndexSearch.Bip32IndexHint` | crates/trinity-verify/src/verify.rs:285-305 | the loop finds the index exactly when all paths agree on one |
| `IndexSearch.HintOf` | crates/trinity-verify/src/verify.rs:285-305 | a hint exists exactly when the map is not empty and all paths end in one unhardened index |
| `IndexSearch.MatchesDescriptor` | crates/trinity-signer/src/window.rs:466-478 | the spend window's scan says yes exactly when an index of the window derives to the script |
| `VerifyLoops.CheckV8` | crates/trinity-verify/src/verify.rs:139-192 | the loops accept exactly the well-shaped, unsigned, non-proprietary PSBTs within the count bounds, with the error of the first violated rule |
| `VerifyLoops.CheckV9` | crates/trinity-verify/src/verify.rs:198-211 | the early-return loop accepts exactly when every input carries its witness output, and names the first that does not, telling a legacy-only one apart |
| `VerifyLoops.CheckV7` | crates/trinity-verify/src/verify.rs:217-239 | the early-return loop accepts exactly when every claimed output equals its watch-only record, and names the first unknown or different one |
| `VerifyLoops.CheckV2` | crates/trinity-verify/src/verify.rs:245-267 | the loop accepts only PSBTs whose every spent script the wallet derives, and names the first foreign input |
| `VerifyLoops.MatchesAnyDerived` | crates/trinity-verify/src/verify.rs:269-283 | yes exactly when one of the two descriptors derives the script inside the window; a derivation error is passed on |
| `VerifyLoops.CheckV4Entries` | crates/trinity-verify/src/verify.rs:400-417 | the loop with its set of seen fingerprints rejects exactly a repeated or unknown fingerprint or a wrong path |
| `VerifyLoops.CheckV4Change` | crates/trinity-verify/src/verify.rs:380-431 | accepts exactly the maps that describe the derived change output |
| `VerifyLoops.CheckChangeOutput` | crates/trinity-verify/src/verify.rs:359-367 | one undeclared output is accepted exactly when it is change of the window that its map describes |
| `VerifyLoops.ClassifyOutputs` | crates/trinity-verify/src/verify.rs:337-376 | the list-building loop classifies every output in order or stops at the first that cannot be |
| `VerifyLoops.CheckedSums` | crates/trinity-verify/src/verify.rs:486-501 | the checked sums fail exactly when an exact sum does not fit in 64 bits |
| `VerifyLoops.CheckV5` | crates/trinity-verify/src/verify.rs:485-536 | fee, rate and every error value as the exact sums determine them |
| `VerifyLoops.CheckV6` | crates/trinity-verify/src/verify.rs:542-558 | accepts exactly when what is not change adds up to the declared amount |
| `VerifyLoops.CheckV10` | crates/trinity-verify/src/verify.rs:564-585 | the nested loops accept exactly canonical ALL signatures and sighash fields, and name the first input that is not |
| `VerifyLoops.Summarise` | crates/trinity-verify/src/verify.rs:94-106 | one pass gives the saturating sums of change and of the rest, and the first address that is not change |
| `VerifyLoops.VerifyPsbt` | crates/trinity-verify/src/verify.rs:57-120 | the program's `verify` is the function the theorems are about |
| `SpendCharge.ChargeMeaning` | crates/trinity-signer/src/window.rs:411-449 | the charge is exactly inputs minus own outputs with no saturation, and where the window derives it fails exactly on a missing spent output or a sum that overflows or is negative |
| `SpendCharge.ChargeWithinVerdict` | crates/trinity-signer/src/window.rs:411-449 | when the verifier also accepts, the charge is the watch-only value minus all own outputs and lies between the fee and amount plus fee |
| `SpendCharge.BelongsMeaning` | crates/trinity-signer/src/window.rs:451-478 | a script belongs exactly when one of the two descriptors derives it inside the window |
| `SpendCharge.InputSetOf` | crates/trinity-signer/src/window.rs:396-409 | between one and a hundred inputs, the set of exactly the outpoints spent; otherwise an error |
| `FinalRefusals.ChargeOrder` | crates/trinity-signer/src/window.rs:414-449 | the first fault gives the error: either descriptor, an input, an output, a negative balance |
| `FinalRefusals.InputsName` | crates/trinity-signer/src/window.rs:426-434 | the first input without its spent output is named, and the input at which the sum leaves 64 bits ends it |
| `FinalRefusals.InputSetRefuses` | crates/trinity-signer/src/window.rs:396-409 | no inputs and more than a hundred have their own errors |
| `SpendCharge.ComputeChargeOf` | crates/trinity-signer/src/window.rs:426-448 | the two accumulating loops compute that charge, with the first error in order |
| `SpendCharge.ComputeCharge` | crates/trinity-signer/src/window.rs:414-449 | `spend_charge` from descriptor strings to charge |
| `Derive.PermutedDescriptor` | crates/trinity-verify/src/derive.rs:108-136 | permuting the three key expressions changes neither whether an index derives nor the sorted keys, witness script and output script |
| `Derive.ChildIsPath` | crates/trinity-verify/src/derive.rs:77-106 | a child is BIP-32 public derivation along branch and index from the decoded account key; a hardened index is refused |
| `Derive.ScriptDeterminesKeys` | crates/trinity-verify/src/witness.rs:31-53 | a multisignature script belongs to one threshold and one ordered key list only |
| `Derive.WitnessScriptDeterminesKeys` | crates/trinity-verify/src/derive.rs:112-136 | equal witness scripts mean equal derived keys |
| `Derive.CheckmultisigScript` | crates/trinity-verify/src/witness.rs:31-53 | succeeds exactly for 1 to 16 compressed keys and a threshold not above their number |
| `Derive.BuildCheckmultisigScript` | crates/trinity-verify/src/witness.rs:31-53 | the checking and pushing loops build that script |
| `Derive.DeriveAt` | crates/trinity-verify/src/derive.rs:112-136 | three children, whose public keys in ascending order are the keys of the 2-of-3 script, and the output script is its P2WSH |
| `DerivesWhen.DeriveAtIff` | crates/trinity-verify/src/derive.rs:112-136 | an index derives to a given output exactly when its children are those of the three key expressions in order, its keys these in ascending order, its script the 2-of-3 of them and its program version 0 with the hash of that |
| `DerivesWhen.DeriveChildIff` | crates/trinity-verify/src/derive.rs:77-106 | a key expression derives to a given child exactly when its account key decodes and the branch and then the index lead to it, and it is a point |
| `DerivesWhen.CkdPubIff` | crates/trinity-verify/src/ckd.rs:45-88 | one public step is that of BIP-32 (section "Public parent key to public child key"): the keyed hash of key and big-endian index splits into the tweak added and the child's chain code |
| `DerivesWhen.CkdPubRefuses` | crates/trinity-verify/src/ckd.rs:45-88 | which error: a hardened index, a key off the curve, else the tweak |
| `DerivesWhen.DeriveChildRefuses` | crates/trinity-verify/src/derive.rs:82-106 | which error: a hardened index, an account key that does not decode, else a step's |
| `DerivesWhen.DeriveAtRefuses` | crates/trinity-verify/src/derive.rs:112-136 | the first key expression that does not derive gives the error |
| `DerivesWhen.ScriptLayout` | crates/trinity-verify/src/witness.rs:31-53 | the script byte by byte: threshold, every key behind its length, number of keys, OP_CHECKMULTISIG |
| `DerivesWhen.ScriptRefuses` | crates/trinity-verify/src/witness.rs:31-53 | the parameters first, then the first key that is not compressed |
| `Bip67.SortIsUnique` | crates/trinity-verify/src/bip67.rs:10-20 | two ascending arrangements of the same keys are equal (BIP-67, "Specification" section) |
| `Bip67.SortedPermutation` | crates/trinity-verify/src/bip67.rs:10-33 | sorting does not see the order keys arrive in |
| `Bip67.SortPubkeys` | crates/trinity-verify/src/bip67.rs:18-20 | in place, the array becomes the one ascending arrangement of its keys |
| `Bip67.SortThree` | crates/trinity-verify/src/bip67.rs:29-33 | the ascending arrangement of three keys, whatever their order |
| `Order.LexLessIff` | crates/trinity-verify/src/bip67.rs:10-20 | one key is before another exactly when it is lesser at the first byte where they differ |
| `Signing.LocalSignMeaning` | crates/trinity-signer/src/local.rs:100-172 | a successful local signature changes nothing but signature maps and sighash fields, and leaves on every input a valid SIGHASH_ALL signature of the signer's key |
| `SignsWhen.LocalSignIff` | crates/trinity-signer/src/local.rs:100-172 | a local signer returns a given PSBT exactly when there are inputs, all asking for SIGHASH_ALL and carrying what a signature needs, its blob opens to the declared master key, the first entry of its fingerprint derives on every input the entry's own key, whose low-s signature verifies, and the PSBT is the one given with these signatures and sighash fields |
| `SignsWhen.SignaturesIff` | crates/trinity-signer/src/local.rs:144-172 | the signatures are exactly those every input's entry makes, in order |
| `SignsWhen.PreflightIff` | crates/trinity-signer/src/sign.rs:115-146 | the structural checks pass exactly when there are inputs and each is ready and has an entry of the signer's fingerprint |
| `SignsWhen.EntryForIff` | crates/trinity-signer/src/sign.rs:100-113 | the entry used is the first with that fingerprint |
| `SignRefusals.LocalOrder` | crates/trinity-signer/src/local.rs:100-172 | every input is checked before the key is unlocked, every key derived before any signature is made, and the first fault gives the error |
| `SignRefusals.UnlockRefuses` | crates/trinity-signer/src/local.rs:114-141 | each way the master key fails to unlock has its own error: unwrapping, length, blob, slot, entropy, derivation, fingerprint |
| `SignRefusals.PreflightRefuses` | crates/trinity-signer/src/sign.rs:115-146 | which error: a sighash that is not ALL, then no spent output, no script, no entry |
| `SignRefusals.PreflightNames` | crates/trinity-signer/src/sign.rs:115-146 | the first input that is not ready gives the error |
| `SignRefusals.DeriveRefuses` | crates/trinity-signer/src/local.rs:153-165 | a path that does not derive, and a key that is not the entry's |
| `SignRefusals.ProduceRefuses` | crates/trinity-signer/src/sign.rs:164-183 | which error: no spent output, no script, no message; a signature that is high-s or does not verify is never released |
| `SignRefusals.KeyARefuses` | crates/trinity-signer/src/sign.rs:82-98 | which error of key A's check: no entry or no signature, one that is not ALL, no message, one that does not verify |
| `SignRefusals.KeyANames` | crates/trinity-signer/src/sign.rs:82-98 | the first input not signed by key A gives the error |
| `Signing.LocalSignKeepsOthers` | crates/trinity-signer/src/sign.rs:164-190 | every other signer's valid signatures are still there and valid |
| `Signing.UnlockMaster` | crates/trinity-signer/src/local.rs:114-141 | Ok exactly when the wrapped key unwraps to 32 bytes that open the blob, the blob is for the signer's own slot, and its entropy gives a master key with the declared fingerprint |
| `Signing.LocalSignAllAll` | crates/trinity-signer/src/local.rs:100-172 | every signature on an input of a locally signed PSBT is SIGHASH_ALL |
| `Signing.KeyAFrom` | crates/trinity-signer/src/sign.rs:82-98 | accepted exactly when every remaining input is validly signed by that key |
| `Signing.PreflightFrom` | crates/trinity-signer/src/sign.rs:115-146 | accepted exactly when every remaining input passes the structural checks |
| `Signing.Preflight` | crates/trinity-signer/src/sign.rs:115-146 | after it, every input has a derivation entry of the signer, so the later lookup cannot fail |
| `Psbts.InsertSig` | crates/trinity-signer/src/sign.rs:185-188 | map insertion: the key then has this signature, every other key keeps its own, and order is kept |
| `SigningSteps.CheckKeyASignatures` | crates/trinity-signer/src/sign.rs:82-98 | the early-return loop is the check of key A's signatures |
| `SigningSteps.PreflightInputs` | crates/trinity-signer/src/sign.rs:115-146 | the nested loops are the structural checks |
| `SigningSteps.DeriveKeys` | crates/trinity-signer/src/local.rs:153-165 | the loop derives one key per input, in order, and stops at the first mismatch |
| `SigningSteps.ProduceSignatures` | crates/trinity-signer/src/sign.rs:169-183 | every signature is made and self-verified before any is written |
| `SigningSteps.InsertSignatures` | crates/trinity-signer/src/sign.rs:185-188 | the writing loop puts each signature into its own input |
| `SigningSteps.SignMaster` | crates/trinity-signer/src/local.rs:144-172 | all signatures are made before any is written, so an error leaves the PSBT as it was |
| `SigningSteps.SignLocally` | crates/trinity-signer/src/local.rs:100-106 | the key is unwrapped, and the unwrap logged, only after the structural checks passed |
| `SigningSteps.SignWithFirst` | crates/trinity-signer/src/sign.rs:26-34 | `sign_a` with the events it causes |
| `SigningSteps.SignWithSecond` | crates/trinity-signer/src/sign.rs:42-55 | `sign_b` with the events it causes |
| `SigningSteps.SignBoth` | crates/trinity-signer/src/sign.rs:63-77 | `sign_ab` on the counter object: new state, result and event log are those of the run theorems |
| `Finalize.WitnessSatisfies` | crates/trinity-signer/src/finalize.rs:156-191 | the multisignature rule accepts the witness exactly when the two signatures taken verify under keys of the script in increasing positions; when no signature verifies under another key of the script, exactly when both verify under their own |
| `Finalize.WitnessOfFirstTwo` | crates/trinity-signer/src/finalize.rs:157-191 | the witness is the empty item, the signatures of the first two signed keys in BIP-67 order and the script, or the sighash error when one of those two is not SIGHASH_ALL |
| `Finalize.BadFirstSignature` | crates/trinity-signer/src/finalize.rs:157-181 | three signed keys of which the first has a bad signature: a witness is built and the rule rejects it, though the other two would satisfy the script |
| `Finalize.WitnessIff` | crates/trinity-signer/src/finalize.rs:157-191 | a witness is built exactly when at least two of the script's keys have signed and the first two of them with SIGHASH_ALL |
| `Finalize.FinalInputIff` | crates/trinity-signer/src/finalize.rs:55-86 | an input is finished exactly when it spends the known output its derivation path names, carries its script, and at least two of its keys have signed, the first two with SIGHASH_ALL |
| `Finalize.FinalInputMeaning` | crates/trinity-signer/src/finalize.rs:55-86 | a finished input spends a known P2WSH output of the wallet's own 2-of-3 script over ascending keys; its witness holds the signatures of the first two signed keys, and the script accepts it when these verify |
| `Finalize.FinalizedMeaning` | crates/trinity-signer/src/finalize.rs:33-107 | the finished transaction is the unsigned one with witnesses and final script signatures, each input satisfied when the two signatures taken verify, the fee positive and at most the rate cap times the final size |
| `Finalize.FinalizedIff` | crates/trinity-signer/src/finalize.rs:33-107 | `finalize` returns a given transaction exactly when there are as many inputs as the transaction has and at least one, both descriptors parse, every input is finished by a witness of the first two signed keys, the transaction is the unsigned one carrying these, and it passes the checks after the loop |
| `Finalize.FinishedIff` | crates/trinity-signer/src/finalize.rs:88-107 | these pass exactly when the input sum fits 64 bits, the consensus library accepts the transaction, it has a size, and the fee is positive and at most the rate cap times that size |
| `Finalize.FinishedByIff` | crates/trinity-signer/src/finalize.rs:55-86 | an input gets a given witness exactly when it spends the known output its path names and the witness is the empty item, the first two signatures and the script |
| `FinalRefusals.FinalizedOrder` | crates/trinity-signer/src/finalize.rs:33-86 | the first fault gives the error: no inputs, their number, either descriptor, an input, the transaction |
| `FinalRefusals.FinalInputRefuses` | crates/trinity-signer/src/finalize.rs:55-86 | the error of one input: no spent output, unknown, known otherwise, not derived, another script, no script, no witness |
| `FinalRefusals.FinalNames` | crates/trinity-signer/src/finalize.rs:53-86 | the first input not finished gives the error |
| `FinalRefusals.FinishedRefuses` | crates/trinity-signer/src/finalize.rs:88-107 | the sums, then consensus, then the rate with the numbers reported; a size of zero is the panic |
| `FinalRefusals.DerivedRefuses` | crates/trinity-signer/src/finalize.rs:109-154 | no entry, a path that ends in no branch and index, a change branch without a change descriptor |
| `FinalRefusals.WitnessRefuses` | crates/trinity-signer/src/finalize.rs:157-191 | with fewer than two signed keys the witness is incomplete, unless the one signed is not SIGHASH_ALL |
| `FinalRefusals.SigForIff` | crates/trinity-signer/src/finalize.rs:163-176 | the signature taken for a key is the first in map order under its bytes |
| `FinalRefusals.SpentOutputsAre` | crates/trinity-signer/src/finalize.rs:53-95 | the consensus library is given every spent outpoint with what the watch-only wallet knows of it |
| `Finalize.TwoSignersSuffice` | crates/trinity-signer/src/finalize.rs:157-191 | an input signed by two different keys of the script gets its witness exactly when the first two signed keys' signatures are SIGHASH_ALL |
| `AfterProtocol.ProtocolFinishes` | crates/trinity-signer/src/finalize.rs:53-86 | every input of a PSBT that `sign_ab` returned, whose output has both signers' keys, is finished by `finalize`, and the rule accepts it when of the script's keys only the two signers' compressed ones have entries in the signature map |
| `Finalize.BranchAndIndex` | crates/trinity-signer/src/finalize.rs:125-154 | succeeds exactly when the first path ends in branch 0 or 1 and an unhardened index, and returns those |
| `Multisig.MatchIsGreedy` | crates/trinity-signer/src/finalize.rs:1-7 | any order-preserving match makes the one-pass multisignature rule accept, so BIP-67 order suffices |
| `Multisig.GreedyIsMatch` | crates/trinity-signer/src/finalize.rs:1-7 | the one-pass rule accepts only through an order-preserving match |
| `Multisig.GreedyIffMatch` | crates/trinity-signer/src/finalize.rs:1-7 | both directions, for any signatures, keys and verification relation |
| `FinalizeLoops.PickSignatures` | crates/trinity-signer/src/finalize.rs:163-181 | the key loop that stops at two signatures takes the first two signed positions |
| `FinalizeLoops.WitnessForSorted` | crates/trinity-signer/src/finalize.rs:157-191 | the program's witness is the one the satisfaction theorem is about |
| `FinalizeLoops.FinalizeInput` | crates/trinity-signer/src/finalize.rs:55-86 | one input is finished or refused with the first error that applies |
| `FinalizeLoops.FinalizeInputs` | crates/trinity-signer/src/finalize.rs:53-86 | witnesses and spent outputs, filled side by side |
| `FinalizeLoops.FinalizePsbt` | crates/trinity-signer/src/finalize.rs:33-107 | the program's `finalize` is the function the theorems are about |
| `PolymodCode.BurstDetected` | crates/trinity-verify/src/checksum.rs:110-123 | any change confined to eight consecutive symbols changes the remainder |
| `PolymodCode.FoldLinear` | crates/trinity-verify/src/checksum.rs:110-123 | the remainder is linear over GF(2) in state and symbols |
| `PolymodCode.StepLinear` | crates/trinity-verify/src/checksum.rs:113-121 | one step is linear |
| `PolymodCode.StepInjective` | crates/trinity-verify/src/checksum.rs:113-121 | a zero symbol takes no non-zero 40-bit state to zero |
| `PolymodCode.EightSymbolsAreAState` | crates/trinity-verify/src/checksum.rs:110-123 | eight symbols from zero and 40-bit states are in bijection |
| `PolymodCode.AppendEight` | crates/trinity-verify/src/checksum.rs:70-83 | appending eight symbols adds exactly their state |
| `PolymodCode.BitIsShift` | crates/trinity-verify/src/checksum.rs:116-118 | the bit masks of the model are the program's shift-and-test on a five-bit top |
| `PolymodCode.Absorb` | crates/trinity-verify/src/checksum.rs:113-121 | the bit-testing inner loop is one step |
| `PolymodCode.Polymod` | crates/trinity-verify/src/checksum.rs:111-123 | the nested loops compute the remainder |
| `PolymodField.FoldTimes` | crates/trinity-verify/src/checksum.rs:17-24 | the remainder is linear over GF(32), the field of x^5 + x^3 + 1: multiplying state and symbols by a field element multiplies the remainder by it |
| `PolymodField.GeneratorsDouble` | crates/trinity-verify/src/checksum.rs:17-24 | each generator word is the one before multiplied by x in every symbol, so all five are one word times the powers of x |
| `PolymodField.NoZeroDivisors` | crates/trinity-verify/src/checksum.rs:17-24 | that multiplication has no zero divisors |
| `ChecksumVectors.DeadbeefVector` | crates/trinity-verify/src/checksum.rs:129-140 | the BIP-380 vector `raw(deadbeef)#89f8spxm` verifies, and is what creating the checksum gives |
| `ChecksumVectors.DeadVector` | crates/trinity-verify/src/checksum.rs:210-221 | so does `raw(dead)#j7p6x6xf`, of the remainder class without a last group |
| `ChecksumVectors.DeadbeVector` | crates/trinity-verify/src/checksum.rs:210-222 | so does `raw(deadbe)#vwtc7tfv`, of the class with a group of two |
| `Checksum.SingleByteDetected` | crates/trinity-verify/src/checksum.rs:31-63 | replacing any one byte of an accepted descriptor by any other is always rejected |
| `Checksum.PayloadBurstDetected` | crates/trinity-verify/src/checksum.rs:86-123 | so is any change inside four consecutive payload characters |
| `Checksum.SuffixChangeDetected` | crates/trinity-verify/src/checksum.rs:49-60 | so is any other checksum for the same payload |
| `Checksum.ChecksumUnique` | crates/trinity-verify/src/checksum.rs:49-83 | among all eight-character checksums exactly the created one has remainder 1 |
| `Checksum.VerifiedIffCreated` | crates/trinity-verify/src/checksum.rs:31-83 | for every non-empty payload in the charset exactly one checksum verifies: the created one (BIP-380, "Checksum" section) |
| `Checksum.ExpandedInjective` | crates/trinity-verify/src/checksum.rs:86-108 | different payloads of equal length expand to different symbols |
| `Checksum.ExpandedBurst` | crates/trinity-verify/src/checksum.rs:86-108 | four consecutive characters reach at most eight consecutive symbols |
| `Checksum.Expand` | crates/trinity-verify/src/checksum.rs:86-108 | the loop with its group buffer computes the expansion, or rejects exactly a character outside the charset |
| `Checksum.PushValue` | crates/trinity-verify/src/checksum.rs:94-99 | one character keeps the buffer and the symbols a prefix of the expansion |
| `Checksum.VerifyChecksum` | crates/trinity-verify/src/checksum.rs:31-63 | the program's check is the one the theorems are about |
| `ParseRefusals.VerifiedRefuses` | crates/trinity-verify/src/checksum.rs:31-63 | which error: a character that is none of a checksum, a payload outside the charset, else a checksum that is not the payload's own |
| `ParseRefusals.ChecksumMissing` | crates/trinity-verify/src/checksum.rs:31-45 | missing exactly when the text is not a non-empty payload, a hash and eight characters |
| `Checksum.CreateChecksum` | crates/trinity-verify/src/checksum.rs:70-83 | appends the unique checksum |
| `Descriptor.ParsedIff` | crates/trinity-verify/src/parse.rs:25-174 | a string parses to a value exactly when the value is well-formed and the string is its rendering with the right checksum, up to the hex case of fingerprints |
| `Descriptor.DescriptorRoundTrip` | crates/trinity-verify/src/parse.rs:25-80 | rendering a well-formed value with its checksum parses back to it |
| `Descriptor.RenderAfterParse` | crates/trinity-verify/src/parse.rs:34-79 | every accepted body is the rendering of its fields |
| `Descriptor.ParseAfterRender` | crates/trinity-verify/src/parse.rs:34-79 | every rendering of a well-formed value is accepted and gives it back |
| `Descriptor.KeyExprIff` | crates/trinity-verify/src/parse.rs:88-174 | a key expression is read exactly from its text followed by a comma, a parenthesis or the end |
| `Descriptor.FromHexIff` | crates/trinity-types/src/fingerprint.rs:35-58 | reading hex gives a fingerprint exactly when the text is its lower-case form up to case |
| `Descriptor.CanonicalHexFits` | crates/trinity-types/src/fingerprint.rs:49-58 | the lower-case hex of the fingerprints is one of the renderings the round trip covers |
| `ParseRefusals.HeadRefuses` | crates/trinity-verify/src/parse.rs:34-48 | which error before the keys: not `wsh(`, not `sortedmulti(`, no comma, a threshold that is not 2, named |
| `ParseRefusals.KeysRefuse` | crates/trinity-verify/src/parse.rs:50-58 | the first key expression at fault gives the error; a missing comma is the end of input or garbage |
| `ParseRefusals.CloseRefuses` | crates/trinity-verify/src/parse.rs:59-79 | after the third key: more keys are counted, an early end, anything else but `))` |
| `ParseRefusals.ExtraKeysCount` | crates/trinity-verify/src/parse.rs:60-65 | the count reported is the number of key expressions there are |
| `ParseRefusals.KeyExprOrder` | crates/trinity-verify/src/parse.rs:88-146 | fingerprint, origin and extended key are read in this order, and the first at fault gives the error |
| `ParseRefusals.FingerprintRefuses` | crates/trinity-verify/src/parse.rs:88-107 | no bracket, not eight hexadecimal digits, no origin behind them |
| `ParseRefusals.OriginTokenRefuses` | crates/trinity-verify/src/parse.rs:108-118 | an origin that is not closed, an empty one, or the path's own error |
| `ParseRefusals.XpubTokenRefuses` | crates/trinity-verify/src/parse.rs:119-146 | the token is split first and the extended key checked after |
| `ParseRefusals.TokenRefuses` | crates/trinity-verify/src/parse.rs:151-174 | too short, nothing but a branch, another ending, told apart as multipath when it looks like one |
| `ParseRefusals.XpubRefuses` | crates/trinity-verify/src/parse.rs:119-146 | accepted exactly with prefix xpub or tpub, no multipath character, and decodable; private keys are named as such |
| `OriginPath.ValidatedIffBip48` | crates/trinity-verify/src/parse.rs:176-238 | accepted origins are exactly the written forms of the BIP-48 P2WSH accounts |
| `OriginPath.ValidateOriginPath` | crates/trinity-verify/src/parse.rs:182-238 | the loop filling the index array accepts exactly those |
| `OriginPath.ParseSegment` | crates/trinity-verify/src/parse.rs:199-226 | one hardened segment without leading zeros below 2^31, or nothing |
| `OriginPath.ValidatedIsContained` | crates/trinity-verify/src/parse.rs:108-118 | an accepted origin never holds a character that would end it |
| `ParseRefusals.OriginRefuses` | crates/trinity-verify/src/parse.rs:182-238 | multipath characters first; fewer than four segments or a bad one is malformed, more than four or other indices invalid |
| `ParseRefusals.SegmentIff` | crates/trinity-verify/src/parse.rs:199-226 | a segment is an index exactly when it is a number below 2^31 without a leading zero and a hardened mark |
| `DescriptorParser.Cursor.constructor` | crates/trinity-verify/src/parse.rs:247-249 | starts at the beginning |
| `DescriptorParser.Cursor.Advance` | crates/trinity-verify/src/parse.rs:263-265 | drops that many characters of the rest |
| `DescriptorParser.Cursor.ExpectChar` | crates/trinity-verify/src/parse.rs:267-277 | moves past the character, or stays and says whether input ended |
| `DescriptorParser.Cursor.TakeWhile` | crates/trinity-verify/src/parse.rs:279-301 | takes the longest run without a stopping character |
| `DescriptorParser.ParseKeyExpr` | crates/trinity-verify/src/parse.rs:88-146 | the cursor version reads exactly what the grammar function reads and leaves the same rest |
| `DescriptorParser.CountExtraKeys` | crates/trinity-verify/src/parse.rs:60-65 | counts the key expressions beyond the third |
| `DescriptorParser.RFindHash` | crates/trinity-verify/src/parse.rs:29-31 | the last hash character |
| `DescriptorParser.HashBeforeChecksum` | crates/trinity-verify/src/parse.rs:27-32 | in an accepted descriptor the last hash is the one nine from the end |
| `DescriptorParser.ParseBody` | crates/trinity-verify/src/parse.rs:34-79 | accepts exactly the renderings of well-formed values, with the first error otherwise |
| `DescriptorParser.Parse` | crates/trinity-verify/src/parse.rs:25-80 | the program's `parse` is the function the theorems are about |
| `Entropy.CanonicalBytesInjective` | crates/trinity-entropy/src/sources.rs:320-349 | different combinations of sources, including sensor blobs that hold the separator, encode differently |
| `Entropy.SlotsReadBack` | crates/trinity-entropy/src/sources.rs:332-349 | four slots can be read back from their encoding |
| `Entropy.CardsRoundTrip` | crates/trinity-entropy/src/sources.rs:375-418 | text parses to a hand exactly when the hand is non-empty, without repetition, and printed as that text |
| `Entropy.BuildersKeepValid` | crates/trinity-entropy/src/sources.rs:241-269 | every builder leaves a combination the injectivity theorem covers |
| `Entropy.ParseCards` | crates/trinity-entropy/src/sources.rs:375-409 | the index loop with its 64-bit mask accepts exactly hands without repetition |
| `Entropy.ParseCard` | crates/trinity-entropy/src/sources.rs:384-396 | one card and the characters it takes |
| `Entropy.EncodeCards` | crates/trinity-entropy/src/sources.rs:411-418 | prints the text that parses back to the hand |
| `Entropy.EncodeSlots` | crates/trinity-entropy/src/sources.rs:336-349 | drops trailing empty slots and keeps inner separators |
| `Entropy.DeckIndexInjective` | crates/trinity-entropy/src/sources.rs:194-196 | every card has its own bit |
| `Entropy.FirstBadIsFirst` | crates/trinity-entropy/src/sources.rs:351-373 | the byte reported is the first bad one |
| `EntropyForm.CanonicalForm` | crates/trinity-entropy/src/sources.rs:320-349 | dice, coins, cards and sensor in this order with byte 30 between them, up to the last that is not empty |
| `EntropyForm.CardsRefuse` | crates/trinity-entropy/src/sources.rs:375-409 | the first fault behind a hand without repetition: a byte that starts no rank, a rank with nothing behind it, a byte that is no suit, a card already dealt |
| `EntropyForm.Notation` | crates/trinity-entropy/src/sources.rs:86-192 | the letters of ranks and suits |
| `EntropyForm.DiceRefuse` | crates/trinity-entropy/src/sources.rs:242-246 | nothing typed, the first bad character with its place, else that text and nothing else is taken over |
| `EntropyForm.CoinsRefuse` | crates/trinity-entropy/src/sources.rs:248-252 | the same for coins |
| `ChainScan.TwoPassFixpoint` | crates/trinity-chain/src/core_rpc.rs:233-254 | two passes over a batch in any order record, once each, exactly the transactions paying a watched script or spending an initially known outpoint or a watched output of any listed one |
| `ChainScan.ScanFixpoint` | crates/trinity-chain/src/core_rpc.rs:194-296 | over all blocks and the mempool the recorded set is exactly those relevant to what was known by the end of their batch |
| `ChainScan.PassSkipsSeen` | crates/trinity-chain/src/core_rpc.rs:263-270 | leaving seen transactions out of the mempool batch changes nothing |
| `ChainScan.LearnOutputs` | crates/trinity-chain/src/core_rpc.rs:242-249 | learns exactly the watched outputs of a transaction |
| `ChainScan.ScanBatch` | crates/trinity-chain/src/core_rpc.rs:235-254 | the nested loops are the two passes |
| `ChainScan.ScanSpks` | crates/trinity-chain/src/core_rpc.rs:194-296 | the whole scan as it runs |
| `StopGap.WalkLength` | crates/trinity-chain/src/core_rpc.rs:322-353 | the walk looks at no more than last active index plus twice the gap scripts |
| `StopGap.FoundIff` | crates/trinity-chain/src/core_rpc.rs:322-353 | an active index is reached exactly when every earlier batch holds an active one |
| `StopGap.DenseAllFound` | crates/trinity-chain/src/core_rpc.rs:322-353 | if no two successive active indices are more than the gap apart and the first is below it, all are found |
| `StopGap.CollectSpks` | crates/trinity-chain/src/core_rpc.rs:322-353 | the batch loop ends at the first batch without activity and reports the last active index |
| `StopGap.WalkBatch` | crates/trinity-chain/src/core_rpc.rs:338-346 | the inner loop keeps the last active index and the count since |
| `PlanCheck.CycleListEmptyIffAcyclic` | scripts/check_plan.py:372-399 | for any order of packages the list stays empty exactly when the graph restricted to known packages is acyclic, the search then ends normally, and the first list recorded is a genuine closed path |
| `PlanCheck.RaisesAfterRecording` | scripts/check_plan.py:377-391 | on A to B and C, B to C, C to C an outer frame looks up a package already taken off the path: the search raises after recording |
| `PlanRaises.RecordedLoop` | scripts/check_plan.py:377-391 | once a cycle is recorded, the loop over a dependency list goes by the first package in progress in it: none, and nothing happens; one, and it raises exactly when that package has left the path |
| `PlanRaises.RaisesIff` | scripts/check_plan.py:372-399 | the whole search raises exactly when, on the trail from the first package of the order that leads to a cycle, each time on to its first dependency that does, some frame further out still lists, first of those in progress, a package that the unwinding has taken off the path; graph and order decide it, not the search |
| `PlanCheck.CycleFinder.constructor` | scripts/check_plan.py:373-375 | all packages white, empty path and list |
| `PlanCheck.CycleFinder.Dfs` | scripts/check_plan.py:377-391 | the recursive search with its shared colours, path and list is the visit the theorem is about |
| `PlanCheck.CycleFinder.Check` | scripts/check_plan.py:393-395 | after the outer loop the list is empty exactly when the graph is acyclic |

## Left out

- XChaCha20-Poly1305, HMAC, ECDSA, secp256k1, base58 and `bitcoinconsensus`: library code, taken as parameters.
- Replay of an older sealed counter: the program leaves it to the application, so runs always reopen the latest blob.
- Two approvals interleaved by hand: `sign_ab` holds the counter throughout, so authorize, sign and commit are one step.
- How the balance figure the allowance is taken of is computed from a wallet balance, and the refusal of slot C by
  `LocalSigner::new`.
- Zeroisation of key buffers, `Debug` redaction, `Display` text and serde forms.
- The text carried inside some verifier errors (`detail`), which only words the message.
- `verify_psbt`: base64 decoding in front of the same check.
- StopGap.CollectSpks: the script sequence is unbounded; an iterator that runs out, and several keychains, are not modelled.
- ChainScan.ScanSpks: the blocks a filter iterator delivers and the node's mempool are inputs; anchors and seen-at times are not kept.
- PlanCheck.CycleFinder.Check: the dependency lists scraped by regular expressions and the order `sorted` gives are inputs.
- Electrum, compact-filter, split and memory backends and their privacy tables.
- The watch-only wallet and descriptor building, thin layers over libraries.
- The keystore blob, the platform trait and its fake: the same framing as the counter's with less structure.
- Entropy sources' random generator, the BIP-39 words and the countable-bits estimate.
- `coverage_gate.py`, `dep_budget.py` and the document checks of `check_plan.py`.
- Vendored tooling, and the crates that are empty scaffolds.
