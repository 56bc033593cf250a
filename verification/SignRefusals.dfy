/** Which error answers which fault of a signing call: the first fault in the protocol's order, and the
    first input that has it. */
module SignRefusals {
  import opened Machine
  import opened Errors
  import opened Bitcoin
  import opened Bip67
  import opened Limits
  import opened InputSets
  import opened StateCodec
  import opened Window
  import opened Descriptor
  import opened Derive
  import opened Psbts
  import opened Verify
  import opened Signing
  import opened SignAb
  import opened SignsWhen
  import SpendCharge

  // --- The window ----------------------------------------------------------

  /** The passphrase is asked for first, then the charge, then the inputs, then the allowance, and room for
      the row last. */
  lemma DecisionRefuses(s: CoreState, policy: SpendPolicy, reference: u64,
                        charge: Result<u64, SignError>, inputs: Result<InputSet, SignError>)
    ensures var r := Decision(s, policy, reference, charge, inputs);
            && (!s.passphraseUsedSinceInstall ==> r == Err(SpendLimitExceeded))
            && (s.passphraseUsedSinceInstall && charge.Err? ==> r == Err(charge.error))
            && (s.passphraseUsedSinceInstall && charge.Ok? && inputs.Err? ==> r == Err(inputs.error))
            && (s.passphraseUsedSinceInstall && charge.Ok? && inputs.Ok? ==>
                  var extra := ExtraAgainst(s.bookings, inputs.value, charge.value);
                  var fits := extra == 0 || Total(s.bookings) + extra <= Allowance(policy, reference);
                  var room := |s.bookings| < 256
                              || exists i :: 0 <= i < |s.bookings| && SameInputs(s.bookings[i].inputs, inputs.value);
                  && (r == Err(SpendLimitExceeded) <==> !fits)
                  && (r == Err(WindowLedgerFull) <==> fits && !room)
                  && (r == Ok(SpendApproval(inputs.value, charge.value)) <==> fits && room))
  {
    hide Total, BookedSat, Allowance, ExtraAgainst, SameInputs;
    BookedIsTotal(s.bookings);
  }

  // --- Before unlocking ----------------------------------------------------

  /** An input refused before the key is unlocked: a sighash that is not `ALL` first, then the spent
      output, then the script, then the derivation entry. */
  lemma PreflightRefuses(input: Input, fingerprint: Fingerprint, i: nat)
    ensures var r := PreflightInput(input, fingerprint, i);
            var all := input.sighashType in {None, Some(1)}
                       && forall n :: 0 <= n < |input.partialSigs| ==> input.partialSigs[n].sig.sighashType == All;
            && (r == Err(SighashNotAll(i)) <==> !all)
            && (r == Err(NoWitnessUtxo(i)) <==> all && input.witnessUtxo.None?)
            && (r == Err(NoWitnessScript(i)) <==> all && input.witnessUtxo.Some? && input.witnessScript.None?)
            && (r == Err(MissingDerivation(i)) <==> Ready(input) && !HasEntry(input.derivation, fingerprint))
  {
    hide EntryFor, HasEntry;
    PreflightInputIff(input, fingerprint, i);
  }

  lemma {:induction false} PreflightNames(psbt: Psbt, fingerprint: Fingerprint, i: nat, k: nat)
    requires i <= k < |psbt.inputs| && PreflightInput(psbt.inputs[k], fingerprint, k).Err?
    requires forall j :: i <= j < k ==> PreflightInput(psbt.inputs[j], fingerprint, j).Ok?
    ensures PreflightFrom(psbt, fingerprint, i) == PreflightInput(psbt.inputs[k], fingerprint, k)
    decreases k - i
  {
    hide PreflightInput;
    if i < k {
      PreflightNames(psbt, fingerprint, i + 1, k);
    }
  }

  // --- Unlocking -----------------------------------------------------------

  /** Each way the master key fails to unlock has its own error. */
  lemma UnlockRefuses(k: KeyHost, signer: LocalSigner)
    ensures var r, kek := UnlockMaster(k, signer), k.unwrapKek(signer.slot, signer.wrappedKek);
            && (r == Err(Platform) <==> kek.None?)
            && (r == Err(InvalidKekLength) <==> kek.Some? && |kek.value| != 32)
            && (kek.Some? && |kek.value| == 32 ==>
                  var inside := k.openBlob(kek.value, signer.blob);
                  && (r == Err(Blob) <==> inside.None?)
                  && (r == Err(InvalidSlot) <==> inside.Some? && inside.value.0 != signer.slot)
                  && (inside.Some? && inside.value.0 == signer.slot ==>
                        var seed := k.seedOf(inside.value.1);
                        && (r == Err(SignError.Entropy) <==> seed.None?)
                        && (r == Err(Bip32) <==> seed.Some? && k.masterOf(seed.value).None?)
                        && (r == Err(FingerprintMismatch) <==>
                              && seed.Some? && k.masterOf(seed.value).Some?
                              && k.fingerprintOf(k.masterOf(seed.value).value) != signer.fingerprint)))
  {
  }

  // --- Signing -------------------------------------------------------------

  /** A key that does not derive, and one that is not the entry's. */
  lemma DeriveRefuses(k: KeyHost, psbt: Psbt, master: Bytes, fingerprint: Fingerprint, i: nat)
    requires HasEntries(psbt, fingerprint) && i < |psbt.inputs|
    ensures var e := EntryFor(psbt.inputs[i].derivation, fingerprint).value;
            var r, secret := DeriveInput(k, psbt, master, fingerprint, i), k.derivePriv(master, e.path);
            && (r == Err(Bip32) <==> secret.None?)
            && (r == Err(PubkeyMismatch(i)) <==> secret.Some? && k.publicOf(secret.value) != e.key)
  {
    hide EntryFor;
  }

  /** A signature that is not low-s or does not verify is never released. */
  lemma ProduceRefuses(h: Host, k: KeyHost, psbt: Psbt, d: DerivedKey)
    requires d.index < |psbt.inputs|
    ensures var r, input := Produce(h, k, psbt, d), psbt.inputs[d.index];
            && (r == Err(NoWitnessUtxo(d.index)) <==> input.witnessUtxo.None?)
            && (r == Err(NoWitnessScript(d.index)) <==> input.witnessUtxo.Some? && input.witnessScript.None?)
            && (input.witnessUtxo.Some? && input.witnessScript.Some? ==>
                  var m := h.p2wshSighash(psbt.tx, d.index, input.witnessScript.value, input.witnessUtxo.value.value);
                  && (r == Err(Sighash(d.index)) <==> m.None?)
                  && (m.Some? ==>
                        var sig := k.signLowR(m.value, d.secret);
                        r == Err(SelfVerificationFailed)
                        <==> h.normalizeS(sig) != sig || !h.verifyEcdsa(m.value, sig, d.key)))
  {
  }

  lemma {:induction false} DeriveNames(k: KeyHost, psbt: Psbt, master: Bytes, fingerprint: Fingerprint, i: nat, n: nat)
    requires HasEntries(psbt, fingerprint) && i <= n < |psbt.inputs|
    requires DeriveInput(k, psbt, master, fingerprint, n).Err?
    requires forall j :: i <= j < n ==> DeriveInput(k, psbt, master, fingerprint, j).Ok?
    ensures DeriveFrom(k, psbt, master, fingerprint, i) == Err(DeriveInput(k, psbt, master, fingerprint, n).error)
    decreases n - i
  {
    hide DeriveInput, HasEntries;
    if i < n {
      DeriveNames(k, psbt, master, fingerprint, i + 1, n);
    }
  }

  lemma {:induction false} ProduceNames(h: Host, k: KeyHost, psbt: Psbt, derived: seq<DerivedKey>, j: nat, n: nat)
    requires Indexed(psbt, derived) && j <= n < |derived| && Produce(h, k, psbt, derived[n]).Err?
    requires forall m :: j <= m < n ==> Produce(h, k, psbt, derived[m]).Ok?
    ensures ProduceFrom(h, k, psbt, derived, j) == Err(Produce(h, k, psbt, derived[n]).error)
    decreases n - j
  {
    hide Produce;
    if j < n {
      ProduceNames(h, k, psbt, derived, j + 1, n);
    }
  }

  /** A local signer checks every input before it unlocks, and derives every key before it signs. */
  lemma {:induction false} LocalOrder(h: Host, k: KeyHost, signer: LocalSigner, psbt: Psbt)
    ensures var r, before, master := LocalSign(h, k, signer, psbt), Preflight(psbt, signer.fingerprint),
                                     UnlockMaster(k, signer);
            && (psbt.inputs == [] ==> r == Err(EmptyPsbt))
            && (psbt.inputs != [] && before.Err? ==>
                  r == Err(before.error) && before == PreflightFrom(psbt, signer.fingerprint, 0))
            && (before.Ok? && master.Err? ==> r == Err(master.error))
            && (before.Ok? && master.Ok? ==>
                  var derived := DeriveFrom(k, psbt, master.value, signer.fingerprint, 0);
                  && (derived.Err? ==> r == Err(derived.error))
                  && (derived.Ok? ==>
                        && Indexed(psbt, derived.value)
                        && var produced := ProduceFrom(h, k, psbt, derived.value, 0);
                           produced.Err? ==> r == Err(produced.error)))
  {
    hide PreflightFrom, UnlockMaster, DeriveFrom, ProduceFrom, EntryFor;
    if Preflight(psbt, signer.fingerprint).Ok? && UnlockMaster(k, signer).Ok?
       && DeriveFrom(k, psbt, UnlockMaster(k, signer).value, signer.fingerprint, 0).Ok? {
      DerivedKeys(k, psbt, UnlockMaster(k, signer).value, signer.fingerprint);
    }
  }

  // --- Key A ---------------------------------------------------------------

  /** No entry or no signature of key A, one that is not `ALL`, and one that does not verify. */
  lemma KeyARefuses(h: Host, tx: Transaction, i: nat, input: Input, fingerprint: Fingerprint)
    ensures var r, e := KeyAInput(h, tx, i, input, fingerprint), EntryFor(input.derivation, fingerprint);
            && (e.None? ==> r == Err(UnexpectedKeyASignature))
            && (e.Some? ==>
                  var sig := Lookup(input.partialSigs, PublicKey(true, e.value.key));
                  && (r == Err(UnexpectedKeyASignature) <==> sig.None?)
                  && (r == Err(SighashNotAll(i)) <==> sig.Some? && sig.value.sighashType != All)
                  && (sig.Some? && sig.value.sighashType == All ==>
                        var m := Message(h, tx, i, input);
                        && (m.Err? ==> r == Err(m.error))
                        && (r == Err(SelfVerificationFailed) <==>
                              m.Ok? && !h.verifyEcdsa(m.value, sig.value.ecdsa, e.value.key))))
  {
    hide EntryFor, Lookup;
  }

  lemma {:induction false} KeyANames(h: Host, psbt: Psbt, fingerprint: Fingerprint, i: nat, k: nat)
    requires i <= k < |psbt.inputs| && !SignedBy(h, psbt.tx, k, psbt.inputs[k], fingerprint)
    requires forall j :: i <= j < k ==> SignedBy(h, psbt.tx, j, psbt.inputs[j], fingerprint)
    ensures KeyAInput(h, psbt.tx, k, psbt.inputs[k], fingerprint).Err?
    ensures KeyAFrom(h, psbt, fingerprint, i) == KeyAInput(h, psbt.tx, k, psbt.inputs[k], fingerprint)
    decreases k - i
  {
    hide SignedBy, KeyAInput;
    if i < k {
      KeyANames(h, psbt, fingerprint, i + 1, k);
    }
  }

  // --- The protocol --------------------------------------------------------

  /** A refused call reports the first fault of: the policy (before the clock moves), the window, the
      verifier, the first signer, the verifier on what it returned, the transaction id, key A's
      signatures, the second signer; and books nothing. */
  lemma ProtocolRefuses(h: Host, k: KeyHost, s: CoreState, mono: Duration, call: Call)
    ensures var (s', o) := Protocol(h, k, s, mono, call);
            var (moved, approval) := Approval(h, s, mono, call);
            var verdict, first := Verdict(h, call.psbt, call.descriptor, call.verify), call.first(call.psbt);
            && (o.result.Err? ==> s' == moved)
            && (Validate(call.spend).Err? ==> s' == s && o.result == Err(Validate(call.spend).error))
            && (approval.Err? ==> o.result == Err(approval.error) && o.events == [])
            && (approval.Ok? && verdict.Err? ==> o.result == Err(SignError.Verify(verdict.error)))
            && (approval.Ok? && verdict.Ok? && first.Err? ==> o.result == Err(first.error))
            && (approval.Ok? && verdict.Ok? && first.Ok? ==>
                  var again := Verdict(h, first.value, call.descriptor, call.verify);
                  var same := h.txid(first.value.tx) == h.txid(call.psbt.tx);
                  var keyA := KeyAChecked(h, first.value, call.descriptor);
                  && (again.Err? ==> o.result == Err(SignError.Verify(again.error)))
                  && (again.Ok? && !same ==> o.result == Err(UnsignedTxChanged))
                  && (again.Ok? && same && keyA.Err? ==> o.result == Err(keyA.error))
                  && (again.Ok? && same && keyA.Ok? ==> o.result == LocalSign(h, k, call.second, first.value)))
  {
    hide Verdict, KeyAChecked, LocalSign, Validate, Decision, Advanced, Pruned, Window.Committed, SpendCharge.Charge,
         SpendCharge.InputSetOf, Preflight;
  }
}
