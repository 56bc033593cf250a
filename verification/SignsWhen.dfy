/** When signing succeeds and what it then returns, both ways: one local signer, and the whole
    two-key protocol. */
module SignsWhen {
  import opened Machine
  import opened Errors
  import opened Bitcoin
  import opened Bip67
  import opened Limits
  import opened StateCodec
  import opened Window
  import opened Descriptor
  import opened Derive
  import opened Psbts
  import opened Verify
  import opened Signing
  import opened SignAb
  import SpendCharge

  // --- One input -----------------------------------------------------------

  /** The first derivation entry with this fingerprint. */
  ghost predicate FirstEntry(derivation: seq<KeyOrigin>, fingerprint: Fingerprint, e: KeyOrigin) {
    exists n: nat :: EntryAt(derivation, fingerprint, e, n)
  }

  ghost predicate HasEntry(derivation: seq<KeyOrigin>, fingerprint: Fingerprint) {
    exists e :: FirstEntry(derivation, fingerprint, e)
  }

  predicate EntryAt(derivation: seq<KeyOrigin>, fingerprint: Fingerprint, e: KeyOrigin, n: nat) {
    && n < |derivation| && derivation[n] == e && e.fingerprint == fingerprint
    && forall j :: 0 <= j < n ==> derivation[j].fingerprint != fingerprint
  }

  lemma {:induction false} EntryForIff(derivation: seq<KeyOrigin>, fingerprint: Fingerprint, e: KeyOrigin)
    ensures EntryFor(derivation, fingerprint) == Some(e) <==> FirstEntry(derivation, fingerprint, e)
  {
    if derivation != [] {
      EntryForIff(derivation[1..], fingerprint, e);
      if n: nat :| EntryAt(derivation, fingerprint, e, n) {
        if n > 0 {
          assert EntryAt(derivation[1..], fingerprint, e, n - 1);
        }
      }
      if n: nat :| EntryAt(derivation[1..], fingerprint, e, n) {
        if derivation[0].fingerprint != fingerprint {
          var next := n + 1;
          assert EntryAt(derivation, fingerprint, e, next);
        }
      }
      if derivation[0].fingerprint == fingerprint && e == derivation[0] {
        assert EntryAt(derivation, fingerprint, e, 0);
      }
    }
  }

  /** Asks for nothing but `SIGHASH_ALL`, and carries what a P2WSH signature needs. */
  predicate Ready(input: Input) {
    && (input.sighashType == None || input.sighashType == Some(1))
    && (forall n :: 0 <= n < |input.partialSigs| ==> input.partialSigs[n].sig.sighashType == All)
    && input.witnessUtxo.Some? && input.witnessScript.Some?
  }

  /** The key derived along the entry's path is the entry's own, and its signature of the message
      to sign is low-s and verifies under it. */
  ghost predicate Signs(h: Host, k: KeyHost, tx: Transaction, i: nat, input: Input, master: Bytes, e: KeyOrigin,
                        ecdsa: Bytes)
  {
    exists secret, m: Hash256 :: SignsWith(h, k, tx, i, input, master, e, ecdsa, secret, m)
  }

  predicate SignsWith(h: Host, k: KeyHost, tx: Transaction, i: nat, input: Input, master: Bytes, e: KeyOrigin,
                      ecdsa: Bytes, secret: Bytes, m: Hash256)
  {
    && k.derivePriv(master, e.path) == Some(secret) && k.publicOf(secret) == e.key
    && input.witnessUtxo.Some? && input.witnessScript.Some?
    && h.p2wshSighash(tx, i, input.witnessScript.value, input.witnessUtxo.value.value) == Some(m)
    && ecdsa == k.signLowR(m, secret) && h.normalizeS(ecdsa) == ecdsa && h.verifyEcdsa(m, ecdsa, e.key)
  }

  /** The input with that signature in its map and `SIGHASH_ALL` in its field. */
  ghost predicate SignedInput(h: Host, k: KeyHost, tx: Transaction, i: nat, input: Input, input': Input, master: Bytes,
                              fingerprint: Fingerprint)
  {
    exists e, ecdsa :: SignedAs(h, k, tx, i, input, input', master, fingerprint, e, ecdsa)
  }

  ghost predicate SignedAs(h: Host, k: KeyHost, tx: Transaction, i: nat, input: Input, input': Input, master: Bytes,
                           fingerprint: Fingerprint, e: KeyOrigin, ecdsa: Bytes)
  {
    && FirstEntry(input.derivation, fingerprint, e) && Signs(h, k, tx, i, input, master, e, ecdsa)
    && input' == input.(partialSigs := InsertSig(input.partialSigs, PublicKey(true, e.key), Signature(ecdsa, All)),
                        sighashType := Some(1))
  }

  lemma PreflightInputIff(input: Input, fingerprint: Fingerprint, i: nat)
    ensures PreflightInput(input, fingerprint, i).Ok? <==> Ready(input) && HasEntry(input.derivation, fingerprint)
  {
    hide EntryFor, FirstEntry;
    if e :| FirstEntry(input.derivation, fingerprint, e) {
      EntryForIff(input.derivation, fingerprint, e);
    }
    if EntryFor(input.derivation, fingerprint).Some? {
      EntryForIff(input.derivation, fingerprint, EntryFor(input.derivation, fingerprint).value);
    }
  }

  /** One key derived and one signature made, exactly when the entry signs. */
  lemma ProducesIff(h: Host, k: KeyHost, psbt: Psbt, master: Bytes, fingerprint: Fingerprint, i: nat, ecdsa: Bytes)
    requires HasEntries(psbt, fingerprint) && i < |psbt.inputs|
    ensures var e := EntryFor(psbt.inputs[i].derivation, fingerprint).value;
            (exists d :: DeriveInput(k, psbt, master, fingerprint, i) == Ok(d) && d.index == i
                         && Produce(h, k, psbt, d) == Ok(Produced(i, e.key, ecdsa)))
            <==> Signs(h, k, psbt.tx, i, psbt.inputs[i], master, e, ecdsa)
  {
    hide EntryFor;
    var input, e := psbt.inputs[i], EntryFor(psbt.inputs[i].derivation, fingerprint).value;
    if d :| DeriveInput(k, psbt, master, fingerprint, i) == Ok(d) && d.index == i
            && Produce(h, k, psbt, d) == Ok(Produced(i, e.key, ecdsa)) {
      assert SignsWith(h, k, psbt.tx, i, input, master, e, ecdsa, d.secret, Message(h, psbt.tx, i, input).value);
    }
    if secret, m: Hash256 :| SignsWith(h, k, psbt.tx, i, input, master, e, ecdsa, secret, m) {
      var d := DerivedKey(i, e.key, secret);
      assert DeriveInput(k, psbt, master, fingerprint, i) == Ok(d)
          && Produce(h, k, psbt, d) == Ok(Produced(i, e.key, ecdsa));
    }
  }

  // --- All inputs ----------------------------------------------------------

  lemma {:induction false} DerivesAll(k: KeyHost, psbt: Psbt, master: Bytes, fingerprint: Fingerprint, i: nat)
    requires HasEntries(psbt, fingerprint) && i <= |psbt.inputs|
    requires forall j :: i <= j < |psbt.inputs| ==> DeriveInput(k, psbt, master, fingerprint, j).Ok?
    ensures DeriveFrom(k, psbt, master, fingerprint, i).Ok?
    decreases |psbt.inputs| - i
  {
    hide DeriveInput, HasEntries;
    if i < |psbt.inputs| {
      DerivesAll(k, psbt, master, fingerprint, i + 1);
    }
  }

  lemma {:induction false} ProducesAll(h: Host, k: KeyHost, psbt: Psbt, derived: seq<DerivedKey>, j: nat)
    requires Indexed(psbt, derived) && j <= |derived|
    requires forall n :: j <= n < |derived| ==> Produce(h, k, psbt, derived[n]).Ok?
    ensures ProduceFrom(h, k, psbt, derived, j).Ok?
    decreases |derived| - j
  {
    hide Produce;
    if j < |derived| {
      ProducesAll(h, k, psbt, derived, j + 1);
    }
  }

  ghost predicate Makes(h: Host, k: KeyHost, psbt: Psbt, master: Bytes, fingerprint: Fingerprint, i: nat, p: Produced)
    requires HasEntries(psbt, fingerprint) && i < |psbt.inputs|
  {
    var e := EntryFor(psbt.inputs[i].derivation, fingerprint).value;
    p == Produced(i, e.key, p.ecdsa) && Signs(h, k, psbt.tx, i, psbt.inputs[i], master, e, p.ecdsa)
  }

  lemma MakesIff(h: Host, k: KeyHost, psbt: Psbt, master: Bytes, fingerprint: Fingerprint, i: nat, p: Produced)
    requires HasEntries(psbt, fingerprint) && i < |psbt.inputs|
    ensures Makes(h, k, psbt, master, fingerprint, i, p)
            <==> var d := DeriveInput(k, psbt, master, fingerprint, i);
                 d.Ok? && d.value.index == i && Produce(h, k, psbt, d.value) == Ok(p)
  {
    hide EntryFor, Signs, Message;
    ProducesIff(h, k, psbt, master, fingerprint, i, p.ecdsa);
  }

  /** The signatures are the ones that every input's entry makes, and there are some exactly when
      every entry makes one. */
  lemma {:induction false} SignaturesIff(h: Host, k: KeyHost, psbt: Psbt, master: Bytes, fingerprint: Fingerprint,
                                         produced: seq<Produced>)
    requires HasEntries(psbt, fingerprint)
    ensures Signatures(h, k, psbt, master, fingerprint) == Ok(produced)
            <==> && |produced| == |psbt.inputs|
                 && forall i :: 0 <= i < |psbt.inputs| ==> Makes(h, k, psbt, master, fingerprint, i, produced[i])
  {
    if Signatures(h, k, psbt, master, fingerprint) == Ok(produced) {
      SignaturesMake(h, k, psbt, master, fingerprint);
    }
    hide Signatures;
    if |produced| == |psbt.inputs|
       && forall i :: 0 <= i < |psbt.inputs| ==> Makes(h, k, psbt, master, fingerprint, i, produced[i]) {
      MakingSigns(h, k, psbt, master, fingerprint, produced);
    }
  }

  lemma {:induction false} SignaturesMake(h: Host, k: KeyHost, psbt: Psbt, master: Bytes, fingerprint: Fingerprint)
    requires HasEntries(psbt, fingerprint) && Signatures(h, k, psbt, master, fingerprint).Ok?
    ensures var produced := Signatures(h, k, psbt, master, fingerprint).value;
            && |produced| == |psbt.inputs|
            && forall i :: 0 <= i < |psbt.inputs| ==> Makes(h, k, psbt, master, fingerprint, i, produced[i])
  {
    hide DeriveFrom, ProduceFrom, DeriveInput, Produce, Makes, HasEntries;
    var produced := Signatures(h, k, psbt, master, fingerprint).value;
    DerivedKeys(k, psbt, master, fingerprint);
    DerivedInOrder(k, psbt, master, fingerprint, 0);
    var derived := DeriveFrom(k, psbt, master, fingerprint, 0).value;
    ProducedSigs(h, k, psbt, derived);
    forall i | 0 <= i < |psbt.inputs| ensures Makes(h, k, psbt, master, fingerprint, i, produced[i]) {
      assert DeriveInput(k, psbt, master, fingerprint, 0 + i) == Ok(derived[i]);
      MakesIff(h, k, psbt, master, fingerprint, i, produced[i]);
    }
  }

  lemma {:induction false} MakingSigns(h: Host, k: KeyHost, psbt: Psbt, master: Bytes, fingerprint: Fingerprint,
                                       produced: seq<Produced>)
    requires HasEntries(psbt, fingerprint) && |produced| == |psbt.inputs|
    requires forall i :: 0 <= i < |psbt.inputs| ==> Makes(h, k, psbt, master, fingerprint, i, produced[i])
    ensures Signatures(h, k, psbt, master, fingerprint) == Ok(produced)
  {
    hide DeriveFrom, ProduceFrom, DeriveInput, Produce, Makes, HasEntries;
    forall i | 0 <= i < |psbt.inputs|
      ensures var d := DeriveInput(k, psbt, master, fingerprint, i);
              d.Ok? && d.value.index == i && Produce(h, k, psbt, d.value) == Ok(produced[i])
    {
      MakesIff(h, k, psbt, master, fingerprint, i, produced[i]);
    }
    DerivesAll(k, psbt, master, fingerprint, 0);
    DerivedKeys(k, psbt, master, fingerprint);
    DerivedInOrder(k, psbt, master, fingerprint, 0);
    var derived := DeriveFrom(k, psbt, master, fingerprint, 0).value;
    forall i | 0 <= i < |derived| ensures Produce(h, k, psbt, derived[i]) == Ok(produced[i]) {
      assert DeriveInput(k, psbt, master, fingerprint, 0 + i) == Ok(derived[i]);
    }
    ProducesAll(h, k, psbt, derived, 0);
    ProducedSigs(h, k, psbt, derived);
    assert ProduceFrom(h, k, psbt, derived, 0).value == produced;
  }

  // --- One signer ----------------------------------------------------------

  ghost predicate AllSignedInput(h: Host, k: KeyHost, psbt: Psbt, psbt': Psbt, master: Bytes,
      fingerprint: Fingerprint) {
    && psbt' == psbt.(inputs := psbt'.inputs) && |psbt'.inputs| == |psbt.inputs|
    && forall i :: 0 <= i < |psbt.inputs| ==>
         SignedInput(h, k, psbt.tx, i, psbt.inputs[i], psbt'.inputs[i], master, fingerprint)
  }

  ghost predicate AllReady(psbt: Psbt, fingerprint: Fingerprint) {
    forall i :: 0 <= i < |psbt.inputs| ==>
      Ready(psbt.inputs[i]) && HasEntry(psbt.inputs[i].derivation, fingerprint)
  }

  lemma PreflightIff(psbt: Psbt, fingerprint: Fingerprint)
    ensures Preflight(psbt, fingerprint).Ok? <==> psbt.inputs != [] && AllReady(psbt, fingerprint)
  {
    hide PreflightInput, Ready, HasEntry, EntryFor;
    forall i | 0 <= i < |psbt.inputs|
      ensures PreflightInput(psbt.inputs[i], fingerprint, i).Ok?
              <==> Ready(psbt.inputs[i]) && HasEntry(psbt.inputs[i].derivation, fingerprint)
    {
      PreflightInputIff(psbt.inputs[i], fingerprint, i);
    }
  }

  lemma MadeInput(h: Host, k: KeyHost, psbt: Psbt, master: Bytes, fingerprint: Fingerprint, i: nat, p: Produced)
    requires HasEntries(psbt, fingerprint) && i < |psbt.inputs| && Makes(h, k, psbt, master, fingerprint, i, p)
    ensures SignedInput(h, k, psbt.tx, i, psbt.inputs[i], WithSignature(psbt.inputs[i], p), master, fingerprint)
  {
    hide EntryFor, FirstEntry, Signs, InsertSig;
    var e := EntryFor(psbt.inputs[i].derivation, fingerprint).value;
    EntryForIff(psbt.inputs[i].derivation, fingerprint, e);
    assert SignedAs(h, k, psbt.tx, i, psbt.inputs[i], WithSignature(psbt.inputs[i], p), master, fingerprint, e,
        p.ecdsa);
  }

  lemma InputMade(h: Host, k: KeyHost, psbt: Psbt, master: Bytes, fingerprint: Fingerprint, i: nat, input': Input)
    returns (p: Produced)
    requires HasEntries(psbt, fingerprint) && i < |psbt.inputs|
    requires SignedInput(h, k, psbt.tx, i, psbt.inputs[i], input', master, fingerprint)
    ensures Makes(h, k, psbt, master, fingerprint, i, p) && input' == WithSignature(psbt.inputs[i], p)
  {
    hide EntryFor, FirstEntry, Signs, InsertSig;
    var input := psbt.inputs[i];
    var e, ecdsa :| SignedAs(h, k, psbt.tx, i, input, input', master, fingerprint, e, ecdsa);
    EntryForIff(input.derivation, fingerprint, e);
    p := Produced(i, e.key, ecdsa);
  }

  lemma SignWithMasterIff(h: Host, k: KeyHost, psbt: Psbt, master: Bytes, fingerprint: Fingerprint, psbt': Psbt)
    requires HasEntries(psbt, fingerprint)
    ensures SignWithMaster(h, k, psbt, master, fingerprint) == Ok(psbt')
            <==> AllSignedInput(h, k, psbt, psbt', master, fingerprint)
  {
    if SignWithMaster(h, k, psbt, master, fingerprint) == Ok(psbt') {
      MasterSigns(h, k, psbt, master, fingerprint);
    }
    hide SignWithMaster;
    if AllSignedInput(h, k, psbt, psbt', master, fingerprint) {
      SignedByMaster(h, k, psbt, master, fingerprint, psbt');
    }
  }

  lemma MasterSigns(h: Host, k: KeyHost, psbt: Psbt, master: Bytes, fingerprint: Fingerprint)
    requires HasEntries(psbt, fingerprint) && SignWithMaster(h, k, psbt, master, fingerprint).Ok?
    ensures AllSignedInput(h, k, psbt, SignWithMaster(h, k, psbt, master, fingerprint).value, master, fingerprint)
  {
    hide Signatures, Makes, SignedInput, WithSignature, HasEntries;
    var produced := Signatures(h, k, psbt, master, fingerprint).value;
    SignaturesIff(h, k, psbt, master, fingerprint, produced);
    InsertedEach(psbt, produced, |produced|);
    forall i | 0 <= i < |psbt.inputs|
      ensures SignedInput(h, k, psbt.tx, i, psbt.inputs[i], WithSignature(psbt.inputs[i], produced[i]), master,
          fingerprint)
    {
      MadeInput(h, k, psbt, master, fingerprint, i, produced[i]);
    }
  }

  lemma SignedByMaster(h: Host, k: KeyHost, psbt: Psbt, master: Bytes, fingerprint: Fingerprint, psbt': Psbt)
    requires HasEntries(psbt, fingerprint) && AllSignedInput(h, k, psbt, psbt', master, fingerprint)
    ensures SignWithMaster(h, k, psbt, master, fingerprint) == Ok(psbt')
  {
    hide Signatures, Makes, SignedInput, WithSignature, HasEntries, Inserted;
    var produced := [];
    for i := 0 to |psbt.inputs|
      invariant |produced| == i
      invariant forall j :: 0 <= j < i ==>
                  Makes(h, k, psbt, master, fingerprint, j, produced[j])
                  && psbt'.inputs[j] == WithSignature(psbt.inputs[j], produced[j])
    {
      var p := InputMade(h, k, psbt, master, fingerprint, i, psbt'.inputs[i]);
      produced := produced + [p];
    }
    SignaturesIff(h, k, psbt, master, fingerprint, produced);
    InsertedEach(psbt, produced, |produced|);
    assert Inserted(psbt, produced, |produced|).inputs == psbt'.inputs;
  }

  /** A local signer returns a PSBT exactly when there are inputs, all ready and with an entry of
      its fingerprint, its blob opens to the declared master key, and every entry's path derives the
      entry's own key, whose low-s signature verifies; and then it returns the PSBT with these
      signatures and nothing else changed. */
  lemma LocalSignIff(h: Host, k: KeyHost, signer: LocalSigner, psbt: Psbt, psbt': Psbt)
    ensures LocalSign(h, k, signer, psbt) == Ok(psbt')
            <==> && psbt.inputs != [] && AllReady(psbt, signer.fingerprint)
                 && exists master :: OpensTo(k, signer, master)
                                     && AllSignedInput(h, k, psbt, psbt', master, signer.fingerprint)
  {
    hide Preflight, UnlockMaster, SignWithMaster, AllReady, AllSignedInput, OpensTo;
    PreflightIff(psbt, signer.fingerprint);
    if Preflight(psbt, signer.fingerprint).Ok? && UnlockMaster(k, signer).Ok? {
      var master := UnlockMaster(k, signer).value;
      SignWithMasterIff(h, k, psbt, master, signer.fingerprint, psbt');
      forall other | OpensTo(k, signer, other) ensures other == master {
        OneMaster(k, signer, master, other);
      }
    }
  }

  lemma OneMaster(k: KeyHost, signer: LocalSigner, a: Bytes, b: Bytes)
    requires OpensTo(k, signer, a) && OpensTo(k, signer, b)
    ensures a == b
  {
  }

  // --- The protocol --------------------------------------------------------

  /** The second signer's PSBT, as `LocalSignIff` says. */
  ghost predicate SignedLocally(h: Host, k: KeyHost, signer: LocalSigner, psbt: Psbt, psbt': Psbt) {
    && psbt.inputs != [] && AllReady(psbt, signer.fingerprint)
    && exists master :: OpensTo(k, signer, master) && AllSignedInput(h, k, psbt, psbt', master, signer.fingerprint)
  }

  /** The window lets the call through: a valid policy, the passphrase used, charge and inputs known,
      the addition within the allowance, and a row or room for one. */
  ghost predicate Affords(h: Host, s: CoreState, mono: Duration, call: Call) {
    var charge, inputs := ChargeOf(h, call), SpendCharge.InputSetOf(call.psbt);
    && Validate(call.spend).Ok?
    && var s' := Pruned(Advanced(s, Reading(mono, call.boot, call.height, call.wall)), call.spend.window);
       && s'.passphraseUsedSinceInstall && charge.Ok? && inputs.Ok?
       && var extra := ExtraAgainst(s'.bookings, inputs.value, charge.value);
          && (extra == 0 || Total(s'.bookings) + extra <= Allowance(call.spend, call.reference))
          && (FindRow(s'.bookings, inputs.value).Some? || |s'.bookings| < MAX_BOOKINGS)
  }

  lemma AffordsIff(h: Host, s: CoreState, mono: Duration, call: Call)
    ensures Approval(h, s, mono, call).1.Ok? <==> Affords(h, s, mono, call)
  {
    hide SpendCharge.Charge, SpendCharge.InputSetOf, Advanced, Pruned, Validate, Decision, Allowance, FindRow, Total,
         ExtraAgainst;
    var s' := Pruned(Advanced(s, Reading(mono, call.boot, call.height, call.wall)), call.spend.window);
    ApprovedIff(s', call.spend, call.reference, ChargeOf(h, call), SpendCharge.InputSetOf(call.psbt));
  }

  /** `sign_ab` returns a PSBT exactly when the window affords the call, the verifier accepts the
      PSBT, the first signer returns one the verifier accepts too, of the same transaction id and
      with key A's signatures, and the second signer signs that. */
  lemma ProtocolIff(h: Host, k: KeyHost, s: CoreState, mono: Duration, call: Call, psbt': Psbt)
    ensures Protocol(h, k, s, mono, call).1.result == Ok(psbt')
            <==> && Affords(h, s, mono, call) && Accepts(h, call, call.psbt) && call.first(call.psbt).Ok?
                 && var afterA := call.first(call.psbt).value;
                    && Accepts(h, call, afterA) && h.txid(afterA.tx) == h.txid(call.psbt.tx)
                    && SignedByKeyA(h, afterA, call.descriptor)
                    && SignedLocally(h, k, call.second, afterA, psbt')
  {
    hide Verdict, Approval, Affords, KeyAChecked, LocalSign, SignedByKeyA, SignedLocally;
    AffordsIff(h, s, mono, call);
    if call.first(call.psbt).Ok? {
      var afterA := call.first(call.psbt).value;
      KeyAMeaning(h, afterA, call.descriptor);
      SignedLocallyIff(h, k, call.second, afterA, psbt');
    }
  }

  lemma SignedLocallyIff(h: Host, k: KeyHost, signer: LocalSigner, psbt: Psbt, psbt': Psbt)
    ensures LocalSign(h, k, signer, psbt) == Ok(psbt') <==> SignedLocally(h, k, signer, psbt, psbt')
  {
    hide LocalSign, AllReady, AllSignedInput, OpensTo;
    LocalSignIff(h, k, signer, psbt, psbt');
  }
}
