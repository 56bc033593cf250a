/** The signing path as it runs: loops over inputs, a PSBT updated signature by signature, the
    counter held throughout, and a log of what happened. */
module SigningSteps {
  import opened Machine
  import opened Errors
  import opened Bitcoin
  import opened Window
  import opened Descriptor
  import opened Derive
  import opened Psbts
  import opened Verify
  import opened Signing
  import opened SignAb
  import opened Gather
  import SpendCharge
  import VerifyLoops
  import WindowCounter

  class EventLog {
    var events: seq<Event>

    constructor ()
      ensures events == []
    {
      events := [];
    }

    method Record(e: Event)
      modifies this
      ensures events == old(events) + [e]
    {
      events := events + [e];
    }
  }

  // --- Checks --------------------------------------------------------------

  method CheckKeyASignatures(h: Host, psbt: Psbt, descriptor: string) returns (r: Step)
    ensures r == KeyAChecked(h, psbt, descriptor)
  {
    hide ParsedWith, EntryFor, Lookup, Message;
    var parsed := VerifyLoops.ParseWith(h.curve, descriptor);
    if parsed.Err? {
      return Err(SignError.Verify(parsed.error));
    }
    var fingerprint := parsed.value.keys[0].fingerprint;
    for i := 0 to |psbt.inputs|
      invariant KeyAFrom(h, psbt, fingerprint, 0) == KeyAFrom(h, psbt, fingerprint, i)
    {
      var input := psbt.inputs[i];
      var entry := FindEntry(input.derivation, fingerprint);
      if entry.None? {
        return Err(UnexpectedKeyASignature);
      }
      var sig := Lookup(input.partialSigs, PublicKey(true, entry.value.key));
      if sig.None? {
        return Err(UnexpectedKeyASignature);
      }
      if !sig.value.sighashType.All? {
        return Err(SighashNotAll(i));
      }
      var msg := Message(h, psbt.tx, i, input);
      if msg.Err? {
        return Err(msg.error);
      }
      if !h.verifyEcdsa(msg.value, sig.value.ecdsa, entry.value.key) {
        return Err(SelfVerificationFailed);
      }
    }
    return Ok(());
  }

  /** `pubkey_for_fingerprint` and the same search in the signer. */
  method FindEntry(derivation: Derivation, fingerprint: Fingerprint) returns (r: Option<KeyOrigin>)
    ensures r == EntryFor(derivation, fingerprint)
  {
    for i := 0 to |derivation|
      invariant EntryFor(derivation, fingerprint) == EntryFor(derivation[i..], fingerprint)
    {
      assert derivation[i..][1..] == derivation[i + 1..];
      if derivation[i].fingerprint == fingerprint {
        return Some(derivation[i]);
      }
    }
    return None;
  }

  method PreflightInputs(psbt: Psbt, fingerprint: Fingerprint) returns (r: Step)
    ensures r == Preflight(psbt, fingerprint)
  {
    hide EntryFor;
    if psbt.inputs == [] {
      return Err(EmptyPsbt);
    }
    for i := 0 to |psbt.inputs|
      invariant PreflightFrom(psbt, fingerprint, 0) == PreflightFrom(psbt, fingerprint, i)
    {
      var input := psbt.inputs[i];
      if input.sighashType.Some? && !IsSighashAll(input.sighashType.value) {
        return Err(SighashNotAll(i));
      }
      for n := 0 to |input.partialSigs|
        invariant AllSighashAll(input.partialSigs[..n])
      {
        if !input.partialSigs[n].sig.sighashType.All? {
          return Err(SighashNotAll(i));
        }
      }
      assert input.partialSigs[..|input.partialSigs|] == input.partialSigs;
      if input.witnessUtxo.None? {
        return Err(NoWitnessUtxo(i));
      }
      if input.witnessScript.None? {
        return Err(NoWitnessScript(i));
      }
      var entry := FindEntry(input.derivation, fingerprint);
      if entry.None? {
        return Err(MissingDerivation(i));
      }
    }
    return Ok(());
  }

  // --- Signing -------------------------------------------------------------

  /** The loop of `sign_with_master` that fills the list of derived keys. */
  method DeriveKeys(k: KeyHost, psbt: Psbt, master: Bytes, fingerprint: Fingerprint)
    returns (r: Result<seq<DerivedKey>, SignError>)
    requires HasEntries(psbt, fingerprint)
    ensures r == DeriveFrom(k, psbt, master, fingerprint, 0)
  {
    hide SoFar;
    ghost var all := DeriveFrom(k, psbt, master, fingerprint, 0);
    var derived := [];
    SoFarStart(all);
    for i := 0 to |psbt.inputs|
      invariant SoFar(all, derived, DeriveFrom(k, psbt, master, fingerprint, i))
    {
      var next := DeriveOne(k, psbt, master, fingerprint, i);
      if next.Err? {
        SoFarErr(all, derived, next.error);
        return Err(next.error);
      }
      SoFarOneMore(all, derived, next.value, DeriveFrom(k, psbt, master, fingerprint, i + 1));
      derived := derived + [next.value];
    }
    SoFarEnd(all, derived);
    return Ok(derived);
  }

  method DeriveOne(k: KeyHost, psbt: Psbt, master: Bytes, fingerprint: Fingerprint, i: nat)
    returns (r: Result<DerivedKey, SignError>)
    requires HasEntries(psbt, fingerprint) && i < |psbt.inputs|
    ensures r == DeriveInput(k, psbt, master, fingerprint, i)
  {
    hide EntryFor;
    var entry := FindEntry(psbt.inputs[i].derivation, fingerprint);
    var secret := k.derivePriv(master, entry.value.path);
    if secret.None? {
      return Err(Bip32);
    }
    if k.publicOf(secret.value) != entry.value.key {
      return Err(PubkeyMismatch(i));
    }
    return Ok(DerivedKey(i, entry.value.key, secret.value));
  }

  /** The first loop of `sign_inputs_inner`: sign and self-verify, nothing written yet. */
  method ProduceSignatures(h: Host, k: KeyHost, psbt: Psbt, derived: seq<DerivedKey>)
    returns (r: Result<seq<Produced>, SignError>)
    requires Indexed(psbt, derived)
    ensures r == ProduceFrom(h, k, psbt, derived, 0)
  {
    hide SoFar, Message;
    ghost var all := ProduceFrom(h, k, psbt, derived, 0);
    var produced := [];
    SoFarStart(all);
    for j := 0 to |derived|
      invariant SoFar(all, produced, ProduceFrom(h, k, psbt, derived, j))
    {
      var next := Produce(h, k, psbt, derived[j]);
      if next.Err? {
        SoFarErr(all, produced, next.error);
        return Err(next.error);
      }
      SoFarOneMore(all, produced, next.value, ProduceFrom(h, k, psbt, derived, j + 1));
      produced := produced + [next.value];
    }
    SoFarEnd(all, produced);
    return Ok(produced);
  }

  /** The second loop: every signature goes into its input's map. */
  method InsertSignatures(psbt: Psbt, produced: seq<Produced>) returns (r: Psbt)
    requires forall j :: 0 <= j < |produced| ==> produced[j].index < |psbt.inputs|
    ensures r == Inserted(psbt, produced, |produced|)
  {
    hide WithSignature;
    r := psbt;
    for j := 0 to |produced|
      invariant r == Inserted(psbt, produced, j)
    {
      var p := produced[j];
      r := r.(inputs := r.inputs[p.index := WithSignature(r.inputs[p.index], p)]);
    }
  }

  /** `sign_with_master`. */
  method SignMaster(h: Host, k: KeyHost, psbt: Psbt, master: Bytes, fingerprint: Fingerprint)
    returns (r: Result<Psbt, SignError>)
    requires HasEntries(psbt, fingerprint)
    ensures r == SignWithMaster(h, k, psbt, master, fingerprint)
  {
    hide DeriveFrom, ProduceFrom, Inserted;
    var derived := DeriveKeys(k, psbt, master, fingerprint);
    if derived.Err? {
      return Err(derived.error);
    }
    DerivedKeys(k, psbt, master, fingerprint);
    var produced := ProduceSignatures(h, k, psbt, derived.value);
    if produced.Err? {
      return Err(produced.error);
    }
    ProducedSigs(h, k, psbt, derived.value);
    var signed := InsertSignatures(psbt, produced.value);
    return Ok(signed);
  }

  /** `LocalSigner::sign`: the key is unwrapped only after the structural checks passed. */
  method SignLocally(h: Host, k: KeyHost, signer: LocalSigner, psbt: Psbt, log: EventLog)
    returns (r: Result<Psbt, SignError>)
    modifies log
    ensures Outcome(r, log.events) == Outcome(SecondSigner(h, k, signer, psbt).result,
                                              old(log.events) + SecondSigner(h, k, signer, psbt).events)
  {
    hide Preflight, UnlockMaster, SignWithMaster;
    var checked := PreflightInputs(psbt, signer.fingerprint);
    if checked.Err? {
      assert old(log.events) + [] == old(log.events);
      return Err(checked.error);
    }
    log.Record(KeyUnwrapped(signer.slot, psbt));
    var master := UnlockMaster(k, signer);
    if master.Err? {
      return Err(master.error);
    }
    r := SignMaster(h, k, psbt, master.value, signer.fingerprint);
  }

  // --- The protocol --------------------------------------------------------

  /** `sign_a`. */
  method SignWithFirst(h: Host, call: Call, log: EventLog) returns (r: Result<Psbt, SignError>)
    modifies log
    ensures r == SignA(h, call).result && log.events == old(log.events) + SignA(h, call).events
  {
    hide Verdict;
    var verdict := VerifyLoops.VerifyPsbt(h, call.psbt, call.descriptor, call.verify);
    if verdict.Err? {
      assert old(log.events) + [] == old(log.events);
      return Err(SignError.Verify(verdict.error));
    }
    log.Record(VerifierAccepted(call.psbt));
    log.Record(FirstSignerCalled(call.psbt));
    r := call.first(call.psbt);
  }

  /** `sign_b`. */
  method SignWithSecond(h: Host, k: KeyHost, call: Call, psbt: Psbt, txidAtA: Txid, log: EventLog)
    returns (r: Result<Psbt, SignError>)
    modifies log
    ensures r == SignB(h, k, call, psbt, txidAtA).result
    ensures log.events == old(log.events) + SignB(h, k, call, psbt, txidAtA).events
  {
    hide Verdict, KeyAChecked, SecondSigner;
    var verdict := VerifyLoops.VerifyPsbt(h, psbt, call.descriptor, call.verify);
    if verdict.Err? {
      assert old(log.events) + [] == old(log.events);
      return Err(SignError.Verify(verdict.error));
    }
    log.Record(VerifierAccepted(psbt));
    if h.txid(psbt.tx) != txidAtA {
      return Err(UnsignedTxChanged);
    }
    var keyA := CheckKeyASignatures(h, psbt, call.descriptor);
    if keyA.Err? {
      return Err(keyA.error);
    }
    ghost var before := log.events;
    r := SignLocally(h, k, call.second, psbt, log);
    ghost var later := SecondSigner(h, k, call.second, psbt).events;
    assert before + later == old(log.events) + ([VerifierAccepted(psbt)] + later);
  }

  /** The two signing steps of `sign_ab`, bound by the transaction id taken before the first. */
  method SignWithBoth(h: Host, k: KeyHost, call: Call, log: EventLog) returns (r: Result<Psbt, SignError>)
    modifies log
    ensures r == Signers(h, k, call).result && log.events == old(log.events) + Signers(h, k, call).events
  {
    hide SignA, SignB;
    var txid := h.txid(call.psbt.tx);
    var afterA := SignWithFirst(h, call, log);
    if afterA.Err? {
      return Err(afterA.error);
    }
    r := SignWithSecond(h, k, call, afterA.value, txid, log);
    ghost var a, b := SignA(h, call).events, SignB(h, k, call, afterA.value, txid).events;
    assert old(log.events) + a + b == old(log.events) + (a + b);
  }

  method Approve(h: Host, counter: WindowCounter.Counter, mono: Duration, call: Call)
    returns (r: Result<SpendApproval, SignError>)
    modifies counter
    ensures (counter.state, r) == Approval(h, old(counter.state), mono, call)
  {
    hide Authorized, SpendCharge.Charge, SpendCharge.InputSetOf;
    r := counter.Authorize(h, call.spend, call.psbt, call.descriptor, call.verify, call.reference,
                           Reading(mono, call.boot, call.height, call.wall));
  }

  /** `sign_ab`: one call holds the counter from the policy check to the booking. */
  method SignBoth(h: Host, k: KeyHost, counter: WindowCounter.Counter, mono: Duration, call: Call, log: EventLog)
    returns (r: Result<Psbt, SignError>)
    modifies counter, log
    ensures counter.state == Protocol(h, k, old(counter.state), mono, call).0
    ensures r == Protocol(h, k, old(counter.state), mono, call).1.result
    ensures log.events == old(log.events) + Protocol(h, k, old(counter.state), mono, call).1.events
  {
    hide Signers, Approval, Window.Committed;
    ghost var start := log.events;
    var approval := Approve(h, counter, mono, call);
    if approval.Err? {
      assert start + [] == start;
      return Err(approval.error);
    }
    log.Record(PolicyAccepted(call.psbt));
    r := SignWithBoth(h, k, call, log);
    ghost var p, o := PolicyAccepted(call.psbt), Signers(h, k, call).events;
    assert start + [p] + o == start + ([p] + o);
    if r.Err? {
      return;
    }
    counter.Commit(approval.value);
    log.Record(Event.Committed(approval.value));
    assert start + ([p] + o) + [Event.Committed(approval.value)]
        == start + ([p] + o + [Event.Committed(approval.value)]);
  }
}
