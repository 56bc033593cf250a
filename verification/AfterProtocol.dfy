/** What the two-key protocol returns can be finished: the input gets its witness, and the script
    accepts it. */
module AfterProtocol {
  import opened Machine
  import opened Bitcoin
  import opened Bip67
  import opened StateCodec
  import opened Descriptor
  import opened Derive
  import opened Psbts
  import opened Verify
  import opened VerifyMeaning
  import opened Signing
  import opened SignAb
  import opened Multisig
  import opened Finalize

  /** The keys of the two signers on an input. */
  function KeyOfA(h: Host, call: Call, input: Input): Option<PubKey> {
    match ParsedWith(h.curve, call.descriptor)
    case Err(_) => None
    case Ok(d) =>
      match EntryFor(input.derivation, d.keys[0].fingerprint)
      case None => None
      case Some(e) => Some(e.key)
  }

  function KeyOfB(call: Call, input: Input): Option<PubKey> {
    match EntryFor(input.derivation, call.second.fingerprint)
    case None => None
    case Some(e) => Some(e.key)
  }

  /** The first derivation path names the branch and index that derive to the spent output, the
      PSBT carries its script, and both signers' keys are among its keys. */
  ghost predicate BothKeysOf(h: Host, call: Call, input: Input, receive: ParsedDescriptor,
                             change: Option<ParsedDescriptor>, branch: u32, index: u32)
  {
    && input.derivation != [] && Ends(input.derivation[0].path, branch, index)
    && (branch == 0 || (branch == 1 && change.Some?))
    && var o := DeriveAt(h.curve, if branch == 0 then receive else change.value, index);
       && o.Ok? && input.witnessUtxo.Some?
       && input.witnessUtxo.value.scriptPubkey == o.value.scriptPubkey
       && input.witnessScript == Some(o.value.witnessScript)
       && KeyOfA(h, call, input).Some? && KeyOfB(call, input).Some? && KeyOfA(h, call, input) != KeyOfB(call, input)
       && KeyOfA(h, call, input).value in o.value.sortedPubkeys && KeyOfB(call, input).value in o.value.sortedPubkeys
  }

  /** Of the script's keys only the two signers have entries in the signature map. */
  predicate OnlyTheTwo(sigs: seq<SigEntry>, keys: seq<PubKey>, ka: PubKey, kb: PubKey) {
    forall n :: 0 <= n < |sigs| && sigs[n].key.inner in keys ==>
      sigs[n].key == PublicKey(true, ka) || sigs[n].key == PublicKey(true, kb)
  }

  lemma {:induction false} FoundIsTheirs(h: Host, tx: Transaction, i: nat, input: Input, fa: Fingerprint,
                                         fb: Fingerprint,
                                         keys: seq<PubKey>, key: PubKey)
    requires SignedBy(h, tx, i, input, fa) && SignedBy(h, tx, i, input, fb)
    requires var ka, kb := EntryFor(input.derivation, fa).value.key, EntryFor(input.derivation, fb).value.key;
             OnlyTheTwo(input.partialSigs, keys, ka, kb)
    requires key in keys && HasSig(input.partialSigs, key)
    ensures h.verifyEcdsa(Message(h, tx, i, input).value, SigFor(input.partialSigs, key).value.ecdsa, key)
  {
    var sigs := input.partialSigs;
    var e :| e in sigs && e.key.inner == key && e.sig == SigFor(sigs, key).value;
    var n :| 0 <= n < |sigs| && sigs[n] == e;
    LookupUnique(sigs, e);
  }

  /** What is known of every input of the PSBT the protocol returns. */
  ghost predicate Returned(h: Host, call: Call, psbt: Psbt, i: nat) {
    && |psbt.inputs| == |psbt.tx.inputs| && i < |psbt.inputs|
    && psbt.inputs[i].witnessUtxo.Some?
    && KnownAs(call.verify, psbt.tx.inputs[i], psbt.inputs[i].witnessUtxo.value)
    && AllSighashAll(psbt.inputs[i].partialSigs)
    && ParsedWith(h.curve, call.descriptor).Ok?
    && SignedBy(h, psbt.tx, i, psbt.inputs[i], ParsedWith(h.curve, call.descriptor).value.keys[0].fingerprint)
    && SignedBy(h, psbt.tx, i, psbt.inputs[i], call.second.fingerprint)
  }

  lemma AcceptedAreKnown(h: Host, call: Call, psbt: Psbt)
    requires Accepts(h, call, psbt)
    ensures AllKnown(call.verify, psbt.tx.inputs, psbt.inputs)
  {
    hide ParsedWith, ParsedChange, InputChecks, OutputChecks;
    InputChecksMeaning(h, psbt, ParsedWith(h.curve, call.descriptor).value, ParsedChange(h.curve, call.verify).value,
                       call.verify);
  }

  /** A successful call went through an accepted PSBT that the second signer then signed. */
  lemma ProtocolPasses(h: Host, k: KeyHost, s: CoreState, mono: Duration, call: Call)
    requires Protocol(h, k, s, mono, call).1.result.Ok?
    ensures call.first(call.psbt).Ok? && Accepts(h, call, call.first(call.psbt).value)
    ensures LocalSign(h, k, call.second, call.first(call.psbt).value) == Protocol(h, k, s, mono, call).1.result
  {
    hide Verdict, LocalSign, KeyAChecked, Approval;
  }

  lemma ReturnedInputs(h: Host, k: KeyHost, s: CoreState, mono: Duration, call: Call, psbt: Psbt, i: nat)
    requires Protocol(h, k, s, mono, call).1.result == Ok(psbt) && i < |psbt.inputs|
    ensures Returned(h, call, psbt, i)
  {
    ProtocolPasses(h, k, s, mono, call);
    ProtocolResult(h, k, s, mono, call);
    hide Verdict, Protocol, LocalSign, ParsedWith, SignedBy;
    var afterA := call.first(call.psbt).value;
    AcceptedAreKnown(h, call, afterA);
    LocalSignMeaning(h, k, call.second, afterA);
    LocalSignAllAll(h, k, call.second, afterA, i);
    assert KnownAs(call.verify, afterA.tx.inputs[i], afterA.inputs[i].witnessUtxo.value);
  }

  /** `finalize` builds a witness for the input; and when no one else of the script's keys has
      signed, the script accepts it. */
  ghost predicate Finishes(h: Host, call: Call, psbt: Psbt, i: nat, receive: ParsedDescriptor,
                           change: Option<ParsedDescriptor>, keys: seq<PubKey>)
  {
    && |psbt.inputs| == |psbt.tx.inputs| && i < |psbt.inputs|
    && var input, w := psbt.inputs[i], FinalInput(h, psbt, receive, change, call.verify, i);
       && w.Ok? && |w.value| == 4
       && KeyOfA(h, call, input).Some? && KeyOfB(call, input).Some? && Message(h, psbt.tx, i, input).Ok?
       && (OnlyTheTwo(input.partialSigs, keys, KeyOfA(h, call, input).value, KeyOfB(call, input).value) ==>
             Greedy(w.value[1..3], keys, CheckSig(h, Message(h, psbt.tx, i, input).value)))
  }

  function KeysAt(h: Host, receive: ParsedDescriptor, change: Option<ParsedDescriptor>, branch: u32, index: u32)
    : Option<DerivedOutput>
  {
    if branch != 0 && change.None? then None
    else match DeriveAt(h.curve, if branch == 0 then receive else change.value, index)
         case Err(_) => None
         case Ok(o) => Some(o)
  }

  /** Two signers' witness: built, and accepted when only they have signed. */
  lemma {:induction false} TwoSignersAccepted(h: Host, tx: Transaction, i: nat, input: Input, fa: Fingerprint,
                                              fb: Fingerprint, keys: seq<PubKey>, script: Bytes)
    requires SignedBy(h, tx, i, input, fa) && SignedBy(h, tx, i, input, fb) && AllSighashAll(input.partialSigs)
    requires var ka, kb := EntryFor(input.derivation, fa).value.key, EntryFor(input.derivation, fb).value.key;
             ka != kb && ka in keys && kb in keys
    ensures var ka, kb := EntryFor(input.derivation, fa).value.key, EntryFor(input.derivation, fb).value.key;
            var w := WitnessFor(input.partialSigs, keys, script, i);
            && w.Ok? && |w.value| == 4
            && (OnlyTheTwo(input.partialSigs, keys, ka, kb) ==>
                  Greedy(w.value[1..3], keys, CheckSig(h, Message(h, tx, i, input).value)))
  {
    var sigs := input.partialSigs;
    var ka, kb := EntryFor(input.derivation, fa).value.key, EntryFor(input.derivation, fb).value.key;
    assert Message(h, tx, i, input).Ok?;
    hide *;
    var a, b := TwoSignersSuffice(h, tx, i, input, fa, fb, keys, script);
    PairIsAll(sigs, keys, a, b);
    PairWitness(sigs, keys, a, b, script, i);
    if OnlyTheTwo(sigs, keys, ka, kb) {
      PairVerifies(h, tx, i, input, fa, fb, keys, a, b);
      PairAccepted(h, Message(h, tx, i, input).value, sigs, keys, a, b, script, i);
    }
  }

  lemma PairIsAll(sigs: PartialSigs, keys: seq<PubKey>, a: nat, b: nat)
    requires AllSighashAll(sigs) && FirstTwo(sigs, keys, a, b)
    ensures a < b < |keys| && HasAll(sigs, keys[a]) && HasAll(sigs, keys[b])
  {
    hide HasSig, HasAll, AllSighashAll;
    FoundIsAll(sigs, keys[a]);
    FoundIsAll(sigs, keys[b]);
  }

  lemma PairWitness(sigs: PartialSigs, keys: seq<PubKey>, a: nat, b: nat, script: Bytes, i: nat)
    requires FirstTwo(sigs, keys, a, b) && HasAll(sigs, keys[a]) && HasAll(sigs, keys[b])
    ensures WitnessFor(sigs, keys, script, i).Ok? && |WitnessFor(sigs, keys, script, i).value| == 4
  {
    hide WitnessFor, SigFor;
    WitnessOfFirstTwo(sigs, keys, a, b, script, i);
  }

  lemma PairVerifies(h: Host, tx: Transaction, i: nat, input: Input, fa: Fingerprint, fb: Fingerprint,
                     keys: seq<PubKey>, a: nat, b: nat)
    requires SignedBy(h, tx, i, input, fa) && SignedBy(h, tx, i, input, fb)
    requires OnlyTheTwo(input.partialSigs, keys, EntryFor(input.derivation, fa).value.key,
                        EntryFor(input.derivation, fb).value.key)
    requires FirstTwo(input.partialSigs, keys, a, b)
    ensures Message(h, tx, i, input).Ok?
    ensures Verifies(h, Message(h, tx, i, input).value, input.partialSigs, keys, a, a)
    ensures Verifies(h, Message(h, tx, i, input).value, input.partialSigs, keys, b, b)
  {
    assert Message(h, tx, i, input).Ok?;
    hide Message, SigFor, HasSig, OnlyTheTwo, SignedBy;
    FoundIsTheirs(h, tx, i, input, fa, fb, keys, keys[a]);
    FoundIsTheirs(h, tx, i, input, fa, fb, keys, keys[b]);
  }

  lemma {:induction false} PairAccepted(h: Host, m: Hash256, sigs: PartialSigs, keys: seq<PubKey>, a: nat, b: nat,
                                        script: Bytes, i: nat)
    requires FirstTwo(sigs, keys, a, b) && HasAll(sigs, keys[a]) && HasAll(sigs, keys[b])
    requires Verifies(h, m, sigs, keys, a, a) && Verifies(h, m, sigs, keys, b, b)
    ensures WitnessFor(sigs, keys, script, i).Ok? && |WitnessFor(sigs, keys, script, i).value| == 4
    ensures Greedy(WitnessFor(sigs, keys, script, i).value[1..3], keys, CheckSig(h, m))
  {
    hide WitnessFor, SigFor, Greedy, CheckSig, Verifies, HasAll;
    WitnessOfFirstTwo(sigs, keys, a, b, script, i);
    WitnessSatisfies(h, m, sigs, keys, a, b);
    var w := WitnessFor(sigs, keys, script, i).value;
    assert w[1..3] == [w[1], w[2]];
  }

  lemma ReturnedFinishes(h: Host, call: Call, psbt: Psbt, i: nat, receive: ParsedDescriptor,
                         change: Option<ParsedDescriptor>, branch: u32, index: u32)
    requires Returned(h, call, psbt, i) && BothKeysOf(h, call, psbt.inputs[i], receive, change, branch, index)
    ensures KeysAt(h, receive, change, branch, index).Some?
    ensures Finishes(h, call, psbt, i, receive, change, KeysAt(h, receive, change, branch, index).value.sortedPubkeys)
  {
    var input, o := psbt.inputs[i], DeriveAt(h.curve, if branch == 0 then receive else change.value, index).value;
    var fa, fb := ParsedWith(h.curve, call.descriptor).value.keys[0].fingerprint, call.second.fingerprint;
    var ka, kb := EntryFor(input.derivation, fa).value.key, EntryFor(input.derivation, fb).value.key;
    assert Message(h, psbt.tx, i, input).Ok? && KeysAt(h, receive, change, branch, index) == Some(o);
    assert KeyOfA(h, call, input) == Some(ka) && KeyOfB(call, input) == Some(kb);
    NamedIsFinal(h, psbt, receive, change, call.verify, i, branch, index);
    assert ka != kb && ka in o.sortedPubkeys && kb in o.sortedPubkeys;
    assert AllSighashAll(input.partialSigs) && SignedBy(h, psbt.tx, i, input, fa) && SignedBy(h, psbt.tx, i, input, fb);
    assert |psbt.inputs| == |psbt.tx.inputs|;
    hide *;
    TwoSignersAccepted(h, psbt.tx, i, input, fa, fb, o.sortedPubkeys, o.witnessScript);
    FinishesFacts(h, call, psbt, i, receive, change, o.sortedPubkeys, o.witnessScript, ka, kb);
  }

  lemma {:induction false} FinishesFacts(h: Host, call: Call, psbt: Psbt, i: nat, receive: ParsedDescriptor,
                      change: Option<ParsedDescriptor>, keys: seq<PubKey>, script: Bytes, ka: PubKey, kb: PubKey)
    requires |psbt.inputs| == |psbt.tx.inputs| && i < |psbt.inputs| && Message(h, psbt.tx, i, psbt.inputs[i]).Ok?
    requires KeyOfA(h, call, psbt.inputs[i]) == Some(ka) && KeyOfB(call, psbt.inputs[i]) == Some(kb)
    requires FinalInput(h, psbt, receive, change, call.verify, i)
             == WitnessFor(psbt.inputs[i].partialSigs, keys, script, i)
    requires var w := WitnessFor(psbt.inputs[i].partialSigs, keys, script, i);
             && w.Ok? && |w.value| == 4
             && (OnlyTheTwo(psbt.inputs[i].partialSigs, keys, ka, kb) ==>
                   Greedy(w.value[1..3], keys, CheckSig(h, Message(h, psbt.tx, i, psbt.inputs[i]).value)))
    ensures Finishes(h, call, psbt, i, receive, change, keys)
  {
    hide KeyOfA, KeyOfB, Message, OnlyTheTwo, Greedy, CheckSig, FinalInput, WitnessFor;
  }

  lemma NamedIsFinal(h: Host, psbt: Psbt, receive: ParsedDescriptor, change: Option<ParsedDescriptor>,
                     policy: VerifyPolicy, i: nat, branch: u32, index: u32)
    requires |psbt.inputs| == |psbt.tx.inputs| && i < |psbt.inputs|
    requires psbt.inputs[i].witnessUtxo.Some? && KnownAs(policy, psbt.tx.inputs[i], psbt.inputs[i].witnessUtxo.value)
    requires psbt.inputs[i].derivation != [] && Ends(psbt.inputs[i].derivation[0].path, branch, index)
    requires branch == 0 || (branch == 1 && change.Some?)
    requires var o := DeriveAt(h.curve, if branch == 0 then receive else change.value, index);
             && o.Ok? && psbt.inputs[i].witnessUtxo.value.scriptPubkey == o.value.scriptPubkey
             && psbt.inputs[i].witnessScript == Some(o.value.witnessScript)
    ensures var o := DeriveAt(h.curve, if branch == 0 then receive else change.value, index).value;
            FinalInput(h, psbt, receive, change, policy, i)
            == WitnessFor(psbt.inputs[i].partialSigs, o.sortedPubkeys, o.witnessScript, i)
  {
    hide DeriveAt, WitnessFor;
  }

  /** The whole way: every input of the returned PSBT whose output has the two signers' keys can
      be finished, and the script accepts it unless a third signature was slipped in. */
  lemma ProtocolFinishes(h: Host, k: KeyHost, s: CoreState, mono: Duration, call: Call, psbt: Psbt, i: nat,
                         receive: ParsedDescriptor, change: Option<ParsedDescriptor>, branch: u32, index: u32)
    requires Protocol(h, k, s, mono, call).1.result == Ok(psbt) && i < |psbt.inputs|
    requires BothKeysOf(h, call, psbt.inputs[i], receive, change, branch, index)
    ensures KeysAt(h, receive, change, branch, index).Some?
    ensures Finishes(h, call, psbt, i, receive, change, KeysAt(h, receive, change, branch, index).value.sortedPubkeys)
  {
    hide Protocol, BothKeysOf, Returned, Finishes, KeysAt;
    ReturnedInputs(h, k, s, mono, call, psbt, i);
    ReturnedFinishes(h, call, psbt, i, receive, change, branch, index);
  }
}
