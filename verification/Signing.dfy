/** The signing steps as functions: the checks before a key is unlocked, unlocking it, and the
    signatures it adds. */
module Signing {
  import opened Machine
  import opened Errors
  import opened Bitcoin
  import opened Bip67
  import opened Descriptor
  import opened Derive
  import opened Psbts
  import opened Verify

  datatype KeySlot = SlotA | SlotB | SlotC

  /** The key store, the blob cipher and private-key derivation, taken from libraries. */
  datatype KeyHost = KeyHost(
    unwrapKek: (KeySlot, Bytes) -> Option<Bytes>,
    openBlob: (Bytes, Bytes) -> Option<(KeySlot, Bytes)>,
    seedOf: Bytes -> Option<Bytes>,
    masterOf: Bytes -> Option<Bytes>,
    fingerprintOf: Bytes -> Fingerprint,
    derivePriv: (Bytes, seq<ChildNumber>) -> Option<Bytes>,
    publicOf: Bytes -> PubKey,
    signLowR: (Hash256, Bytes) -> Bytes)

  datatype LocalSigner = LocalSigner(slot: KeySlot, fingerprint: Fingerprint, wrappedKek: Bytes, blob: Bytes)

  type Step = Result<(), SignError>

  // --- Reading an input ----------------------------------------------------

  /** The first derivation entry with this fingerprint. */
  function EntryFor(derivation: seq<KeyOrigin>, fingerprint: Fingerprint): (r: Option<KeyOrigin>)
    ensures r.Some? ==> r.value in derivation && r.value.fingerprint == fingerprint
    ensures r.None? ==> forall e :: e in derivation ==> e.fingerprint != fingerprint
  {
    if derivation == [] then None
    else if derivation[0].fingerprint == fingerprint then Some(derivation[0])
    else EntryFor(derivation[1..], fingerprint)
  }

  /** `sighash_message`. */
  function Message(h: Host, tx: Transaction, i: nat, input: Input): Result<Hash256, SignError> {
    if input.witnessUtxo.None? then Err(NoWitnessUtxo(i))
    else if input.witnessScript.None? then Err(NoWitnessScript(i))
    else match h.p2wshSighash(tx, i, input.witnessScript.value, input.witnessUtxo.value.value)
         case None => Err(Sighash(i))
         case Some(m) => Ok(m)
  }

  /** The input carries a valid `SIGHASH_ALL` signature of the key with this fingerprint. */
  predicate SignedBy(h: Host, tx: Transaction, i: nat, input: Input, fingerprint: Fingerprint) {
    var e := EntryFor(input.derivation, fingerprint);
    && e.Some?
    && var sig := Lookup(input.partialSigs, PublicKey(true, e.value.key));
       && sig.Some? && sig.value.sighashType.All?
       && Message(h, tx, i, input).Ok?
       && h.verifyEcdsa(Message(h, tx, i, input).value, sig.value.ecdsa, e.value.key)
  }

  predicate AllSignedBy(h: Host, psbt: Psbt, fingerprint: Fingerprint) {
    forall i :: 0 <= i < |psbt.inputs| ==> SignedBy(h, psbt.tx, i, psbt.inputs[i], fingerprint)
  }

  // --- Key A's signatures --------------------------------------------------

  function KeyAInput(h: Host, tx: Transaction, i: nat, input: Input, fingerprint: Fingerprint): (r: Step)
    ensures r.Ok? <==> SignedBy(h, tx, i, input, fingerprint)
  {
    match EntryFor(input.derivation, fingerprint)
    case None => Err(UnexpectedKeyASignature)
    case Some(e) =>
      match Lookup(input.partialSigs, PublicKey(true, e.key))
      case None => Err(UnexpectedKeyASignature)
      case Some(sig) =>
        if !sig.sighashType.All? then Err(SighashNotAll(i))
        else
          match Message(h, tx, i, input)
          case Err(err) => Err(err)
          case Ok(m) => if h.verifyEcdsa(m, sig.ecdsa, e.key) then Ok(()) else Err(SelfVerificationFailed)
  }

  function KeyAFrom(h: Host, psbt: Psbt, fingerprint: Fingerprint, i: nat): (r: Step)
    requires i <= |psbt.inputs|
    ensures r.Ok? <==> forall k :: i <= k < |psbt.inputs| ==> SignedBy(h, psbt.tx, k, psbt.inputs[k], fingerprint)
    decreases |psbt.inputs| - i
  {
    if i == |psbt.inputs| then Ok(())
    else match KeyAInput(h, psbt.tx, i, psbt.inputs[i], fingerprint)
         case Err(e) => Err(e)
         case Ok(_) => KeyAFrom(h, psbt, fingerprint, i + 1)
  }

  /** `check_key_a_signatures`: key A is the first key expression of the descriptor. */
  function KeyAChecked(h: Host, psbt: Psbt, descriptor: string): Step {
    match ParsedWith(h.curve, descriptor)
    case Err(e) => Err(SignError.Verify(e))
    case Ok(d) => KeyAFrom(h, psbt, d.keys[0].fingerprint, 0)
  }

  // --- Before unlocking ----------------------------------------------------

  predicate AllSighashAll(sigs: seq<SigEntry>) {
    forall k :: 0 <= k < |sigs| ==> sigs[k].sig.sighashType.All?
  }

  function PreflightInput(input: Input, fingerprint: Fingerprint, i: nat): Step {
    if input.sighashType.Some? && !IsSighashAll(input.sighashType.value) then Err(SighashNotAll(i))
    else if !AllSighashAll(input.partialSigs) then Err(SighashNotAll(i))
    else if input.witnessUtxo.None? then Err(NoWitnessUtxo(i))
    else if input.witnessScript.None? then Err(NoWitnessScript(i))
    else if EntryFor(input.derivation, fingerprint).None? then Err(MissingDerivation(i))
    else Ok(())
  }

  function PreflightFrom(psbt: Psbt, fingerprint: Fingerprint, i: nat): (r: Step)
    requires i <= |psbt.inputs|
    ensures r.Ok? <==> forall k :: i <= k < |psbt.inputs| ==> PreflightInput(psbt.inputs[k], fingerprint, k).Ok?
    decreases |psbt.inputs| - i
  {
    if i == |psbt.inputs| then Ok(())
    else match PreflightInput(psbt.inputs[i], fingerprint, i)
         case Err(e) => Err(e)
         case Ok(_) => PreflightFrom(psbt, fingerprint, i + 1)
  }

  /** `preflight_inputs`. */
  function Preflight(psbt: Psbt, fingerprint: Fingerprint): (r: Step)
    ensures r.Ok? ==> forall i :: 0 <= i < |psbt.inputs| ==> EntryFor(psbt.inputs[i].derivation, fingerprint).Some?
  {
    if psbt.inputs == [] then Err(EmptyPsbt) else PreflightFrom(psbt, fingerprint, 0)
  }

  // --- Unlocking -----------------------------------------------------------

  /** The wrapped key unwraps to 32 bytes that open the signer's blob, the blob was sealed for the
      signer's own slot, and its entropy leads to a master key with the declared fingerprint. */
  ghost predicate OpensTo(k: KeyHost, signer: LocalSigner, master: Bytes) {
    exists kek, entropy, seed ::
      && k.unwrapKek(signer.slot, signer.wrappedKek) == Some(kek) && |kek| == 32
      && k.openBlob(kek, signer.blob) == Some((signer.slot, entropy))
      && k.seedOf(entropy) == Some(seed) && k.masterOf(seed) == Some(master)
      && k.fingerprintOf(master) == signer.fingerprint
  }

  /** `unlock_master`: the unlocked key is the one declared for this signer and slot. */
  function UnlockMaster(k: KeyHost, signer: LocalSigner): (r: Result<Bytes, SignError>)
    ensures r.Ok? ==> OpensTo(k, signer, r.value)
    ensures r.Err? ==> forall master :: !OpensTo(k, signer, master)
  {
    match k.unwrapKek(signer.slot, signer.wrappedKek)
    case None => Err(Platform)
    case Some(kek) =>
      if |kek| != 32 then Err(InvalidKekLength)
      else match k.openBlob(kek, signer.blob)
           case None => Err(Blob)
           case Some((slot, entropy)) =>
             if slot != signer.slot then Err(InvalidSlot)
             else match k.seedOf(entropy)
                  case None => Err(SignError.Entropy)
                  case Some(seed) =>
                    match k.masterOf(seed)
                    case None => Err(Bip32)
                    case Some(master) =>
                      if k.fingerprintOf(master) != signer.fingerprint then Err(FingerprintMismatch) else Ok(master)
  }

  // --- Signing -------------------------------------------------------------

  datatype DerivedKey = DerivedKey(index: nat, key: PubKey, secret: Bytes)
  datatype Produced = Produced(index: nat, key: PubKey, ecdsa: Bytes)

  predicate HasEntries(psbt: Psbt, fingerprint: Fingerprint) {
    forall i :: 0 <= i < |psbt.inputs| ==> EntryFor(psbt.inputs[i].derivation, fingerprint).Some?
  }

  function DeriveInput(k: KeyHost, psbt: Psbt, master: Bytes, fingerprint: Fingerprint, i: nat)
    : Result<DerivedKey, SignError>
    requires HasEntries(psbt, fingerprint) && i < |psbt.inputs|
  {
    var e := EntryFor(psbt.inputs[i].derivation, fingerprint).value;
    match k.derivePriv(master, e.path)
    case None => Err(Bip32)
    case Some(secret) =>
      if k.publicOf(secret) != e.key then Err(PubkeyMismatch(i)) else Ok(DerivedKey(i, e.key, secret))
  }

  /** The derivation loop of `sign_with_master` from input `i` on. */
  function DeriveFrom(k: KeyHost, psbt: Psbt, master: Bytes, fingerprint: Fingerprint, i: nat)
    : Result<seq<DerivedKey>, SignError>
    requires HasEntries(psbt, fingerprint) && i <= |psbt.inputs|
    decreases |psbt.inputs| - i
  {
    if i == |psbt.inputs| then Ok([])
    else match DeriveInput(k, psbt, master, fingerprint, i)
         case Err(e) => Err(e)
         case Ok(first) =>
           match DeriveFrom(k, psbt, master, fingerprint, i + 1)
           case Err(e) => Err(e)
           case Ok(rest) => Ok([first] + rest)
  }

  function Produce(h: Host, k: KeyHost, psbt: Psbt, d: DerivedKey): Result<Produced, SignError>
    requires d.index < |psbt.inputs|
  {
    match Message(h, psbt.tx, d.index, psbt.inputs[d.index])
    case Err(e) => Err(e)
    case Ok(m) =>
      var sig := k.signLowR(m, d.secret);
      if h.normalizeS(sig) != sig then Err(SelfVerificationFailed)
      else if !h.verifyEcdsa(m, sig, d.key) then Err(SelfVerificationFailed)
      else Ok(Produced(d.index, d.key, sig))
  }

  predicate Indexed(psbt: Psbt, derived: seq<DerivedKey>) {
    forall j :: 0 <= j < |derived| ==> derived[j].index < |psbt.inputs|
  }

  /** The first loop of `sign_inputs_inner` from key `j` on. */
  function ProduceFrom(h: Host, k: KeyHost, psbt: Psbt, derived: seq<DerivedKey>, j: nat): Result<seq<Produced>,
                       SignError>
    requires Indexed(psbt, derived) && j <= |derived|
    decreases |derived| - j
  {
    if j == |derived| then Ok([])
    else match Produce(h, k, psbt, derived[j])
         case Err(e) => Err(e)
         case Ok(first) =>
           match ProduceFrom(h, k, psbt, derived, j + 1)
           case Err(e) => Err(e)
           case Ok(rest) => Ok([first] + rest)
  }

  /** One pass of the second loop: the signature goes in and the sighash field says ALL. */
  function WithSignature(input: Input, p: Produced): Input {
    input.(partialSigs := InsertSig(input.partialSigs, PublicKey(true, p.key), Signature(p.ecdsa, All)),
           sighashType := Some(1))
  }

  /** The second loop of `sign_inputs_inner` after `n` signatures. */
  function Inserted(psbt: Psbt, produced: seq<Produced>, n: nat): (r: Psbt)
    requires n <= |produced| && forall j :: 0 <= j < |produced| ==> produced[j].index < |psbt.inputs|
    ensures r.tx == psbt.tx && |r.inputs| == |psbt.inputs|
  {
    if n == 0 then psbt
    else
      var before, p := Inserted(psbt, produced, n - 1), produced[n - 1];
      before.(inputs := before.inputs[p.index := WithSignature(before.inputs[p.index], p)])
  }

  predicate InOrder(psbt: Psbt, produced: seq<Produced>) {
    |produced| == |psbt.inputs| && forall j :: 0 <= j < |produced| ==> produced[j].index == j
  }

  lemma {:induction false} DerivedInOrder(k: KeyHost, psbt: Psbt, master: Bytes, fingerprint: Fingerprint, i: nat)
    requires HasEntries(psbt, fingerprint) && i <= |psbt.inputs|
    ensures var r := DeriveFrom(k, psbt, master, fingerprint, i);
            r.Ok? ==> |r.value| == |psbt.inputs| - i
                      && forall j :: 0 <= j < |r.value| ==>
                           DeriveInput(k, psbt, master, fingerprint, i + j) == Ok(r.value[j])
    decreases |psbt.inputs| - i
  {
    hide DeriveInput;
    if i < |psbt.inputs| {
      DerivedInOrder(k, psbt, master, fingerprint, i + 1);
      var r, rest := DeriveFrom(k, psbt, master, fingerprint, i), DeriveFrom(k, psbt, master, fingerprint, i + 1);
      if r.Ok? {
        forall j | 0 <= j < |r.value| ensures DeriveInput(k, psbt, master, fingerprint, i + j) == Ok(r.value[j]) {
          if j > 0 {
            assert DeriveInput(k, psbt, master, fingerprint, i + 1 + (j - 1)) == Ok(rest.value[j - 1]);
          }
        }
      }
    }
  }

  lemma {:induction false} ProducedInOrder(h: Host, k: KeyHost, psbt: Psbt, derived: seq<DerivedKey>, j: nat)
    requires Indexed(psbt, derived) && j <= |derived|
    ensures var r := ProduceFrom(h, k, psbt, derived, j);
            r.Ok? ==> |r.value| == |derived| - j
                      && forall n :: 0 <= n < |r.value| ==> Produce(h, k, psbt, derived[j + n]) == Ok(r.value[n])
    decreases |derived| - j
  {
    hide Produce;
    if j < |derived| {
      ProducedInOrder(h, k, psbt, derived, j + 1);
      var r, rest := ProduceFrom(h, k, psbt, derived, j), ProduceFrom(h, k, psbt, derived, j + 1);
      if r.Ok? {
        forall n | 0 <= n < |r.value| ensures Produce(h, k, psbt, derived[j + n]) == Ok(r.value[n]) {
          if n > 0 {
            assert Produce(h, k, psbt, derived[j + 1 + (n - 1)]) == Ok(rest.value[n - 1]);
          }
        }
      }
    }
  }

  /** The derived keys are those of the inputs, one each and in order. */
  lemma {:induction false} DerivedKeys(k: KeyHost, psbt: Psbt, master: Bytes, fingerprint: Fingerprint)
    requires HasEntries(psbt, fingerprint) && DeriveFrom(k, psbt, master, fingerprint, 0).Ok?
    ensures var derived := DeriveFrom(k, psbt, master, fingerprint, 0).value;
            && Indexed(psbt, derived) && |derived| == |psbt.inputs|
            && forall i :: 0 <= i < |derived| ==>
                 derived[i].index == i && derived[i].key == EntryFor(psbt.inputs[i].derivation, fingerprint).value.key
  {
    hide DeriveFrom;
    DerivedInOrder(k, psbt, master, fingerprint, 0);
    var derived := DeriveFrom(k, psbt, master, fingerprint, 0).value;
    forall i | 0 <= i < |derived|
      ensures derived[i].index == i && derived[i].key == EntryFor(psbt.inputs[i].derivation, fingerprint).value.key
    {
      assert DeriveInput(k, psbt, master, fingerprint, 0 + i) == Ok(derived[i]);
    }
  }

  lemma {:induction false} ProducedSigs(h: Host, k: KeyHost, psbt: Psbt, derived: seq<DerivedKey>)
    requires Indexed(psbt, derived) && ProduceFrom(h, k, psbt, derived, 0).Ok?
    ensures var produced := ProduceFrom(h, k, psbt, derived, 0).value;
            && |produced| == |derived|
            && forall i :: 0 <= i < |produced| ==>
                 && produced[i].index == derived[i].index && produced[i].key == derived[i].key
                 && Produce(h, k, psbt, derived[i]) == Ok(produced[i])
  {
    hide ProduceFrom;
    ProducedInOrder(h, k, psbt, derived, 0);
    var produced := ProduceFrom(h, k, psbt, derived, 0).value;
    forall i | 0 <= i < |produced|
      ensures produced[i].index == derived[i].index && produced[i].key == derived[i].key
      ensures Produce(h, k, psbt, derived[i]) == Ok(produced[i])
    {
      assert Produce(h, k, psbt, derived[0 + i]) == Ok(produced[i]);
    }
  }

  function Signatures(h: Host, k: KeyHost, psbt: Psbt, master: Bytes, fingerprint: Fingerprint)
    : (r: Result<seq<Produced>, SignError>)
    requires HasEntries(psbt, fingerprint)
    ensures r.Ok? ==> InOrder(psbt, r.value)
  {
    match DeriveFrom(k, psbt, master, fingerprint, 0)
    case Err(e) => Err(e)
    case Ok(derived) =>
      DerivedKeys(k, psbt, master, fingerprint);
      var produced := ProduceFrom(h, k, psbt, derived, 0);
      assert produced.Ok? ==> InOrder(psbt, produced.value) by {
        if produced.Ok? {
          ProducedSigs(h, k, psbt, derived);
        }
      }
      produced
  }

  /** `sign_with_master`. */
  function SignWithMaster(h: Host, k: KeyHost, psbt: Psbt, master: Bytes, fingerprint: Fingerprint): Result<Psbt,
                          SignError>
    requires HasEntries(psbt, fingerprint)
  {
    match Signatures(h, k, psbt, master, fingerprint)
    case Err(e) => Err(e)
    case Ok(produced) => Ok(Inserted(psbt, produced, |produced|))
  }

  /** `LocalSigner::sign`, as its result. */
  function LocalSign(h: Host, k: KeyHost, signer: LocalSigner, psbt: Psbt): Result<Psbt, SignError> {
    match Preflight(psbt, signer.fingerprint)
    case Err(e) => Err(e)
    case Ok(_) =>
      match UnlockMaster(k, signer)
      case Err(e) => Err(e)
      case Ok(master) => SignWithMaster(h, k, psbt, master, signer.fingerprint)
  }

  // --- What signing leaves -------------------------------------------------

  lemma {:induction false} InsertedEach(psbt: Psbt, produced: seq<Produced>, n: nat)
    requires InOrder(psbt, produced) && n <= |produced|
    ensures var r := Inserted(psbt, produced, n);
            && r == psbt.(inputs := r.inputs) && |r.inputs| == |psbt.inputs|
            && (forall i :: 0 <= i < n ==> r.inputs[i] == WithSignature(psbt.inputs[i], produced[i]))
            && (forall i :: n <= i < |psbt.inputs| ==> r.inputs[i] == psbt.inputs[i])
  {
    hide WithSignature;
    if n > 0 {
      InsertedEach(psbt, produced, n - 1);
    }
  }

  /** Nothing of the PSBT changes but the signature maps and the sighash fields; each map gains
      the signer's own signature and keeps every other one. */
  ghost predicate OnlySigned(input: Input, input': Input, key: PublicKey) {
    && input' == input.(partialSigs := input'.partialSigs, sighashType := Some(1))
    && Lookup(input'.partialSigs, key).Some?
    && forall e :: e in input'.partialSigs || e in input.partialSigs ==>
         e.key == key || (e in input'.partialSigs && e in input.partialSigs)
  }

  lemma WithSignatureMeaning(h: Host, tx: Transaction, i: nat, input: Input, p: Produced, fingerprint: Fingerprint)
    requires EntryFor(input.derivation, fingerprint).Some? && EntryFor(input.derivation, fingerprint).value.key == p.key
    requires Message(h, tx, i, input).Ok? && h.verifyEcdsa(Message(h, tx, i, input).value, p.ecdsa, p.key)
    ensures SignedBy(h, tx, i, WithSignature(input, p), fingerprint)
    ensures OnlySigned(input, WithSignature(input, p), PublicKey(true, p.key))
    ensures Lookup(WithSignature(input, p).partialSigs, PublicKey(true, p.key)) == Some(Signature(p.ecdsa, All))
  {
    var input' := WithSignature(input, p);
    var e := SigEntry(PublicKey(true, p.key), Signature(p.ecdsa, All));
    assert e in input'.partialSigs;
    LookupUnique(input'.partialSigs, e);
  }

  /** A signature of another key survives, and one of the same key is replaced by a valid one. */
  lemma {:induction false} OthersKept(h: Host, tx: Transaction, i: nat, input: Input, input': Input,
                                      mine: Fingerprint, other: Fingerprint)
    requires SignedBy(h, tx, i, input', mine) && SignedBy(h, tx, i, input, other)
    requires EntryFor(input.derivation, mine).Some?
    requires OnlySigned(input, input', PublicKey(true, EntryFor(input.derivation, mine).value.key))
    ensures SignedBy(h, tx, i, input', other)
  {
    var key := PublicKey(true, EntryFor(input.derivation, other).value.key);
    if key != PublicKey(true, EntryFor(input.derivation, mine).value.key) {
      var sig := Lookup(input.partialSigs, key).value;
      LookupUnique(input'.partialSigs, SigEntry(key, sig));
    }
  }

  ghost predicate OnlySignedAll(psbt: Psbt, psbt': Psbt, fingerprint: Fingerprint) {
    && HasEntries(psbt, fingerprint)
    && psbt' == psbt.(inputs := psbt'.inputs)
    && |psbt'.inputs| == |psbt.inputs|
    && forall i :: 0 <= i < |psbt.inputs| ==>
         OnlySigned(psbt.inputs[i], psbt'.inputs[i], PublicKey(true, EntryFor(psbt.inputs[i].derivation,
             fingerprint).value.key))
  }

  lemma SignaturesMeaning(h: Host, k: KeyHost, psbt: Psbt, master: Bytes, fingerprint: Fingerprint, i: nat)
    requires HasEntries(psbt, fingerprint) && Signatures(h, k, psbt, master, fingerprint).Ok? && i < |psbt.inputs|
    ensures var p, input := Signatures(h, k, psbt, master, fingerprint).value[i], psbt.inputs[i];
            && p.key == EntryFor(input.derivation, fingerprint).value.key
            && Message(h, psbt.tx, i, input).Ok?
            && h.verifyEcdsa(Message(h, psbt.tx, i, input).value, p.ecdsa, p.key)
  {
    hide DeriveFrom, ProduceFrom, Message;
    DerivedKeys(k, psbt, master, fingerprint);
    var derived := DeriveFrom(k, psbt, master, fingerprint, 0).value;
    ProducedSigs(h, k, psbt, derived);
    assert Produce(h, k, psbt, derived[i]).Ok?;
  }

  /** A successful local signature leaves the transaction and everything else as it was, and on
      every input a valid `SIGHASH_ALL` signature of the signer's key beside all earlier ones. */
  lemma LocalSignMeaning(h: Host, k: KeyHost, signer: LocalSigner, psbt: Psbt)
    requires LocalSign(h, k, signer, psbt).Ok?
    ensures OnlySignedAll(psbt, LocalSign(h, k, signer, psbt).value, signer.fingerprint)
    ensures AllSignedBy(h, LocalSign(h, k, signer, psbt).value, signer.fingerprint)
  {
    hide SignedBy, OnlySigned, PreflightFrom, UnlockMaster, Signatures, WithSignature, Message;
    var master := UnlockMaster(k, signer).value;
    var produced := Signatures(h, k, psbt, master, signer.fingerprint).value;
    var psbt' := LocalSign(h, k, signer, psbt).value;
    InsertedEach(psbt, produced, |produced|);
    forall i | 0 <= i < |psbt.inputs|
      ensures SignedBy(h, psbt'.tx, i, psbt'.inputs[i], signer.fingerprint)
      ensures OnlySigned(psbt.inputs[i], psbt'.inputs[i],
                         PublicKey(true, EntryFor(psbt.inputs[i].derivation, signer.fingerprint).value.key))
    {
      SignaturesMeaning(h, k, psbt, master, signer.fingerprint, i);
      WithSignatureMeaning(h, psbt.tx, i, psbt.inputs[i], produced[i], signer.fingerprint);
      assert psbt'.inputs[i] == WithSignature(psbt.inputs[i], produced[i]);
    }
  }

  /** Every other signer's valid signatures are still there and valid. */
  lemma LocalSignKeepsOthers(h: Host, k: KeyHost, signer: LocalSigner, psbt: Psbt, other: Fingerprint)
    requires LocalSign(h, k, signer, psbt).Ok? && AllSignedBy(h, psbt, other)
    ensures AllSignedBy(h, LocalSign(h, k, signer, psbt).value, other)
  {
    hide SignedBy, OnlySigned, LocalSign;
    LocalSignMeaning(h, k, signer, psbt);
    var psbt' := LocalSign(h, k, signer, psbt).value;
    forall i | 0 <= i < |psbt'.inputs| ensures SignedBy(h, psbt'.tx, i, psbt'.inputs[i], other) {
      OthersKept(h, psbt.tx, i, psbt.inputs[i], psbt'.inputs[i], signer.fingerprint, other);
    }
  }

  /** After a local signature every signature of every input is `SIGHASH_ALL`. */
  lemma LocalSignAllAll(h: Host, k: KeyHost, signer: LocalSigner, psbt: Psbt, i: nat)
    requires LocalSign(h, k, signer, psbt).Ok? && i < |LocalSign(h, k, signer, psbt).value.inputs|
    ensures AllSighashAll(LocalSign(h, k, signer, psbt).value.inputs[i].partialSigs)
  {
    PreflightAllAll(h, k, signer, psbt);
    LocalSignMeaning(h, k, signer, psbt);
    var psbt' := LocalSign(h, k, signer, psbt).value;
    var sigs, sigs' := psbt.inputs[i].partialSigs, psbt'.inputs[i].partialSigs;
    var key := PublicKey(true, EntryFor(psbt.inputs[i].derivation, signer.fingerprint).value.key);
    assert OnlySigned(psbt.inputs[i], psbt'.inputs[i], key);
    assert SignedBy(h, psbt'.tx, i, psbt'.inputs[i], signer.fingerprint);
    hide LocalSign, Message, Preflight;
    forall n | 0 <= n < |sigs'| ensures sigs'[n].sig.sighashType.All? {
      if sigs'[n].key == key {
        LookupUnique(sigs', sigs'[n]);
      } else {
        assert sigs'[n] in sigs;
      }
    }
  }

  lemma PreflightAllAll(h: Host, k: KeyHost, signer: LocalSigner, psbt: Psbt)
    requires LocalSign(h, k, signer, psbt).Ok?
    ensures forall i :: 0 <= i < |psbt.inputs| ==> AllSighashAll(psbt.inputs[i].partialSigs)
  {
    hide UnlockMaster, SignWithMaster;
    forall i | 0 <= i < |psbt.inputs| ensures AllSighashAll(psbt.inputs[i].partialSigs) {
      assert PreflightInput(psbt.inputs[i], signer.fingerprint, i).Ok?;
    }
  }
}
