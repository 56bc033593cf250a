/** The verifier as it runs: loops with early returns and running sums, each proved equal to
    the check it implements. */
module VerifyLoops {
  import opened Machine
  import opened Errors
  import opened Bitcoin
  import opened Bip67
  import opened Descriptor
  import opened Derive
  import opened Psbts
  import opened IndexSearch
  import opened Verify
  import opened Gather
  import DescriptorParser

  method CheckV8(psbt: Psbt) returns (r: Check)
    ensures r == V8(psbt)
  {
    if |psbt.inputs| != |psbt.tx.inputs| || |psbt.outputs| != |psbt.tx.outputs| || psbt.tx.inputs == [] {
      return Err(InconsistentPsbt);
    }
    if |psbt.tx.inputs| > MAX_PSBT_INS_OR_OUTS || |psbt.tx.outputs| > MAX_PSBT_INS_OR_OUTS {
      return Err(TooManyInputsOutputs);
    }
    for i := 0 to |psbt.tx.inputs|
      invariant forall k :: 0 <= k < i ==> psbt.tx.inputs[k].scriptSig == [] && psbt.tx.inputs[k].witnessStack == []
    {
      if psbt.tx.inputs[i].scriptSig != [] || psbt.tx.inputs[i].witnessStack != [] {
        return Err(InconsistentPsbt);
      }
    }
    if psbt.proprietary {
      return Err(ProprietaryField);
    }
    for i := 0 to |psbt.inputs|
      invariant forall k :: 0 <= k < i ==> !psbt.inputs[k].proprietary
    {
      if psbt.inputs[i].proprietary {
        return Err(ProprietaryField);
      }
    }
    for i := 0 to |psbt.outputs|
      invariant forall k :: 0 <= k < i ==> !psbt.outputs[k].proprietary
    {
      if psbt.outputs[i].proprietary {
        return Err(ProprietaryField);
      }
    }
    return Ok(());
  }

  method CheckV9(psbt: Psbt) returns (r: Check)
    ensures r == V9From(psbt, 0)
  {
    for i := 0 to |psbt.inputs|
      invariant V9From(psbt, 0) == V9From(psbt, i)
    {
      if psbt.inputs[i].witnessUtxo.None? {
        return Err(if psbt.inputs[i].nonWitnessUtxo.Some? then NonWitnessUtxoOnly(i) else MissingWitnessUtxo(i));
      }
    }
    return Ok(());
  }

  method CheckV7(psbt: Psbt, policy: VerifyPolicy) returns (r: Check)
    requires SameShape(psbt) && AllWitnessUtxos(psbt)
    ensures r == V7From(psbt, policy, 0)
  {
    for i := 0 to |psbt.inputs|
      invariant V7From(psbt, policy, 0) == V7From(psbt, policy, i)
    {
      var prevout := psbt.tx.inputs[i].previousOutput;
      if prevout !in policy.knownUtxos {
        return Err(UnknownInput(i));
      }
      var known, utxo := policy.knownUtxos[prevout], psbt.inputs[i].witnessUtxo.value;
      if utxo.value != known.value || utxo.scriptPubkey != known.scriptPubkey {
        return Err(MismatchedUtxo(i));
      }
    }
    return Ok(());
  }

  method CheckV2(c: Curve, psbt: Psbt, receive: ParsedDescriptor, change: Option<ParsedDescriptor>, gap: u32)
    returns (r: Check)
    requires AllWitnessUtxos(psbt)
    ensures r == V2From(c, psbt, receive, change, gap, 0)
  {
    hide Search, HintOf;
    for i := 0 to |psbt.inputs|
      invariant V2From(c, psbt, receive, change, gap, 0) == V2From(c, psbt, receive, change, gap, i)
    {
      var script := psbt.inputs[i].witnessUtxo.value.scriptPubkey;
      var hint := Bip32IndexHint(psbt.inputs[i].derivation);
      var ours := MatchesAnyDerived(c, script, receive, change, gap, hint);
      if ours.Err? {
        return Err(VerifyError.Derive(ours.error));
      }
      if !ours.value {
        return Err(ForeignInput(i));
      }
    }
    return Ok(());
  }

  method MatchesAnyDerived(c: Curve, script: Bytes, receive: ParsedDescriptor, change: Option<ParsedDescriptor>,
                           gap: u32, hint: Option<u32>) returns (r: Result<bool, DeriveError>)
    ensures r == MatchesAny(c, script, receive, change, gap, hint)
  {
    hide Search;
    var found := FindIndexMatching(c, receive, script, gap, hint);
    if found.Err? {
      return Err(found.error);
    }
    if found.value.Some? {
      return Ok(true);
    }
    if change.None? {
      return Ok(false);
    }
    found := FindIndexMatching(c, change.value, script, gap, hint);
    if found.Err? {
      return Err(found.error);
    }
    return Ok(found.value.Some?);
  }

  /** The entry loop of `check_v4_change`, with the set of fingerprints seen so far. */
  method CheckV4Entries(derivation: Derivation, d: ParsedDescriptor, index: u32)
    returns (r: V4Outcome, keys: seq<PubKey>)
    ensures r == V4From(derivation, d, index, 0)
    ensures r.Passes? ==> keys == MapKeys(derivation)
  {
    hide OriginSteps, KeyFor;
    var seen: set<Fingerprint> := {};
    keys := [];
    for i := 0 to |derivation|
      invariant V4From(derivation, d, index, 0) == V4From(derivation, d, index, i)
      invariant forall f :: f in seen <==> exists j :: 0 <= j < i && derivation[j].fingerprint == f
      invariant |keys| == i && forall j :: 0 <= j < i ==> keys[j] == derivation[j].key
    {
      var e := derivation[i];
      if e.fingerprint in seen {
        return Fails, keys;
      }
      seen := seen + {e.fingerprint};
      var key := KeyFor(d, e.fingerprint);
      if key.None? {
        return Fails, keys;
      }
      var outcome := PathIsChangeAt(e.path, key.value, index);
      if !outcome.Passes? {
        return outcome, keys;
      }
      keys := keys + [e.key];
    }
    return Passes, keys;
  }

  method CheckV4Change(c: Curve, derivation: Derivation, d: ParsedDescriptor, index: u32) returns (r: V4Outcome)
    ensures r == V4(c, derivation, d, index)
  {
    hide DeriveAt, V4From;
    var derived := DeriveAt(c, d, index);
    if derived.Err? || |derivation| != 3 {
      return Fails;
    }
    var outcome, keys := CheckV4Entries(derivation, d, index);
    if !outcome.Passes? {
      return outcome;
    }
    if KeySet(PublicKeys(derived.value.children)) != KeySet(keys) {
      return Fails;
    }
    return Passes;
  }

  method CheckChangeOutput(c: Curve, derivation: Derivation, change: Option<ParsedDescriptor>, script: Bytes,
                           gap: u32, i: nat)
    returns (r: Check)
    ensures r == ChangeOutput(c, derivation, change, script, gap, i)
  {
    hide Search, HintOf, V4;
    if change.None? {
      return Err(ForeignChangeOutput(i));
    }
    var hint := Bip32IndexHint(derivation);
    var found := FindIndexMatching(c, change.value, script, gap, hint);
    if found.Err? {
      return Err(VerifyError.Derive(found.error));
    }
    if found.value.None? {
      return Err(ForeignChangeOutput(i));
    }
    var outcome := CheckV4Change(c, derivation, change.value, found.value.value);
    if outcome.Fails? {
      return Err(MismatchedDerivation(i));
    }
    if outcome.Panics? {
      return Err(VerifierPanics);
    }
    return Ok(());
  }

  method ClassifyOutput(h: Host, psbt: Psbt, change: Option<ParsedDescriptor>, policy: VerifyPolicy, i: nat)
    returns (r: Result<ClassifiedOutput, VerifyError>)
    requires SameShape(psbt) && i < |psbt.outputs|
    ensures r == Classify(h, psbt, change, policy, i)
  {
    hide ChangeOutput, IsDeclared;
    var txout := psbt.tx.outputs[i];
    var address := h.address(policy.network, txout.scriptPubkey);
    if address.None? {
      return Err(InvalidOutputAddress(i));
    }
    if IsDeclared(policy, address.value) {
      return Ok(ClassifiedOutput(false, txout.value, address.value));
    }
    var checked := CheckChangeOutput(h.curve, psbt.outputs[i].derivation, change, txout.scriptPubkey,
        policy.gapLimit, i);
    if checked.Err? {
      return Err(checked.error);
    }
    return Ok(ClassifiedOutput(true, txout.value, address.value));
  }

  method ClassifyOutputs(h: Host, psbt: Psbt, change: Option<ParsedDescriptor>, policy: VerifyPolicy)
    returns (r: Result<seq<ClassifiedOutput>, VerifyError>)
    requires SameShape(psbt)
    ensures r == ClassifyFrom(h, psbt, change, policy, 0)
  {
    hide Classify, SoFar;
    ghost var all := ClassifyFrom(h, psbt, change, policy, 0);
    var done := [];
    SoFarStart(all);
    for i := 0 to |psbt.outputs|
      invariant SoFar(all, done, ClassifyFrom(h, psbt, change, policy, i))
    {
      var c := ClassifyOutput(h, psbt, change, policy, i);
      if c.Err? {
        SoFarErr(all, done, c.error);
        return Err(c.error);
      }
      SoFarOneMore(all, done, c.value, ClassifyFrom(h, psbt, change, policy, i + 1));
      done := done + [c.value];
    }
    SoFarEnd(all, done);
    return Ok(done);
  }

  lemma {:induction false} SumOutputsPrefix(outputs: seq<TxOut>, i: nat)
    requires i <= |outputs|
    ensures SumOutputs(outputs[..i]) <= SumOutputs(outputs)
  {
    if i < |outputs| {
      assert outputs[..|outputs| - 1][..i] == outputs[..i];
      SumOutputsPrefix(outputs[..|outputs| - 1], i);
    } else {
      assert outputs[..i] == outputs;
    }
  }

  lemma {:induction false} SumInputsPrefix(inputs: seq<Input>, i: nat)
    requires i <= |inputs| && forall k :: 0 <= k < |inputs| ==> inputs[k].witnessUtxo.Some?
    ensures SumInputs(inputs[..i]) <= SumInputs(inputs)
  {
    if i < |inputs| {
      assert inputs[..|inputs| - 1][..i] == inputs[..i];
      SumInputsPrefix(inputs[..|inputs| - 1], i);
    } else {
      assert inputs[..i] == inputs;
    }
  }

  /** Checked sums: they overflow exactly when the exact sum does not fit. */
  method CheckedSums(psbt: Psbt) returns (r: Option<(u64, u64)>)
    requires AllWitnessUtxos(psbt)
    ensures r.Some? <==> SumInputs(psbt.inputs) <= U64_MAX && SumOutputs(psbt.tx.outputs) <= U64_MAX
    ensures r.Some? ==> r.value == (SumInputs(psbt.inputs), SumOutputs(psbt.tx.outputs))
  {
    var sumIn: u64 := 0;
    for i := 0 to |psbt.inputs|
      invariant sumIn == SumInputs(psbt.inputs[..i])
    {
      SumInputsPrefix(psbt.inputs, i + 1);
      assert psbt.inputs[..i + 1][..i] == psbt.inputs[..i];
      var v := psbt.inputs[i].witnessUtxo.value.value;
      if sumIn + v > U64_MAX {
        return None;
      }
      sumIn := sumIn + v;
    }
    assert psbt.inputs[..|psbt.inputs|] == psbt.inputs;
    var sumOut: u64 := 0;
    for i := 0 to |psbt.tx.outputs|
      invariant sumOut == SumOutputs(psbt.tx.outputs[..i])
    {
      SumOutputsPrefix(psbt.tx.outputs, i + 1);
      assert psbt.tx.outputs[..i + 1][..i] == psbt.tx.outputs[..i];
      var v := psbt.tx.outputs[i].value;
      if sumOut + v > U64_MAX {
        return None;
      }
      sumOut := sumOut + v;
    }
    assert psbt.tx.outputs[..|psbt.tx.outputs|] == psbt.tx.outputs;
    return Some((sumIn, sumOut));
  }

  method CheckV5(h: Host, psbt: Psbt, policy: VerifyPolicy) returns (r: Result<(u64, u64), VerifyError>)
    requires AllWitnessUtxos(psbt)
    ensures r == V5(h, psbt, policy)
  {
    hide SumInputs, SumOutputs;
    var sums := CheckedSums(psbt);
    if sums.None? || sums.value.1 >= sums.value.0 {
      return Err(FeeNonPositive);
    }
    var fee: u64 := sums.value.0 - sums.value.1;
    if fee > policy.maxAbsoluteFee {
      return Err(FeeTooHigh(fee, policy.maxAbsoluteFee));
    }
    if policy.declaredFeeSats.Some? && fee != policy.declaredFeeSats.value {
      return Err(FeeMismatch(fee, policy.declaredFeeSats.value));
    }
    var vsize := Max(h.vsize(psbt.tx), 1);
    DivCeilBound(fee, vsize);
    var feerate: u64 := DivCeil(fee, vsize);
    if feerate > policy.maxFeerate {
      return Err(FeerateTooHigh(feerate, policy.maxFeerate));
    }
    return Ok((fee, feerate));
  }

  method CheckV6(classified: seq<ClassifiedOutput>, policy: VerifyPolicy) returns (r: Check)
    ensures r == V6(classified, policy)
  {
    var actual: u64 := 0;
    for i := 0 to |classified|
      invariant actual == Folded(classified[..i], false)
    {
      assert classified[..i + 1][..i] == classified[..i];
      if !classified[i].isChange {
        actual := SatAdd(actual, classified[i].amountSats);
      }
    }
    assert classified[..|classified|] == classified;
    if actual != policy.declaredAmountSats {
      return Err(AmountMismatch(actual, policy.declaredAmountSats));
    }
    return Ok(());
  }

  method CheckV10(h: Host, psbt: Psbt) returns (r: Check)
    ensures r == V10From(h, psbt, 0)
  {
    for i := 0 to |psbt.inputs|
      invariant V10From(h, psbt, 0) == V10From(h, psbt, i)
    {
      var input := psbt.inputs[i];
      if input.sighashType.Some? && !IsSighashAll(input.sighashType.value) {
        return Err(NonSighashAll(i));
      }
      for k := 0 to |input.partialSigs|
        invariant V10Input(h, input, i) == V10SigsFrom(h, input.partialSigs, k, i)
      {
        var sig := input.partialSigs[k].sig;
        if !sig.sighashType.All? {
          return Err(NonSighashAll(i));
        }
        if h.normalizeS(sig.ecdsa) != sig.ecdsa {
          return Err(BadSignature(i));
        }
      }
    }
    return Ok(());
  }

  /** The loop that builds the verdict: both sums and the first address, in one pass. */
  method Summarise(classified: seq<ClassifiedOutput>) returns (amount: u64, change: u64, recipient: string)
    ensures amount == Folded(classified, false) && change == Folded(classified, true)
    ensures recipient == FirstAddress(classified)
  {
    amount, change, recipient := 0, 0, "";
    for i := 0 to |classified|
      invariant amount == Folded(classified[..i], false) && change == Folded(classified[..i], true)
      invariant FirstAddress(classified) == if recipient == "" then FirstAddress(classified[i..]) else recipient
    {
      assert classified[..i + 1][..i] == classified[..i] && classified[i..][1..] == classified[i + 1..];
      var c := classified[i];
      if c.isChange {
        change := SatAdd(change, c.amountSats);
      } else {
        amount := SatAdd(amount, c.amountSats);
        if recipient == "" {
          recipient := c.address;
        }
      }
    }
    assert classified[..|classified|] == classified;
  }

  method ParseWith(c: Curve, descriptor: string) returns (r: Result<ParsedDescriptor, VerifyError>)
    ensures r == ParsedWith(c, descriptor)
  {
    var parsed := DescriptorParser.Parse(descriptor, xpub => c.decodeXpub(xpub).Some?);
    r := parsed.MapErr(e => VerifyError.Descriptor(e));
  }

  method ParseChange(c: Curve, policy: VerifyPolicy) returns (r: Result<Option<ParsedDescriptor>, VerifyError>)
    ensures r == ParsedChange(c, policy)
  {
    hide ParsedWith;
    if policy.changeDescriptor.None? {
      return Ok(None);
    }
    var parsed := ParseWith(c, policy.changeDescriptor.value);
    if parsed.Err? {
      return Err(parsed.error);
    }
    return Ok(Some(parsed.value));
  }

  method CheckInputs(h: Host, psbt: Psbt, receive: ParsedDescriptor, change: Option<ParsedDescriptor>,
                     policy: VerifyPolicy)
    returns (r: Check)
    ensures r == InputChecks(h, psbt, receive, change, policy)
  {
    hide V2From;
    r := CheckV8(psbt);
    if r.Err? {
      return;
    }
    r := CheckV9(psbt);
    if r.Err? {
      return;
    }
    r := CheckV7(psbt, policy);
    if r.Err? {
      return;
    }
    r := CheckV2(h.curve, psbt, receive, change, policy.gapLimit);
  }

  method CheckOutputs(h: Host, psbt: Psbt, change: Option<ParsedDescriptor>, policy: VerifyPolicy)
    returns (r: Result<PsbtVerdict, VerifyError>)
    requires SameShape(psbt) && AllWitnessUtxos(psbt)
    ensures r == OutputChecks(h, psbt, change, policy)
  {
    hide ClassifyFrom, V5, V6, V10From, Folded;
    var classified := ClassifyOutputs(h, psbt, change, policy);
    if classified.Err? {
      return Err(classified.error);
    }
    var fee := CheckV5(h, psbt, policy);
    if fee.Err? {
      return Err(fee.error);
    }
    var amounts := CheckV6(classified.value, policy);
    if amounts.Err? {
      return Err(amounts.error);
    }
    var signatures := CheckV10(h, psbt);
    if signatures.Err? {
      return Err(signatures.error);
    }
    var amount, changed, recipient := Summarise(classified.value);
    if policy.declaredRecipients != [] {
      recipient := policy.declaredRecipients[0];
    }
    return Ok(PsbtVerdict(recipient, amount, changed, fee.value.0, fee.value.1));
  }

  /** `verify`. */
  method VerifyPsbt(h: Host, psbt: Psbt, descriptor: string, policy: VerifyPolicy)
    returns (r: Result<PsbtVerdict, VerifyError>)
    ensures r == Verdict(h, psbt, descriptor, policy)
  {
    hide ParsedWith, ParsedChange, InputChecks, OutputChecks;
    var receive := ParseWith(h.curve, descriptor);
    if receive.Err? {
      return Err(receive.error);
    }
    var change := ParseChange(h.curve, policy);
    if change.Err? {
      return Err(change.error);
    }
    var inputs := CheckInputs(h, psbt, receive.value, change.value, policy);
    if inputs.Err? {
      return Err(inputs.error);
    }
    r := CheckOutputs(h, psbt, change.value, policy);
  }
}
