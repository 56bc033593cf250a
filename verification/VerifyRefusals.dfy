/** Which error answers which fault: a rejection names the first check that fails, in the verifier's
    order, and within it the first input or output at fault. */
module VerifyRefusals {
  import opened Machine
  import opened Errors
  import opened Bitcoin
  import opened Descriptor
  import opened Derive
  import opened Psbts
  import opened IndexSearch
  import opened Verify
  import opened VerifyMeaning
  import opened VerifyPanics

  // --- Structure -----------------------------------------------------------

  ghost predicate Signed(tx: Transaction) {
    exists i :: 0 <= i < |tx.inputs| && (tx.inputs[i].scriptSig != [] || tx.inputs[i].witnessStack != [])
  }

  ghost predicate Proprietary(psbt: Psbt) {
    || psbt.proprietary
    || (exists i :: 0 <= i < |psbt.inputs| && psbt.inputs[i].proprietary)
    || (exists i :: 0 <= i < |psbt.outputs| && psbt.outputs[i].proprietary)
  }

  /** V8 answers a missing or surplus map, a transaction without inputs and one already signed alike, the
      last only after the bound of a hundred, and looks at proprietary fields last. */
  lemma V8Refuses(psbt: Psbt)
    ensures var ins, outs := |psbt.tx.inputs|, |psbt.tx.outputs|;
            var shaped := |psbt.inputs| == ins && |psbt.outputs| == outs && ins > 0;
            var small := ins <= 100 && outs <= 100;
            && (V8(psbt) == Err(InconsistentPsbt) <==> !shaped || (small && Signed(psbt.tx)))
            && (V8(psbt) == Err(TooManyInputsOutputs) <==> shaped && !small)
            && (V8(psbt) == Err(ProprietaryField) <==> shaped && small && !Signed(psbt.tx) && Proprietary(psbt))
            && (V8(psbt).Ok? <==> shaped && small && !Signed(psbt.tx) && !Proprietary(psbt))
  {
  }

  // --- Inputs --------------------------------------------------------------

  /** V7 names the first input the watch-only wallet does not know, or knows otherwise. */
  lemma {:induction false} V7Names(psbt: Psbt, policy: VerifyPolicy, i: nat, k: nat)
    requires SameShape(psbt) && AllWitnessUtxos(psbt) && i <= k < |psbt.inputs|
    requires forall j :: i <= j < k ==> KnownAs(policy, psbt.tx.inputs[j], psbt.inputs[j].witnessUtxo.value)
    requires !KnownAs(policy, psbt.tx.inputs[k], psbt.inputs[k].witnessUtxo.value)
    ensures V7From(psbt, policy, i)
            == Err(if psbt.tx.inputs[k].previousOutput in policy.knownUtxos then MismatchedUtxo(k) else UnknownInput(k))
    decreases k - i
  {
    if i < k {
      V7Names(psbt, policy, i + 1, k);
    }
  }

  /** V2 names the first input that no descriptor derives, unless a derivation fails before. */
  lemma {:induction false} V2Names(c: Curve, psbt: Psbt, receive: ParsedDescriptor, change: Option<ParsedDescriptor>,
                                   gap: u32, i: nat, k: nat)
    requires AllWitnessUtxos(psbt) && i <= k < |psbt.inputs| && WindowDerives(c, receive, change, gap)
    requires forall j :: i <= j < k ==>
               InWallet(c, psbt.inputs[j].witnessUtxo.value.scriptPubkey, receive, change, gap)
    requires !InWallet(c, psbt.inputs[k].witnessUtxo.value.scriptPubkey, receive, change, gap)
    ensures V2From(c, psbt, receive, change, gap, i) == Err(ForeignInput(k))
    decreases k - i
  {
    hide MatchesAny, InWallet, WindowDerives, HintOf;
    var input := psbt.inputs[i];
    MatchesAnyMeaning(c, input.witnessUtxo.value.scriptPubkey, receive, change, gap, HintOf(input.derivation));
    if i < k {
      V2Names(c, psbt, receive, change, gap, i + 1, k);
    }
  }

  // --- Outputs -------------------------------------------------------------

  /** An output that is neither declared nor change: the error says whether it has an address at all,
      whether the change descriptor derives its script, and whether its map describes it. */
  lemma ClassifyRefuses(h: Host, psbt: Psbt, change: Option<ParsedDescriptor>, policy: VerifyPolicy, i: nat)
    requires SameShape(psbt) && i < |psbt.outputs| && !OutputOk(h, psbt, change, policy, i)
    requires change.Some? ==> Derivable(h.curve, change.value, policy.gapLimit)
    ensures var script := psbt.tx.outputs[i].scriptPubkey;
            var ours := change.Some? && Owned(h.curve, change.value, script, policy.gapLimit);
            Classify(h, psbt, change, policy, i)
            in (if h.address(policy.network, script).None? then {Err(InvalidOutputAddress(i))}
                else if !ours then {Err(ForeignChangeOutput(i))}
                else {Err(MismatchedDerivation(i)), Err(VerifierPanics)})
  {
    hide DeriveAt, V4, HintOf, Search, Owned, IsDeclared, IsChange;
    ClassifyIff(h, psbt, change, policy, i);
    if change.Some? {
      var script, derivation := psbt.tx.outputs[i].scriptPubkey, psbt.outputs[i].derivation;
      SearchSound(h.curve, change.value, script, policy.gapLimit, HintOf(derivation));
      HintedIsScan(h.curve, change.value, script, policy.gapLimit, HintOf(derivation));
    }
  }

  /** The first output refused gives the error. */
  lemma {:induction false} ClassifyNames(h: Host, psbt: Psbt, change: Option<ParsedDescriptor>, policy: VerifyPolicy,
                                         i: nat, k: nat)
    requires SameShape(psbt) && i <= k < |psbt.outputs|
    requires forall j :: i <= j < k ==> OutputOk(h, psbt, change, policy, j)
    requires !OutputOk(h, psbt, change, policy, k)
    ensures Classify(h, psbt, change, policy, k).Err?
    ensures ClassifyFrom(h, psbt, change, policy, i) == Err(Classify(h, psbt, change, policy, k).error)
    decreases k - i
  {
    hide Classify, OutputOk;
    ClassifyIff(h, psbt, change, policy, i);
    if i < k {
      ClassifyNames(h, psbt, change, policy, i + 1, k);
    }
  }

  // --- Fee and amount ------------------------------------------------------

  /** The least whole rate that pays the fee. */
  predicate RateIs(rate: nat, fee: nat, vsize: nat) {
    fee <= rate * vsize < fee + vsize
  }

  /** The fee errors in their order, with the numbers they report. */
  lemma V5Refuses(h: Host, psbt: Psbt, policy: VerifyPolicy)
    requires AllWitnessUtxos(psbt)
    ensures var sumIn, sumOut := SumInputs(psbt.inputs), SumOutputs(psbt.tx.outputs);
            var fee, vsize, r := sumIn - sumOut, Max(h.vsize(psbt.tx), 1), V5(h, psbt, policy);
            var counted := sumIn <= U64_MAX && sumOut <= U64_MAX && fee > 0;
            var declared := policy.declaredFeeSats.None? || policy.declaredFeeSats.value == fee;
            && (r == Err(FeeNonPositive) <==> !counted)
            && (counted && fee > policy.maxAbsoluteFee ==> r == Err(FeeTooHigh(fee, policy.maxAbsoluteFee)))
            && (counted && fee <= policy.maxAbsoluteFee && !declared ==>
                  r == Err(FeeMismatch(fee, policy.declaredFeeSats.value)))
            && (counted && fee <= policy.maxAbsoluteFee && declared
                && fee > policy.maxFeerate * vsize ==>
                  r.Err? && r.error.FeerateTooHigh? && r.error.maxSatVb == policy.maxFeerate
                  && RateIs(r.error.feerateSatVb, fee, vsize))
            && (r.Ok? ==> r.value.0 == fee && RateIs(r.value.1, fee, vsize))
  {
    hide SumInputs, SumOutputs, DivCeil;
    var sumIn, sumOut := SumInputs(psbt.inputs), SumOutputs(psbt.tx.outputs);
    var vsize := Max(h.vsize(psbt.tx), 1);
    if sumIn > sumOut {
      var fee := sumIn - sumOut;
      FeerateIff(fee, policy.maxFeerate, vsize);
      DivCeilBound(fee, vsize);
    }
  }

  // --- Signatures ----------------------------------------------------------

  lemma {:induction false} SignatureNames(h: Host, sigs: PartialSigs, k: nat, i: nat, j: nat)
    requires k <= j < |sigs| && !Canonical(h, sigs[j].sig)
    requires forall m :: k <= m < j ==> Canonical(h, sigs[m].sig)
    ensures V10SigsFrom(h, sigs, k, i)
            == Err(if sigs[j].sig.sighashType.All? then BadSignature(i) else NonSighashAll(i))
    decreases j - k
  {
    if k < j {
      SignatureNames(h, sigs, k + 1, i, j);
    }
  }

  /** The error of one input: its own sighash type first, then its first bad signature. */
  lemma InputNames(h: Host, input: Input, i: nat)
    requires !SignaturesOk(h, input)
    ensures input.sighashType !in {None, Some(1)} ==> V10Input(h, input, i) == Err(NonSighashAll(i))
    ensures input.sighashType in {None, Some(1)} ==>
              exists j :: 0 <= j < |input.partialSigs| && !Canonical(h, input.partialSigs[j].sig)
                && (forall m :: 0 <= m < j ==> Canonical(h, input.partialSigs[m].sig))
                && V10Input(h, input, i)
                   == Err(if input.partialSigs[j].sig.sighashType.All? then BadSignature(i) else NonSighashAll(i))
  {
    hide Canonical;
    if input.sighashType in {None, Some(1)} {
      var j := FirstBad(h, input.partialSigs);
      SignatureNames(h, input.partialSigs, 0, i, j);
    }
  }

  ghost function FirstBad(h: Host, sigs: PartialSigs): (j: nat)
    requires exists k :: 0 <= k < |sigs| && !Canonical(h, sigs[k].sig)
    ensures j < |sigs| && !Canonical(h, sigs[j].sig) && forall m :: 0 <= m < j ==> Canonical(h, sigs[m].sig)
    decreases |sigs|
  {
    var n := |sigs| - 1;
    if exists k :: 0 <= k < n && !Canonical(h, sigs[k].sig)
    then
      assert exists k :: 0 <= k < n && !Canonical(h, sigs[..n][k].sig);
      FirstBad(h, sigs[..n])
    else n
  }

  /** The first input with a bad signature gives the error. */
  lemma {:induction false} V10Names(h: Host, psbt: Psbt, i: nat, k: nat)
    requires i <= k < |psbt.inputs| && !SignaturesOk(h, psbt.inputs[k])
    requires forall j :: i <= j < k ==> SignaturesOk(h, psbt.inputs[j])
    ensures V10Input(h, psbt.inputs[k], k).Err? && V10From(h, psbt, i) == V10Input(h, psbt.inputs[k], k)
    decreases k - i
  {
    hide Canonical;
    assert V10Input(h, psbt.inputs[i], i).Ok? <==> SignaturesOk(h, psbt.inputs[i]);
    if i < k {
      V10Names(h, psbt, i + 1, k);
    }
  }

  // --- The order of the checks ---------------------------------------------

  lemma {:induction false} InputOrder(h: Host, psbt: Psbt, receive: ParsedDescriptor, change: Option<ParsedDescriptor>,
                                      policy: VerifyPolicy)
    ensures var r := InputChecks(h, psbt, receive, change, policy);
            && (V8(psbt).Err? ==> r == Err(V8(psbt).error))
            && (V8(psbt).Ok? && !AllWitnessUtxos(psbt) ==> r.Err? && r == V9From(psbt, 0))
            && (V8(psbt).Ok? && AllWitnessUtxos(psbt) && !AllKnown(policy, psbt.tx.inputs, psbt.inputs) ==>
                  r.Err? && r == V7From(psbt, policy, 0))
            && (V8(psbt).Ok? && AllKnown(policy, psbt.tx.inputs, psbt.inputs) ==>
                  AllWitnessUtxos(psbt) && r == V2From(h.curve, psbt, receive, change, policy.gapLimit, 0))
  {
    hide V2From;
  }

  /** The output checks in order: outputs, fee, amount, signatures. */
  lemma {:induction false} OutputOrder(h: Host, psbt: Psbt, change: Option<ParsedDescriptor>, policy: VerifyPolicy)
    requires SameShape(psbt) && AllWitnessUtxos(psbt)
    ensures var r := OutputChecks(h, psbt, change, policy);
            var outputs := forall i :: 0 <= i < |psbt.outputs| ==> OutputOk(h, psbt, change, policy, i);
            var paid := DeclaredSum(h, policy, psbt.tx.outputs);
            && (!outputs ==> ClassifyFrom(h, psbt, change, policy, 0).Err?
                             && r == Err(ClassifyFrom(h, psbt, change, policy, 0).error))
            && (outputs && !Funded(h, psbt, policy) ==>
                  V5(h, psbt, policy).Err? && r == Err(V5(h, psbt, policy).error))
            && (outputs && Funded(h, psbt, policy) && paid != policy.declaredAmountSats ==>
                  paid <= U64_MAX && r == Err(AmountMismatch(paid, policy.declaredAmountSats)))
            && (outputs && Funded(h, psbt, policy) && paid == policy.declaredAmountSats && V10From(h, psbt, 0).Err? ==>
                  r == Err(V10From(h, psbt, 0).error))
  {
    hide ClassifyFrom, V10From, Folded, SumInputs, SumOutputs, KindSum, DeclaredSum, OutputOk, Funded, V5;
    OutputsIff(h, psbt, change, policy);
    V5Iff(h, psbt, policy);
    if ClassifyFrom(h, psbt, change, policy, 0).Ok? {
      ClassifiedKinds(h, psbt, change, policy);
      FoldedIsKindSum(ClassifyFrom(h, psbt, change, policy, 0).value, false);
    }
  }

  /** The verdict's error is that of the first descriptor that does not parse, else that of the input
      checks, else that of the output checks. */
  lemma VerdictOrder(h: Host, psbt: Psbt, descriptor: string, policy: VerifyPolicy)
    ensures var r, receive, change :=
              Verdict(h, psbt, descriptor, policy), ParsedWith(h.curve, descriptor), ParsedChange(h.curve, policy);
            && (receive.Err? ==> r == Err(receive.error))
            && (receive.Ok? && change.Err? ==> r == Err(change.error))
            && (receive.Ok? && change.Ok? ==>
                  var inputs := InputChecks(h, psbt, receive.value, change.value, policy);
                  && (inputs.Err? ==> r == Err(inputs.error))
                  && (inputs.Ok? ==> r == OutputChecks(h, psbt, change.value, policy)))
  {
    hide ParsedWith, ParsedChange, InputChecks, OutputChecks;
  }

  // --- The error of a rejection --------------------------------------------

  predicate Shaped(psbt: Psbt) {
    |psbt.inputs| == |psbt.tx.inputs| && |psbt.outputs| == |psbt.tx.outputs| && |psbt.tx.inputs| > 0
  }

  predicate Small(tx: Transaction) {
    |tx.inputs| <= 100 && |tx.outputs| <= 100
  }

  ghost predicate Structured(psbt: Psbt) {
    Shaped(psbt) && Small(psbt.tx) && !Signed(psbt.tx) && !Proprietary(psbt)
  }

  /** Input `k` is the first whose claimed output is not the known one. */
  ghost predicate FirstUnknown(psbt: Psbt, policy: VerifyPolicy, k: nat) {
    && Structured(psbt) && AllWitnessUtxos(psbt) && k < |psbt.inputs|
    && (forall j :: 0 <= j < k ==> KnownAs(policy, psbt.tx.inputs[j], psbt.inputs[j].witnessUtxo.value))
    && !KnownAs(policy, psbt.tx.inputs[k], psbt.inputs[k].witnessUtxo.value)
  }

  ghost predicate FirstForeign(h: Host, psbt: Psbt, receive: ParsedDescriptor, change: Option<ParsedDescriptor>,
                               policy: VerifyPolicy, k: nat)
  {
    && Structured(psbt) && AllKnown(policy, psbt.tx.inputs, psbt.inputs) && k < |psbt.inputs|
    && (forall j :: 0 <= j < k ==>
          InWallet(h.curve, psbt.inputs[j].witnessUtxo.value.scriptPubkey, receive, change, policy.gapLimit))
    && !InWallet(h.curve, psbt.inputs[k].witnessUtxo.value.scriptPubkey, receive, change, policy.gapLimit)
  }

  /** The inputs pass, and output `k` is the first neither declared nor our change. */
  ghost predicate FirstBadOutput(h: Host, psbt: Psbt, receive: ParsedDescriptor, change: Option<ParsedDescriptor>,
                                 policy: VerifyPolicy, k: nat)
  {
    && InputsOk(h, psbt, receive, change, policy) && k < |psbt.outputs|
    && (forall j :: 0 <= j < k ==> OutputOk(h, psbt, change, policy, j))
    && !OutputOk(h, psbt, change, policy, k)
  }

  ghost predicate OutputsPass(h: Host, psbt: Psbt, receive: ParsedDescriptor, change: Option<ParsedDescriptor>,
                              policy: VerifyPolicy)
  {
    && InputsOk(h, psbt, receive, change, policy)
    && forall i :: 0 <= i < |psbt.outputs| ==> OutputOk(h, psbt, change, policy, i)
  }

  /** Inputs, outputs, fee and amount pass, and input `k` is the first with a bad signature. */
  ghost predicate FirstBadSigned(h: Host, psbt: Psbt, receive: ParsedDescriptor, change: Option<ParsedDescriptor>,
                                 policy: VerifyPolicy, k: nat)
  {
    && OutputsPass(h, psbt, receive, change, policy) && Funded(h, psbt, policy) && k < |psbt.inputs|
    && DeclaredSum(h, policy, psbt.tx.outputs) == policy.declaredAmountSats
    && (forall j :: 0 <= j < k ==> SignaturesOk(h, psbt.inputs[j]))
    && !SignaturesOk(h, psbt.inputs[k])
  }

  /** The fault of one input's signatures is a high s, all before it being fine. */
  ghost predicate HighS(h: Host, input: Input) {
    && input.sighashType in {None, Some(1)}
    && exists j :: 0 <= j < |input.partialSigs| && !Canonical(h, input.partialSigs[j].sig)
                   && input.partialSigs[j].sig.sighashType == All
                   && forall m :: 0 <= m < j ==> Canonical(h, input.partialSigs[m].sig)
  }

  function Fee(psbt: Psbt): int
    requires AllWitnessUtxos(psbt)
  {
    SumInputs(psbt.inputs) - SumOutputs(psbt.tx.outputs)
  }

  /** Both sums fit 64 bits and the inputs bring more than the outputs take. */
  predicate Counted(psbt: Psbt)
    requires AllWitnessUtxos(psbt)
  {
    SumInputs(psbt.inputs) <= U64_MAX && SumOutputs(psbt.tx.outputs) <= U64_MAX && Fee(psbt) > 0
  }

  predicate FeeDeclared(psbt: Psbt, policy: VerifyPolicy)
    requires AllWitnessUtxos(psbt)
  {
    policy.declaredFeeSats.None? || policy.declaredFeeSats.value == Fee(psbt)
  }

  ghost predicate InputFault(h: Host, psbt: Psbt, receive: ParsedDescriptor, change: Option<ParsedDescriptor>,
                             policy: VerifyPolicy, e: VerifyError)
  {
    match e
    case InconsistentPsbt => !Shaped(psbt) || (Small(psbt.tx) && Signed(psbt.tx))
    case TooManyInputsOutputs => Shaped(psbt) && !Small(psbt.tx)
    case ProprietaryField => Shaped(psbt) && Small(psbt.tx) && !Signed(psbt.tx) && Proprietary(psbt)
    case MissingWitnessUtxo(k) => Structured(psbt) && FirstMissing(psbt, 0, k) && psbt.inputs[k].nonWitnessUtxo.None?
    case NonWitnessUtxoOnly(k) => Structured(psbt) && FirstMissing(psbt, 0, k) && psbt.inputs[k].nonWitnessUtxo.Some?
    case UnknownInput(k) =>
      FirstUnknown(psbt, policy, k) && psbt.tx.inputs[k].previousOutput !in policy.knownUtxos
    case MismatchedUtxo(k) =>
      FirstUnknown(psbt, policy, k) && psbt.tx.inputs[k].previousOutput in policy.knownUtxos
    case ForeignInput(k) => FirstForeign(h, psbt, receive, change, policy, k)
    case _ => false
  }

  /** No address, not derived by the change descriptor, a map that makes V4 panic, or one that does not
      describe it. */
  ghost function OutputError(h: Host, psbt: Psbt, change: Option<ParsedDescriptor>, policy: VerifyPolicy, k: nat)
    : VerifyError
    requires SameShape(psbt) && k < |psbt.outputs|
  {
    var script := psbt.tx.outputs[k].scriptPubkey;
    if h.address(policy.network, script).None? then InvalidOutputAddress(k)
    else if !(change.Some? && Owned(h.curve, change.value, script, policy.gapLimit)) then ForeignChangeOutput(k)
    else if PanickingOutput(h, psbt, change, policy, k) then VerifierPanics
    else MismatchedDerivation(k)
  }

  ghost predicate OutputFault(h: Host, psbt: Psbt, receive: ParsedDescriptor, change: Option<ParsedDescriptor>,
                              policy: VerifyPolicy, k: nat, e: VerifyError)
  {
    FirstBadOutput(h, psbt, receive, change, policy, k) && e == OutputError(h, psbt, change, policy, k)
  }

  predicate FeeFault(h: Host, psbt: Psbt, policy: VerifyPolicy, e: VerifyError)
    requires AllWitnessUtxos(psbt)
  {
    match e
    case FeeNonPositive => !Counted(psbt)
    case FeeTooHigh(fee, cap) => Counted(psbt) && fee == Fee(psbt) > policy.maxAbsoluteFee == cap
    case FeeMismatch(fee, declared) =>
      && Counted(psbt) && fee == Fee(psbt) <= policy.maxAbsoluteFee
      && policy.declaredFeeSats == Some(declared) && declared != fee
    case FeerateTooHigh(rate, cap) =>
      && Counted(psbt) && Fee(psbt) <= policy.maxAbsoluteFee && FeeDeclared(psbt, policy)
      && Fee(psbt) > policy.maxFeerate * Max(h.vsize(psbt.tx), 1)
      && RateIs(rate, Fee(psbt), Max(h.vsize(psbt.tx), 1)) && cap == policy.maxFeerate
    case _ => false
  }

  ghost predicate SignatureFault(h: Host, psbt: Psbt, receive: ParsedDescriptor, change: Option<ParsedDescriptor>,
                                 policy: VerifyPolicy, k: nat, e: VerifyError)
  {
    && FirstBadSigned(h, psbt, receive, change, policy, k)
    && e == if HighS(h, psbt.inputs[k]) then BadSignature(k) else NonSighashAll(k)
  }

  /** What each error says is wrong with the PSBT, everything checked before being right. */
  ghost predicate Fault(h: Host, psbt: Psbt, receive: ParsedDescriptor, change: Option<ParsedDescriptor>,
                        policy: VerifyPolicy, e: VerifyError)
  {
    || InputFault(h, psbt, receive, change, policy, e)
    || (exists k: nat :: OutputFault(h, psbt, receive, change, policy, k, e))
    || (OutputsPass(h, psbt, receive, change, policy) && FeeFault(h, psbt, policy, e))
    || (&& OutputsPass(h, psbt, receive, change, policy) && Funded(h, psbt, policy) && e.AmountMismatch?
        && e.actualSats == DeclaredSum(h, policy, psbt.tx.outputs) != policy.declaredAmountSats == e.expectedSats)
    || (exists k: nat :: SignatureFault(h, psbt, receive, change, policy, k, e))
  }

  // --- What the error says decides it --------------------------------------

  lemma InputFaultDecides(h: Host, psbt: Psbt, receive: ParsedDescriptor, change: Option<ParsedDescriptor>,
                          policy: VerifyPolicy, e: VerifyError)
    requires WindowDerives(h.curve, receive, change, policy.gapLimit)
    requires InputFault(h, psbt, receive, change, policy, e)
    ensures InputChecks(h, psbt, receive, change, policy) == Err(e)
  {
    V8Refuses(psbt);
    InputOrder(h, psbt, receive, change, policy);
    hide V8, InputChecks, V9From, V7From, V2From, WindowDerives, InWallet, Signed, Proprietary, KnownAs;
    match e {
      case MissingWitnessUtxo(k) => V9Names(psbt, 0, k);
      case NonWitnessUtxoOnly(k) => V9Names(psbt, 0, k);
      case UnknownInput(k) => V7Names(psbt, policy, 0, k);
      case MismatchedUtxo(k) => V7Names(psbt, policy, 0, k);
      case ForeignInput(k) => V2Names(h.curve, psbt, receive, change, policy.gapLimit, 0, k);
      case _ =>
    }
  }

  lemma Shapes(h: Host, psbt: Psbt, receive: ParsedDescriptor, change: Option<ParsedDescriptor>, policy: VerifyPolicy)
    requires InputsOk(h, psbt, receive, change, policy)
    ensures SameShape(psbt) && AllWitnessUtxos(psbt)
  {
    hide InputsInWallet;
  }

  lemma OutputErrorIs(h: Host, psbt: Psbt, change: Option<ParsedDescriptor>, policy: VerifyPolicy, k: nat)
    requires change.Some? ==> OriginsParsed(change.value) && Derivable(h.curve, change.value, policy.gapLimit)
    requires SameShape(psbt) && k < |psbt.outputs| && !OutputOk(h, psbt, change, policy, k)
    ensures Classify(h, psbt, change, policy, k) == Err(OutputError(h, psbt, change, policy, k))
  {
    hide OutputOk, PanickingOutput, Classify, Owned, OriginsParsed, Derivable;
    ClassifyRefuses(h, psbt, change, policy, k);
    ClassifyPanicsIff(h, psbt, change, policy, k);
  }

  lemma OutputFaultDecides(h: Host, psbt: Psbt, receive: ParsedDescriptor, change: Option<ParsedDescriptor>,
                           policy: VerifyPolicy, k: nat, e: VerifyError)
    requires change.Some? ==> OriginsParsed(change.value) && Derivable(h.curve, change.value, policy.gapLimit)
    requires OutputFault(h, psbt, receive, change, policy, k, e)
    ensures SameShape(psbt) && AllWitnessUtxos(psbt) && OutputChecks(h, psbt, change, policy) == Err(e)
  {
    Shapes(h, psbt, receive, change, policy);
    hide InputsOk, OutputOk, OutputChecks, OutputError, Classify, OriginsParsed, Derivable, Funded, V10From,
         DeclaredSum, ClassifyFrom, V5;
    OutputErrorIs(h, psbt, change, policy, k);
    ClassifyNames(h, psbt, change, policy, 0, k);
    OutputOrder(h, psbt, change, policy);
  }

  lemma OneRate(a: nat, b: nat, fee: nat, vsize: nat)
    requires vsize > 0 && RateIs(a, fee, vsize) && RateIs(b, fee, vsize)
    ensures a == b
  {
    if a < b {
      TimesMonotone(a + 1, b, vsize);
    } else if b < a {
      TimesMonotone(b + 1, a, vsize);
    }
  }

  lemma FeeFaultIff(h: Host, psbt: Psbt, policy: VerifyPolicy, e: VerifyError)
    requires AllWitnessUtxos(psbt)
    ensures V5(h, psbt, policy) == Err(e) <==> FeeFault(h, psbt, policy, e)
  {
    V5Refuses(h, psbt, policy);
    V5Iff(h, psbt, policy);
    hide V5, SumInputs, SumOutputs, RateIs;
    var r := V5(h, psbt, policy);
    if e.FeerateTooHigh? && FeeFault(h, psbt, policy, e) {
      OneRate(r.error.feerateSatVb, e.feerateSatVb, Fee(psbt), Max(h.vsize(psbt.tx), 1));
    }
  }

  lemma FeeFaultDecides(h: Host, psbt: Psbt, receive: ParsedDescriptor, change: Option<ParsedDescriptor>,
                        policy: VerifyPolicy, e: VerifyError)
    requires OutputsPass(h, psbt, receive, change, policy) && AllWitnessUtxos(psbt) && FeeFault(h, psbt, policy, e)
    ensures SameShape(psbt) && OutputChecks(h, psbt, change, policy) == Err(e)
  {
    Shapes(h, psbt, receive, change, policy);
    hide InputsOk, OutputOk, OutputChecks, Funded, V10From, DeclaredSum, V5, FeeFault, ClassifyFrom;
    FeeFaultIff(h, psbt, policy, e);
    V5Iff(h, psbt, policy);
    OutputOrder(h, psbt, change, policy);
  }

  lemma HighSIff(h: Host, input: Input, i: nat)
    requires !SignaturesOk(h, input)
    ensures V10Input(h, input, i) == Err(if HighS(h, input) then BadSignature(i) else NonSighashAll(i))
  {
    hide Canonical, V10Input;
    InputNames(h, input, i);
    if input.sighashType in {None, Some(1)} {
      var j :| && 0 <= j < |input.partialSigs| && !Canonical(h, input.partialSigs[j].sig)
               && (forall m :: 0 <= m < j ==> Canonical(h, input.partialSigs[m].sig))
               && V10Input(h, input, i)
                  == Err(if input.partialSigs[j].sig.sighashType.All? then BadSignature(i) else NonSighashAll(i));
      if HighS(h, input) {
        var n :| && 0 <= n < |input.partialSigs| && !Canonical(h, input.partialSigs[n].sig)
                 && input.partialSigs[n].sig.sighashType == All
                 && forall m :: 0 <= m < n ==> Canonical(h, input.partialSigs[m].sig);
        assert n == j;
      }
    }
  }

  lemma SignatureFaultDecides(h: Host, psbt: Psbt, receive: ParsedDescriptor, change: Option<ParsedDescriptor>,
                              policy: VerifyPolicy, k: nat, e: VerifyError)
    requires SignatureFault(h, psbt, receive, change, policy, k, e)
    ensures InputsOk(h, psbt, receive, change, policy) && SameShape(psbt) && AllWitnessUtxos(psbt)
    ensures OutputChecks(h, psbt, change, policy) == Err(e)
  {
    Shapes(h, psbt, receive, change, policy);
    hide InputsOk, OutputOk, OutputChecks, Funded, V10From, DeclaredSum, V5, V10Input, SignaturesOk, HighS,
         ClassifyFrom;
    OutputOrder(h, psbt, change, policy);
    V10Names(h, psbt, 0, k);
    HighSIff(h, psbt.inputs[k], k);
  }

  lemma FaultDecides(h: Host, psbt: Psbt, descriptor: string, policy: VerifyPolicy, receive: ParsedDescriptor,
                     change: Option<ParsedDescriptor>, e: VerifyError)
    requires ParsedWith(h.curve, descriptor) == Ok(receive) && ParsedChange(h.curve, policy) == Ok(change)
    requires WindowDerives(h.curve, receive, change, policy.gapLimit)
    requires Fault(h, psbt, receive, change, policy, e)
    ensures Verdict(h, psbt, descriptor, policy) == Err(e)
  {
    if change.Some? {
      ParsedOrigins(h.curve, policy.changeDescriptor.value, change.value);
    }
    VerdictOrder(h, psbt, descriptor, policy);
    InputChecksIff(h, psbt, receive, change, policy);
    hide ParsedWith, ParsedChange, Verdict, InputChecks, OutputChecks, InputsOk, OriginsParsed, Derivable, InputFault,
         OutputError, FeeFault, HighS, SignaturesOk, OutputOk, Funded, DeclaredSum;
    if InputFault(h, psbt, receive, change, policy, e) {
      InputFaultDecides(h, psbt, receive, change, policy, e);
    } else if k: nat :| OutputFault(h, psbt, receive, change, policy, k, e) {
      OutputFaultDecides(h, psbt, receive, change, policy, k, e);
    } else if k: nat :| SignatureFault(h, psbt, receive, change, policy, k, e) {
      SignatureFaultDecides(h, psbt, receive, change, policy, k, e);
    } else {
      Shapes(h, psbt, receive, change, policy);
      if FeeFault(h, psbt, policy, e) {
        FeeFaultDecides(h, psbt, receive, change, policy, e);
      } else {
        OutputOrder(h, psbt, change, policy);
      }
    }
  }

  // --- Every rejection has its fault ---------------------------------------

  lemma FirstMissingExists(psbt: Psbt) returns (k: nat)
    requires !AllWitnessUtxos(psbt)
    ensures FirstMissing(psbt, 0, k)
  {
    k := 0;
    while k < |psbt.inputs| && psbt.inputs[k].witnessUtxo.Some?
      invariant k <= |psbt.inputs|
      invariant forall j :: 0 <= j < k ==> psbt.inputs[j].witnessUtxo.Some?
    {
      k := k + 1;
    }
  }

  lemma FirstUnknownExists(psbt: Psbt, policy: VerifyPolicy) returns (k: nat)
    requires Structured(psbt) && AllWitnessUtxos(psbt) && !AllKnown(policy, psbt.tx.inputs, psbt.inputs)
    ensures FirstUnknown(psbt, policy, k)
  {
    hide KnownAs, Signed, Proprietary;
    k := 0;
    while k < |psbt.inputs| && KnownAs(policy, psbt.tx.inputs[k], psbt.inputs[k].witnessUtxo.value)
      invariant k <= |psbt.inputs|
      invariant forall j :: 0 <= j < k ==> KnownAs(policy, psbt.tx.inputs[j], psbt.inputs[j].witnessUtxo.value)
    {
      k := k + 1;
    }
  }

  lemma FirstForeignExists(h: Host, psbt: Psbt, receive: ParsedDescriptor, change: Option<ParsedDescriptor>,
                           policy: VerifyPolicy) returns (k: nat)
    requires Structured(psbt) && AllKnown(policy, psbt.tx.inputs, psbt.inputs)
    requires !InputsInWallet(h.curve, psbt, receive, change, policy.gapLimit, 0)
    ensures FirstForeign(h, psbt, receive, change, policy, k)
  {
    hide InWallet, KnownAs, Signed, Proprietary;
    k := 0;
    while k < |psbt.inputs|
          && InWallet(h.curve, psbt.inputs[k].witnessUtxo.value.scriptPubkey, receive, change, policy.gapLimit)
      invariant k <= |psbt.inputs|
      invariant forall j :: 0 <= j < k ==>
                  InWallet(h.curve, psbt.inputs[j].witnessUtxo.value.scriptPubkey, receive, change, policy.gapLimit)
    {
      k := k + 1;
    }
  }

  lemma FirstBadOutputExists(h: Host, psbt: Psbt, receive: ParsedDescriptor, change: Option<ParsedDescriptor>,
                             policy: VerifyPolicy) returns (k: nat)
    requires InputsOk(h, psbt, receive, change, policy) && !OutputsPass(h, psbt, receive, change, policy)
    ensures FirstBadOutput(h, psbt, receive, change, policy, k)
  {
    Shapes(h, psbt, receive, change, policy);
    hide InputsOk, OutputOk;
    k := 0;
    while k < |psbt.outputs| && OutputOk(h, psbt, change, policy, k)
      invariant k <= |psbt.outputs|
      invariant forall j :: 0 <= j < k ==> OutputOk(h, psbt, change, policy, j)
    {
      k := k + 1;
    }
  }

  lemma FirstBadSignedExists(h: Host, psbt: Psbt, receive: ParsedDescriptor, change: Option<ParsedDescriptor>,
                             policy: VerifyPolicy) returns (k: nat)
    requires OutputsPass(h, psbt, receive, change, policy) && Funded(h, psbt, policy)
    requires DeclaredSum(h, policy, psbt.tx.outputs) == policy.declaredAmountSats
    requires !forall i :: 0 <= i < |psbt.inputs| ==> SignaturesOk(h, psbt.inputs[i])
    ensures FirstBadSigned(h, psbt, receive, change, policy, k)
  {
    hide OutputsPass, SignaturesOk, Funded, DeclaredSum;
    k := 0;
    while k < |psbt.inputs| && SignaturesOk(h, psbt.inputs[k])
      invariant k <= |psbt.inputs|
      invariant forall j :: 0 <= j < k ==> SignaturesOk(h, psbt.inputs[j])
    {
      k := k + 1;
    }
  }

  lemma InputFaultExists(h: Host, psbt: Psbt, receive: ParsedDescriptor, change: Option<ParsedDescriptor>,
                         policy: VerifyPolicy) returns (e: VerifyError)
    requires !InputsOk(h, psbt, receive, change, policy)
    ensures InputFault(h, psbt, receive, change, policy, e)
  {
    hide InWallet, KnownAs;
    if !Shaped(psbt) || (Small(psbt.tx) && Signed(psbt.tx)) {
      e := InconsistentPsbt;
    } else if !Small(psbt.tx) {
      e := TooManyInputsOutputs;
    } else if Proprietary(psbt) {
      e := ProprietaryField;
    } else {
      StructuredIsPlain(psbt);
      hide Signed, Proprietary, Unsigned, NoProprietary;
      if !AllWitnessUtxos(psbt) {
        var k := FirstMissingExists(psbt);
        e := if psbt.inputs[k].nonWitnessUtxo.Some? then NonWitnessUtxoOnly(k) else MissingWitnessUtxo(k);
      } else if !AllKnown(policy, psbt.tx.inputs, psbt.inputs) {
        var k := FirstUnknownExists(psbt, policy);
        e := if psbt.tx.inputs[k].previousOutput in policy.knownUtxos then MismatchedUtxo(k) else UnknownInput(k);
      } else {
        var k := FirstForeignExists(h, psbt, receive, change, policy);
        e := ForeignInput(k);
      }
    }
  }

  lemma StructuredIsPlain(psbt: Psbt)
    requires Structured(psbt)
    ensures Unsigned(psbt.tx) && NoProprietary(psbt)
  {
  }

  /** A PSBT is rejected with an error exactly when it has the fault the error names and none that is looked for
      before, wherever the gap window derives. */
  lemma RefusedIff(h: Host, psbt: Psbt, descriptor: string, policy: VerifyPolicy, receive: ParsedDescriptor,
                   change: Option<ParsedDescriptor>, e: VerifyError)
    requires ParsedWith(h.curve, descriptor) == Ok(receive) && ParsedChange(h.curve, policy) == Ok(change)
    requires WindowDerives(h.curve, receive, change, policy.gapLimit)
    ensures Verdict(h, psbt, descriptor, policy) == Err(e) <==> Fault(h, psbt, receive, change, policy, e)
  {
    if Fault(h, psbt, receive, change, policy, e) {
      FaultDecides(h, psbt, descriptor, policy, receive, change, e);
    }
    if Verdict(h, psbt, descriptor, policy) == Err(e) {
      var found := FaultExists(h, psbt, descriptor, policy, receive, change);
      FaultDecides(h, psbt, descriptor, policy, receive, change, found);
    }
  }

  lemma FaultExists(h: Host, psbt: Psbt, descriptor: string, policy: VerifyPolicy, receive: ParsedDescriptor,
                    change: Option<ParsedDescriptor>) returns (e: VerifyError)
    requires ParsedWith(h.curve, descriptor) == Ok(receive) && ParsedChange(h.curve, policy) == Ok(change)
    requires WindowDerives(h.curve, receive, change, policy.gapLimit)
    requires Verdict(h, psbt, descriptor, policy).Err?
    ensures Fault(h, psbt, receive, change, policy, e)
  {
    AcceptedIff(h, psbt, descriptor, policy, receive, change);
    hide ParsedWith, ParsedChange, Verdict, InputsOk, OutputOk, Funded, DeclaredSum, SignaturesOk, WindowDerives,
         InputFault, OutputError, FeeFault, HighS;
    if !InputsOk(h, psbt, receive, change, policy) {
      e := InputFaultExists(h, psbt, receive, change, policy);
    } else {
      Shapes(h, psbt, receive, change, policy);
      if !OutputsPass(h, psbt, receive, change, policy) {
        var k := FirstBadOutputExists(h, psbt, receive, change, policy);
        e := OutputError(h, psbt, change, policy, k);
        assert OutputFault(h, psbt, receive, change, policy, k, e);
      } else if !Funded(h, psbt, policy) {
        V5Iff(h, psbt, policy);
        e := V5(h, psbt, policy).error;
        FeeFaultIff(h, psbt, policy, e);
      } else if DeclaredSum(h, policy, psbt.tx.outputs) != policy.declaredAmountSats {
        OutputOrder(h, psbt, change, policy);
        e := AmountMismatch(DeclaredSum(h, policy, psbt.tx.outputs), policy.declaredAmountSats);
      } else {
        var k := FirstBadSignedExists(h, psbt, receive, change, policy);
        e := if HighS(h, psbt.inputs[k]) then BadSignature(k) else NonSighashAll(k);
        assert SignatureFault(h, psbt, receive, change, policy, k, e);
      }
    }
  }
}
