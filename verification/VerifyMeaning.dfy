/** What acceptance by the verifier means: an exact declarative reading of all its checks, and
    the conservation of value. */
module VerifyMeaning {
  import opened Machine
  import opened Bitcoin
  import opened Descriptor
  import opened Derive
  import opened Psbts
  import opened IndexSearch
  import opened Verify
  import OriginPath

  // --- V4 ------------------------------------------------------------------

  lemma {:induction false} StepsOfFour(parts: seq<string>)
    requires |parts| == 4
    ensures var i0, i1, i2, i3 := OriginPath.SegmentIndex(parts[0]), OriginPath.SegmentIndex(parts[1]),
                                  OriginPath.SegmentIndex(parts[2]), OriginPath.SegmentIndex(parts[3]);
            StepsOf(parts) == if i0.Some? && i1.Some? && i2.Some? && i3.Some?
                              then Some([Hardened(i0.value), Hardened(i1.value), Hardened(i2.value),
                                  Hardened(i3.value)])
                              else None
  {
    hide OriginPath.SegmentIndex;
    assert parts[1..][1..] == parts[2..] && parts[2..][1..] == parts[3..] && parts[3..][1..] == [];
    StepsOne(parts[3..]);
    StepsOne(parts[2..]);
    StepsOne(parts[1..]);
    StepsOne(parts);
    assert parts[1..][0] == parts[1] && parts[2..][0] == parts[2] && parts[3..][0] == parts[3];
    if StepsOf(parts).Some? {
      var steps := StepsOf(parts).value;
      assert steps[1..] == StepsOf(parts[1..]).value && steps[2..] == StepsOf(parts[2..]).value
          && steps[3..] == StepsOf(parts[3..]).value;
      assert steps[1] == steps[1..][0] && steps[2] == steps[2..][0] && steps[3] == steps[3..][0];
      assert steps == [steps[0], steps[1], steps[2], steps[3]];
    }
  }

  lemma {:induction false} StepsOne(parts: seq<string>)
    requires parts != []
    ensures StepsOf([]) == Some([])
    ensures StepsOf(parts) == match (OriginPath.SegmentIndex(parts[0]), StepsOf(parts[1..]))
                              case (Some(n), Some(rest)) => Some([Hardened(n)] + rest)
                              case _ => None
  {
  }

  /** V4 can read the origin of a parsed key expression exactly when it is written without `m/`,
      and then it reads the four hardened BIP-48 steps. */
  lemma OriginStepsIff(origin: string)
    requires OriginPath.Validated(origin).Ok?
    ensures OriginSteps(origin).Some? <==> !("m/" <= origin)
    ensures OriginSteps(origin).Some? ==>
              exists coin: u32 :: coin <= 1
                && OriginSteps(origin).value == [Hardened(48), Hardened(coin), Hardened(0), Hardened(2)]
  {
    hide OriginPath.SegmentIndex, OriginPath.Split;
    if "m/" <= origin {
      assert origin == "m" + "/" + origin[2..];
      OriginPath.JoinSplits("m", origin[2..]);
      NoSegment();
    } else {
      StepsOfFour(OriginPath.Split(origin));
    }
  }

  lemma NoSegment()
    ensures OriginPath.SegmentIndex("m").None?
  {
  }

  ghost predicate DistinctFingerprints(derivation: Derivation) {
    forall i, j :: 0 <= i < j < |derivation| ==> derivation[i].fingerprint != derivation[j].fingerprint
  }

  /** The entry's path is the change branch at this index, below the origin of the key
      expression with the entry's own fingerprint. */
  predicate ChangePath(d: ParsedDescriptor, e: KeyOrigin, index: u32) {
    && KeyFor(d, e.fingerprint).Some?
    && var steps := OriginSteps(KeyFor(d, e.fingerprint).value.originPath);
       steps.Some? && |steps.value| == 4 && e.path == steps.value + [Normal(1), Normal(index)]
  }

  /** The derivation map describes the change output derived at this index. */
  ghost predicate ChangeMap(c: Curve, derivation: Derivation, d: ParsedDescriptor, index: u32) {
    && DeriveAt(c, d, index).Ok?
    && |derivation| == 3
    && DistinctFingerprints(derivation)
    && (forall i :: 0 <= i < 3 ==> ChangePath(d, derivation[i], index))
    && KeySet(PublicKeys(DeriveAt(c, d, index).value.children)) == KeySet(MapKeys(derivation))
  }

  lemma PathIff(path: seq<ChildNumber>, key: KeyExpr, index: u32)
    ensures PathIsChangeAt(path, key, index).Passes?
            <==> var steps := OriginSteps(key.originPath);
                 steps.Some? && |steps.value| == 4 && path == steps.value + [Normal(1), Normal(index)]
  {
    hide OriginSteps;
    if |path| == 6 && path[4] == Normal(1) && path[5] == Normal(index) {
      assert path == path[..4] + [Normal(1), Normal(index)];
    }
  }

  lemma EntryIff(derivation: Derivation, d: ParsedDescriptor, index: u32, i: nat)
    requires i < |derivation|
    ensures V4Entry(derivation, d, index, i).Passes?
            <==> (forall j :: 0 <= j < i ==> derivation[j].fingerprint != derivation[i].fingerprint)
                 && ChangePath(d, derivation[i], index)
  {
    hide OriginSteps, PathIsChangeAt, KeyFor;
    if KeyFor(d, derivation[i].fingerprint).Some? {
      PathIff(derivation[i].path, KeyFor(d, derivation[i].fingerprint).value, index);
    }
  }

  lemma {:induction false} EntriesIff(derivation: Derivation, d: ParsedDescriptor, index: u32, i: nat)
    requires i <= |derivation|
    ensures V4From(derivation, d, index, i).Passes?
            <==> forall k :: i <= k < |derivation| ==> V4Entry(derivation, d, index, k).Passes?
    decreases |derivation| - i
  {
    hide V4Entry;
    if i < |derivation| {
      EntriesIff(derivation, d, index, i + 1);
    }
  }

  lemma V4Iff(c: Curve, derivation: Derivation, d: ParsedDescriptor, index: u32)
    ensures V4(c, derivation, d, index).Passes? <==> ChangeMap(c, derivation, d, index)
  {
    hide DeriveAt, V4Entry, V4From, ChangePath, MapKeys, PublicKeys, KeySet;
    EntriesIff(derivation, d, index, 0);
    forall k | 0 <= k < |derivation|
      ensures V4Entry(derivation, d, index, k).Passes?
              <==> (forall j :: 0 <= j < k ==> derivation[j].fingerprint != derivation[k].fingerprint)
                   && ChangePath(d, derivation[k], index)
    {
      EntryIff(derivation, d, index, k);
    }
  }

  // --- V3 ------------------------------------------------------------------

  lemma ChangeMapIsHint(c: Curve, derivation: Derivation, d: ParsedDescriptor, index: u32)
    requires ChangeMap(c, derivation, d, index)
    ensures HintOf(derivation) == Some(index)
  {
    hide DeriveAt, OriginSteps;
    forall i | 0 <= i < |derivation| ensures EndsIn(derivation[i].path, index) {
      assert ChangePath(d, derivation[i], index);
    }
    assert AgreeOn(derivation, index);
    assert EndsIn(derivation[0].path, HintOf(derivation).value);
  }

  /** The output script is derived at an index of the window that the map describes. */
  ghost predicate IsChange(c: Curve, derivation: Derivation, d: ParsedDescriptor, script: Bytes, gap: u32) {
    exists index: u32 :: index < gap && Matches(c, d, script, index) && ChangeMap(c, derivation, d, index)
  }

  /** Change is accepted exactly when some index of the window derives to the script and fits the
      map: the paths themselves then give the hint, so no other index is ever looked at. */
  lemma ChangeOutputIff(c: Curve, derivation: Derivation, change: Option<ParsedDescriptor>, script: Bytes, gap: u32,
                        i: nat)
    ensures ChangeOutput(c, derivation, change, script, gap, i).Ok?
            <==> change.Some? && IsChange(c, derivation, change.value, script, gap)
  {
    hide DeriveAt, V4, HintOf, Search, ChangeMap;
    if change.Some? {
      var d := change.value;
      SearchSound(c, d, script, gap, HintOf(derivation));
      if ChangeOutput(c, derivation, change, script, gap, i).Ok? {
        V4Iff(c, derivation, d, Search(c, d, script, gap, HintOf(derivation)).value.value);
      }
      if IsChange(c, derivation, d, script, gap) {
        var index: u32 :| index < gap && Matches(c, d, script, index) && ChangeMap(c, derivation, d, index);
        ChangeMapIsHint(c, derivation, d, index);
        HintFirst(c, d, script, gap, index);
        V4Iff(c, derivation, d, index);
      }
    }
  }

  lemma HintFirst(c: Curve, d: ParsedDescriptor, script: Bytes, gap: u32, index: u32)
    requires index < gap && Matches(c, d, script, index)
    ensures Search(c, d, script, gap, Some(index)) == Ok(Some(index))
  {
    hide DeriveAt;
  }

  /** One output as the user sees it: to a declared recipient, or our own change. */
  ghost predicate OutputOk(h: Host, psbt: Psbt, change: Option<ParsedDescriptor>, policy: VerifyPolicy, i: nat)
    requires SameShape(psbt) && i < |psbt.outputs|
  {
    var txout := psbt.tx.outputs[i];
    var address := h.address(policy.network, txout.scriptPubkey);
    && address.Some?
    && (IsDeclared(policy, address.value)
        || (change.Some?
            && IsChange(h.curve, psbt.outputs[i].derivation, change.value, txout.scriptPubkey, policy.gapLimit)))
  }

  lemma ClassifyIff(h: Host, psbt: Psbt, change: Option<ParsedDescriptor>, policy: VerifyPolicy, i: nat)
    requires SameShape(psbt) && i < |psbt.outputs|
    ensures Classify(h, psbt, change, policy, i).Ok? <==> OutputOk(h, psbt, change, policy, i)
    ensures Classify(h, psbt, change, policy, i).Ok? ==>
              var r := Classify(h, psbt, change, policy, i).value;
              && r.amountSats == psbt.tx.outputs[i].value
              && Some(r.address) == h.address(policy.network, psbt.tx.outputs[i].scriptPubkey)
              && (!r.isChange <==> IsDeclared(policy, r.address))
  {
    hide ChangeOutput, IsDeclared, IsChange;
    ChangeOutputIff(h.curve, psbt.outputs[i].derivation, change, psbt.tx.outputs[i].scriptPubkey, policy.gapLimit, i);
  }

  lemma {:induction false} ClassifiedEach(h: Host, psbt: Psbt, change: Option<ParsedDescriptor>, policy: VerifyPolicy,
                                          i: nat)
    requires SameShape(psbt) && i <= |psbt.outputs|
    ensures var r := ClassifyFrom(h, psbt, change, policy, i);
            && (r.Ok? <==> forall k :: i <= k < |psbt.outputs| ==> Classify(h, psbt, change, policy, k).Ok?)
            && (r.Ok? ==> |r.value| == |psbt.outputs| - i)
            && (r.Ok? ==> forall k :: 0 <= k < |r.value| ==> Classify(h, psbt, change, policy, i + k) == Ok(r.value[k]))
    decreases |psbt.outputs| - i
  {
    hide Classify;
    if i < |psbt.outputs| {
      ClassifiedEach(h, psbt, change, policy, i + 1);
      var r := ClassifyFrom(h, psbt, change, policy, i);
      if r.Ok? {
        forall k | 0 <= k < |r.value| ensures Classify(h, psbt, change, policy, i + k) == Ok(r.value[k]) {
          if k > 0 {
            assert r.value[k] == ClassifyFrom(h, psbt, change, policy, i + 1).value[k - 1];
            assert Classify(h, psbt, change, policy, i + 1 + (k - 1)).Ok?;
          }
        }
      }
    }
  }

  // --- V2 ------------------------------------------------------------------

  /** The script is derived by one of the two descriptors inside the gap window. */
  ghost predicate InWallet(c: Curve, script: Bytes, receive: ParsedDescriptor, change: Option<ParsedDescriptor>,
                           gap: u32) {
    Owned(c, receive, script, gap) || (change.Some? && Owned(c, change.value, script, gap))
  }

  ghost predicate WindowDerives(c: Curve, receive: ParsedDescriptor, change: Option<ParsedDescriptor>, gap: u32) {
    Derivable(c, receive, gap) && (change.Some? ==> Derivable(c, change.value, gap))
  }

  lemma MatchesAnyMeaning(c: Curve, script: Bytes, receive: ParsedDescriptor, change: Option<ParsedDescriptor>,
                          gap: u32, hint: Option<u32>)
    ensures var r := MatchesAny(c, script, receive, change, gap, hint);
            && (r.Ok? ==> (r.value <==> InWallet(c, script, receive, change, gap)))
            && (WindowDerives(c, receive, change, gap) ==> r.Ok?)
  {
    hide DeriveAt, Search, Scan, Owned;
    SearchSound(c, receive, script, gap, hint);
    if Derivable(c, receive, gap) {
      HintedIsScan(c, receive, script, gap, hint);
    }
    if change.Some? {
      SearchSound(c, change.value, script, gap, hint);
      if Derivable(c, change.value, gap) {
        HintedIsScan(c, change.value, script, gap, hint);
      }
    }
  }

  ghost predicate InputsInWallet(c: Curve, psbt: Psbt, receive: ParsedDescriptor, change: Option<ParsedDescriptor>,
                                 gap: u32, i: nat)
    requires AllWitnessUtxos(psbt)
  {
    forall k :: i <= k < |psbt.inputs| ==>
      InWallet(c, psbt.inputs[k].witnessUtxo.value.scriptPubkey, receive, change, gap)
  }

  lemma {:induction false} V2Meaning(c: Curve, psbt: Psbt, receive: ParsedDescriptor,
                                     change: Option<ParsedDescriptor>, gap: u32, i: nat)
    requires AllWitnessUtxos(psbt) && i <= |psbt.inputs|
    ensures V2From(c, psbt, receive, change, gap, i).Ok? ==> InputsInWallet(c, psbt, receive, change, gap, i)
    ensures WindowDerives(c, receive, change, gap) && InputsInWallet(c, psbt, receive, change, gap, i) ==>
              V2From(c, psbt, receive, change, gap, i).Ok?
    decreases |psbt.inputs| - i
  {
    hide MatchesAny, InWallet, WindowDerives, HintOf;
    if i < |psbt.inputs| {
      var input := psbt.inputs[i];
      MatchesAnyMeaning(c, input.witnessUtxo.value.scriptPubkey, receive, change, gap, HintOf(input.derivation));
      V2Meaning(c, psbt, receive, change, gap, i + 1);
    }
  }

  // --- Sums ----------------------------------------------------------------

  /** The exact sum of the outputs of one kind. */
  function KindSum(classified: seq<ClassifiedOutput>, isChange: bool): nat {
    if classified == [] then 0
    else
      var last := classified[|classified| - 1];
      KindSum(classified[..|classified| - 1], isChange) + if last.isChange == isChange then last.amountSats else 0
  }

  lemma {:induction false} FoldedIsKindSum(classified: seq<ClassifiedOutput>, isChange: bool)
    ensures Folded(classified, isChange) == Min(KindSum(classified, isChange), U64_MAX)
  {
    if classified != [] {
      FoldedIsKindSum(classified[..|classified| - 1], isChange);
    }
  }

  predicate AmountsOf(classified: seq<ClassifiedOutput>, outputs: seq<TxOut>) {
    |classified| == |outputs| && forall i :: 0 <= i < |outputs| ==> classified[i].amountSats == outputs[i].value
  }

  lemma {:induction false} KindsPartition(classified: seq<ClassifiedOutput>, outputs: seq<TxOut>)
    requires AmountsOf(classified, outputs)
    ensures KindSum(classified, false) + KindSum(classified, true) == SumOutputs(outputs)
  {
    if classified != [] {
      KindsPartition(classified[..|classified| - 1], outputs[..|outputs| - 1]);
    }
  }

  /** The watch-only values of the outpoints spent. */
  function KnownSum(policy: VerifyPolicy, inputs: seq<TxIn>): nat
    requires forall i :: 0 <= i < |inputs| ==> inputs[i].previousOutput in policy.knownUtxos
  {
    if inputs == [] then 0
    else KnownSum(policy, inputs[..|inputs| - 1]) + policy.knownUtxos[inputs[|inputs| - 1].previousOutput].value
  }

  predicate AllKnown(policy: VerifyPolicy, txins: seq<TxIn>, inputs: seq<Input>) {
    && |txins| == |inputs|
    && (forall i :: 0 <= i < |inputs| ==> inputs[i].witnessUtxo.Some?)
    && (forall i :: 0 <= i < |inputs| ==> KnownAs(policy, txins[i], inputs[i].witnessUtxo.value))
  }

  lemma {:induction false} ClaimedIsKnown(policy: VerifyPolicy, txins: seq<TxIn>, inputs: seq<Input>)
    requires AllKnown(policy, txins, inputs)
    ensures SumInputs(inputs) == KnownSum(policy, txins)
  {
    if inputs != [] {
      assert KnownAs(policy, txins[|inputs| - 1], inputs[|inputs| - 1].witnessUtxo.value);
      ClaimedIsKnown(policy, txins[..|txins| - 1], inputs[..|inputs| - 1]);
    }
  }

  // --- The theorems --------------------------------------------------------

  lemma InputChecksMeaning(h: Host, psbt: Psbt, receive: ParsedDescriptor, change: Option<ParsedDescriptor>,
                           policy: VerifyPolicy)
    requires InputChecks(h, psbt, receive, change, policy).Ok?
    ensures V8(psbt).Ok? && AllKnown(policy, psbt.tx.inputs, psbt.inputs)
    ensures InputsInWallet(h.curve, psbt, receive, change, policy.gapLimit, 0)
  {
    hide V2From, InWallet;
    V2Meaning(h.curve, psbt, receive, change, policy.gapLimit, 0);
  }

  /** Sum of the outputs that go to declared recipients. */
  function DeclaredSum(h: Host, policy: VerifyPolicy, outputs: seq<TxOut>): nat {
    if outputs == [] then 0
    else
      var last := outputs[|outputs| - 1];
      var address := h.address(policy.network, last.scriptPubkey);
      DeclaredSum(h, policy, outputs[..|outputs| - 1])
      + if address.Some? && IsDeclared(policy, address.value) then last.value else 0
  }

  lemma {:induction false} ClassifiedAmounts(h: Host, psbt: Psbt, change: Option<ParsedDescriptor>,
                                             policy: VerifyPolicy)
    requires SameShape(psbt) && ClassifyFrom(h, psbt, change, policy, 0).Ok?
    ensures AmountsOf(ClassifyFrom(h, psbt, change, policy, 0).value, psbt.tx.outputs)
  {
    hide Classify, ClassifyFrom;
    ClassifiedEach(h, psbt, change, policy, 0);
    var classified := ClassifyFrom(h, psbt, change, policy, 0).value;
    forall i | 0 <= i < |classified| ensures classified[i].amountSats == psbt.tx.outputs[i].value {
      assert Classify(h, psbt, change, policy, 0 + i) == Ok(classified[i]);
      ClassifyIff(h, psbt, change, policy, i);
    }
  }

  lemma {:induction false} DeclaredKind(h: Host, policy: VerifyPolicy, outputs: seq<TxOut>,
                                        classified: seq<ClassifiedOutput>)
    requires AmountsOf(classified, outputs) && KindsOf(h, policy, outputs, classified)
    ensures KindSum(classified, false) == DeclaredSum(h, policy, outputs)
  {
    hide IsDeclared;
    if outputs != [] {
      DeclaredKind(h, policy, outputs[..|outputs| - 1], classified[..|outputs| - 1]);
    }
  }

  predicate KindsOf(h: Host, policy: VerifyPolicy, outputs: seq<TxOut>, classified: seq<ClassifiedOutput>) {
    && |classified| == |outputs|
    && forall i :: 0 <= i < |outputs| ==>
         var address := h.address(policy.network, outputs[i].scriptPubkey);
         address == Some(classified[i].address) && (!classified[i].isChange
             <==> IsDeclared(policy, classified[i].address))
  }

  lemma {:induction false} ClassifiedKinds(h: Host, psbt: Psbt, change: Option<ParsedDescriptor>, policy: VerifyPolicy)
    requires SameShape(psbt) && ClassifyFrom(h, psbt, change, policy, 0).Ok?
    ensures var classified := ClassifyFrom(h, psbt, change, policy, 0).value;
            && KindSum(classified, false) == DeclaredSum(h, policy, psbt.tx.outputs)
            && KindSum(classified, true) == SumOutputs(psbt.tx.outputs) - DeclaredSum(h, policy, psbt.tx.outputs)
  {
    hide Classify, ClassifyFrom, KindSum, DeclaredSum, SumOutputs, IsDeclared;
    ClassifiedAmounts(h, psbt, change, policy);
    ClassifiedEach(h, psbt, change, policy, 0);
    var classified := ClassifyFrom(h, psbt, change, policy, 0).value;
    forall i | 0 <= i < |classified|
      ensures h.address(policy.network, psbt.tx.outputs[i].scriptPubkey) == Some(classified[i].address)
      ensures !classified[i].isChange <==> IsDeclared(policy, classified[i].address)
    {
      assert Classify(h, psbt, change, policy, 0 + i) == Ok(classified[i]);
      ClassifyIff(h, psbt, change, policy, i);
    }
    KindsPartition(classified, psbt.tx.outputs);
    DeclaredKind(h, policy, psbt.tx.outputs, classified);
  }

  /** Value is conserved: the amount, the change and the fee of an accepted PSBT add up exactly
      to the watch-only values of its inputs; the amount is what goes to declared recipients and
      the change all the rest, so no saturating addition saturated on the way. */
  lemma {:induction false} Conservation(h: Host, psbt: Psbt, descriptor: string, policy: VerifyPolicy)
    requires Verdict(h, psbt, descriptor, policy).Ok?
    ensures AllKnown(policy, psbt.tx.inputs, psbt.inputs)
    ensures var v := Verdict(h, psbt, descriptor, policy).value;
            && v.amountSats + v.changeSats + v.feeSats == KnownSum(policy, psbt.tx.inputs)
            && v.amountSats == DeclaredSum(h, policy, psbt.tx.outputs)
            && v.amountSats + v.changeSats == SumOutputs(psbt.tx.outputs)
            && v.amountSats == policy.declaredAmountSats
            && v.feeSats > 0
  {
    hide InputChecks, ClassifyFrom, V10From, Folded, ParsedWith, KnownSum, SumInputs, SumOutputs, KindSum, ParsedChange,
         DeclaredSum;
    var receive, change := ParsedWith(h.curve, descriptor).value, ParsedChange(h.curve, policy).value;
    InputChecksMeaning(h, psbt, receive, change, policy);
    var classified := ClassifyFrom(h, psbt, change, policy, 0).value;
    ClassifiedKinds(h, psbt, change, policy);
    ClaimedIsKnown(policy, psbt.tx.inputs, psbt.inputs);
    FoldedIsKindSum(classified, false);
    FoldedIsKindSum(classified, true);
  }

  /** Everything V8, V9, V7 and V2 check, said of the PSBT itself. */
  ghost predicate InputsOk(h: Host, psbt: Psbt, receive: ParsedDescriptor, change: Option<ParsedDescriptor>,
                           policy: VerifyPolicy)
  {
    && SameShape(psbt) && 1 <= |psbt.tx.inputs| <= 100 && |psbt.tx.outputs| <= 100
    && Unsigned(psbt.tx) && NoProprietary(psbt)
    && AllKnown(policy, psbt.tx.inputs, psbt.inputs)
    && InputsInWallet(h.curve, psbt, receive, change, policy.gapLimit, 0)
  }

  /** Everything the verifier checks, said of the PSBT itself. */
  ghost predicate Acceptable(h: Host, psbt: Psbt, receive: ParsedDescriptor, change: Option<ParsedDescriptor>,
                             policy: VerifyPolicy) {
    && InputsOk(h, psbt, receive, change, policy)
    && (forall i :: 0 <= i < |psbt.outputs| ==> OutputOk(h, psbt, change, policy, i))
    && Funded(h, psbt, policy)
    && DeclaredSum(h, policy, psbt.tx.outputs) == policy.declaredAmountSats
    && (forall i :: 0 <= i < |psbt.inputs| ==> SignaturesOk(h, psbt.inputs[i]))
  }

  /** The fee is positive, under both caps, and the declared one when one was declared. */
  predicate Funded(h: Host, psbt: Psbt, policy: VerifyPolicy)
    requires AllWitnessUtxos(psbt)
  {
    var fee := SumInputs(psbt.inputs) - SumOutputs(psbt.tx.outputs);
    && SumInputs(psbt.inputs) <= U64_MAX
    && 0 < fee <= policy.maxAbsoluteFee
    && (policy.declaredFeeSats.Some? ==> fee == policy.declaredFeeSats.value)
    && fee <= policy.maxFeerate * Max(h.vsize(psbt.tx), 1)
  }

  ghost predicate SignaturesOk(h: Host, input: Input) {
    && (input.sighashType.Some? ==> input.sighashType.value == 1)
    && (forall k :: 0 <= k < |input.partialSigs| ==> Canonical(h, input.partialSigs[k].sig))
  }

  lemma FeerateIff(fee: nat, rate: nat, vsize: nat)
    requires vsize > 0
    ensures DivCeil(fee, vsize) <= rate <==> fee <= rate * vsize
  {
    DivCeilBound(fee, vsize);
    var q := DivCeil(fee, vsize);
    hide DivCeil;
    assert (rate + 1) * vsize == rate * vsize + vsize;
    if q <= rate {
      TimesMonotone(q, rate, vsize);
    } else {
      TimesMonotone(rate + 1, q, vsize);
    }
  }

  lemma V5Iff(h: Host, psbt: Psbt, policy: VerifyPolicy)
    requires AllWitnessUtxos(psbt)
    ensures V5(h, psbt, policy).Ok? <==> Funded(h, psbt, policy)
    ensures V5(h, psbt, policy).Ok? ==> SumOutputs(psbt.tx.outputs) <= U64_MAX
  {
    hide SumInputs, SumOutputs, DivCeil;
    var fee := SumInputs(psbt.inputs) - SumOutputs(psbt.tx.outputs);
    if fee > 0 {
      FeerateIff(fee, policy.maxFeerate, Max(h.vsize(psbt.tx), 1));
    }
  }

  lemma {:induction false} V10Iff(h: Host, psbt: Psbt)
    ensures V10From(h, psbt, 0).Ok? <==> forall i :: 0 <= i < |psbt.inputs| ==> SignaturesOk(h, psbt.inputs[i])
  {
    hide Canonical;
    forall i | 0 <= i < |psbt.inputs| ensures V10Input(h, psbt.inputs[i], i).Ok? <==> SignaturesOk(h, psbt.inputs[i]) {
    }
  }

  lemma {:induction false} OutputsIff(h: Host, psbt: Psbt, change: Option<ParsedDescriptor>, policy: VerifyPolicy)
    requires SameShape(psbt)
    ensures ClassifyFrom(h, psbt, change, policy, 0).Ok?
            <==> forall i :: 0 <= i < |psbt.outputs| ==> OutputOk(h, psbt, change, policy, i)
  {
    hide Classify, ClassifyFrom, OutputOk;
    ClassifiedEach(h, psbt, change, policy, 0);
    forall i | 0 <= i < |psbt.outputs|
      ensures Classify(h, psbt, change, policy, i).Ok? <==> OutputOk(h, psbt, change, policy, i)
    {
      ClassifyIff(h, psbt, change, policy, i);
    }
  }

  lemma {:induction false} OutputChecksIff(h: Host, psbt: Psbt, change: Option<ParsedDescriptor>, policy: VerifyPolicy)
    requires SameShape(psbt) && AllWitnessUtxos(psbt)
    ensures OutputChecks(h, psbt, change, policy).Ok?
            <==> && (forall i :: 0 <= i < |psbt.outputs| ==> OutputOk(h, psbt, change, policy, i))
                 && Funded(h, psbt, policy)
                 && DeclaredSum(h, policy, psbt.tx.outputs) == policy.declaredAmountSats
                 && (forall i :: 0 <= i < |psbt.inputs| ==> SignaturesOk(h, psbt.inputs[i]))
  {
    hide ClassifyFrom, V10From, Folded, SumInputs, SumOutputs, KindSum, DeclaredSum, OutputOk, SignaturesOk, Funded, V5;
    OutputsIff(h, psbt, change, policy);
    V5Iff(h, psbt, policy);
    V10Iff(h, psbt);
    if ClassifyFrom(h, psbt, change, policy, 0).Ok? {
      ClassifiedKinds(h, psbt, change, policy);
      FoldedIsKindSum(ClassifyFrom(h, psbt, change, policy, 0).value, false);
    }
  }

  lemma InputChecksIff(h: Host, psbt: Psbt, receive: ParsedDescriptor, change: Option<ParsedDescriptor>,
                       policy: VerifyPolicy)
    requires WindowDerives(h.curve, receive, change, policy.gapLimit)
    ensures InputChecks(h, psbt, receive, change, policy).Ok? <==> InputsOk(h, psbt, receive, change, policy)
  {
    hide V2From, InWallet, WindowDerives, Unsigned, NoProprietary;
    if V9From(psbt, 0).Ok? {
      V2Meaning(h.curve, psbt, receive, change, policy.gapLimit, 0);
    }
  }

  /** A PSBT is accepted exactly when it is acceptable, wherever the gap window derives. */
  lemma AcceptedIff(h: Host, psbt: Psbt, descriptor: string, policy: VerifyPolicy,
                    receive: ParsedDescriptor, change: Option<ParsedDescriptor>)
    requires ParsedWith(h.curve, descriptor) == Ok(receive) && ParsedChange(h.curve, policy) == Ok(change)
    requires WindowDerives(h.curve, receive, change, policy.gapLimit)
    ensures Verdict(h, psbt, descriptor, policy).Ok? <==> Acceptable(h, psbt, receive, change, policy)
  {
    hide ParsedWith, ParsedChange, InputChecks, OutputChecks, Funded, DeclaredSum, OutputOk, SignaturesOk, InWallet,
         WindowDerives, Unsigned, NoProprietary;
    InputChecksIff(h, psbt, receive, change, policy);
    if SameShape(psbt) && AllWitnessUtxos(psbt) {
      OutputChecksIff(h, psbt, change, policy);
    }
  }
}
