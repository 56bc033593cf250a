/** Finishing as it runs: the loop over sorted keys that stops at two signatures, and the loop
    over inputs that fills the spent outputs and the witnesses. */
module FinalizeLoops {
  import opened Machine
  import opened Errors
  import opened Bitcoin
  import opened Bip67
  import opened Descriptor
  import opened Psbts
  import opened Verify
  import opened Finalize
  import opened Gather
  import VerifyLoops

  /** The key loop of `witness_for_sorted`, as the positions it takes. */
  method PickSignatures(sigs: PartialSigs, keys: seq<PubKey>, i: nat) returns (r: Result<seq<nat>, SignError>)
    ensures r == PickFrom(sigs, keys, 0, 0, i)
  {
    hide SigFor, SoFar;
    ghost var all := PickFrom(sigs, keys, 0, 0, i);
    var picked: seq<nat> := [];
    SoFarStart(all);
    for j := 0 to |keys|
      invariant |picked| <= 1 && SoFar(all, picked, PickFrom(sigs, keys, j, |picked|, i))
    {
      var sig := SigFor(sigs, keys[j]);
      if sig.Some? {
        if !sig.value.sighashType.All? {
          SoFarErr(all, picked, SighashNotAll(i));
          return Err(SighashNotAll(i));
        }
        SoFarOneMore(all, picked, j as nat, PickFrom(sigs, keys, j + 1, |picked| + 1, i));
        picked := picked + [j];
        if |picked| == 2 {
          SoFarEnd(all, picked);
          return Ok(picked);
        }
      }
    }
    SoFarEnd(all, picked);
    return Ok(picked);
  }

  /** `witness_for_sorted`. */
  method WitnessForSorted(sigs: PartialSigs, keys: seq<PubKey>, script: Bytes, i: nat)
    returns (r: Result<seq<Bytes>, SignError>)
    ensures r == WitnessFor(sigs, keys, script, i)
  {
    hide SigFor, PickFrom;
    var at := PickSignatures(sigs, keys, i);
    if at.Err? {
      return Err(at.error);
    }
    PickedHaveSigs(sigs, keys, 0, 0, i);
    if |at.value| < 2 {
      return Err(IncompleteWitness(i));
    }
    var first, second := SigFor(sigs, keys[at.value[0]]).value, SigFor(sigs, keys[at.value[1]]).value;
    return Ok([[], Item(first), Item(second), script]);
  }

  /** One pass of the input loop of `finalize`. */
  method FinalizeInput(h: Host, psbt: Psbt, receive: ParsedDescriptor, change: Option<ParsedDescriptor>,
                       policy: VerifyPolicy, i: nat) returns (r: Result<seq<Bytes>, SignError>)
    requires |psbt.inputs| == |psbt.tx.inputs| && i < |psbt.inputs|
    ensures r == FinalInput(h, psbt, receive, change, policy, i)
  {
    hide DerivedFor, WitnessFor;
    var input, prevout := psbt.inputs[i], psbt.tx.inputs[i].previousOutput;
    if input.witnessUtxo.None? {
      return Err(NoWitnessUtxo(i));
    }
    if prevout !in policy.knownUtxos {
      return Err(SignError.Verify(UnknownInput(i)));
    }
    if input.witnessUtxo.value != policy.knownUtxos[prevout] {
      return Err(SignError.Verify(MismatchedUtxo(i)));
    }
    var derived := DerivedFor(h.curve, input, i, receive, change);
    if derived.Err? {
      return Err(derived.error);
    }
    if input.witnessUtxo.value.scriptPubkey != derived.value.scriptPubkey {
      return Err(WitnessScriptMismatch(i));
    }
    if input.witnessScript.None? {
      return Err(NoWitnessScript(i));
    }
    if input.witnessScript.value != derived.value.witnessScript {
      return Err(WitnessScriptMismatch(i));
    }
    r := WitnessForSorted(input.partialSigs, derived.value.sortedPubkeys, derived.value.witnessScript, i);
  }

  lemma SpentOneMore(policy: VerifyPolicy, inputs: seq<TxIn>, i: nat)
    requires i < |inputs| && inputs[i].previousOutput in policy.knownUtxos
    ensures SpentOutputs(policy, inputs[..i + 1])
            == SpentOutputs(policy, inputs[..i])
               [inputs[i].previousOutput := policy.knownUtxos[inputs[i].previousOutput]]
  {
    var more, less := SpentOutputs(policy, inputs[..i + 1]), SpentOutputs(policy, inputs[..i]);
    var o := inputs[i].previousOutput;
    assert inputs[..i + 1] == inputs[..i] + [inputs[i]];
    assert inputs[..i + 1][i].previousOutput == o;
    forall p | p in less ensures p in more {
      var k :| 0 <= k < i && inputs[..i][k].previousOutput == p;
      assert inputs[..i + 1][k].previousOutput == p;
    }
    forall p | p in more && p != o ensures p in less {
      var k :| 0 <= k < i + 1 && inputs[..i + 1][k].previousOutput == p;
      assert inputs[..i][k].previousOutput == p;
    }
    assert more == less[o := policy.knownUtxos[o]];
  }

  lemma FinalNeedsKnown(h: Host, psbt: Psbt, receive: ParsedDescriptor, change: Option<ParsedDescriptor>,
                        policy: VerifyPolicy, i: nat)
    requires |psbt.inputs| == |psbt.tx.inputs| && i < |psbt.inputs|
    ensures FinalInput(h, psbt, receive, change, policy, i).Ok?
        ==> psbt.tx.inputs[i].previousOutput in policy.knownUtxos
  {
    hide DerivedFor, WitnessFor;
  }

  /** The input loop: the witnesses and the map of spent outputs, filled side by side. */
  method FinalizeInputs(h: Host, psbt: Psbt, receive: ParsedDescriptor, change: Option<ParsedDescriptor>,
                        policy: VerifyPolicy)
    returns (r: Result<seq<seq<Bytes>>, SignError>, spent: map<OutPoint, TxOut>)
    requires |psbt.inputs| == |psbt.tx.inputs|
    ensures r == FinalFrom(h, psbt, receive, change, policy, 0)
    ensures r.Ok? ==> spent == SpentOutputs(policy, psbt.tx.inputs)
  {
    hide FinalInput, SoFar, SpentOutputs;
    ghost var all := FinalFrom(h, psbt, receive, change, policy, 0);
    var witnesses: seq<seq<Bytes>> := [];
    spent := map[];
    SoFarStart(all);
    NoneSpent(policy, psbt.tx.inputs);
    for i := 0 to |psbt.inputs|
      invariant SoFar(all, witnesses, FinalFrom(h, psbt, receive, change, policy, i))
      invariant spent == SpentOutputs(policy, psbt.tx.inputs[..i])
    {
      var w := FinalizeInput(h, psbt, receive, change, policy, i);
      if w.Err? {
        SoFarErr(all, witnesses, w.error);
        return Err(w.error), spent;
      }
      FinalNeedsKnown(h, psbt, receive, change, policy, i);
      SpentOneMore(policy, psbt.tx.inputs, i);
      SoFarOneMore(all, witnesses, w.value, FinalFrom(h, psbt, receive, change, policy, i + 1));
      var prevout := psbt.tx.inputs[i].previousOutput;
      spent := spent[prevout := policy.knownUtxos[prevout]];
      witnesses := witnesses + [w.value];
    }
    assert psbt.tx.inputs[..|psbt.inputs|] == psbt.tx.inputs;
    SoFarEnd(all, witnesses);
    return Ok(witnesses), spent;
  }

  lemma NoneSpent(policy: VerifyPolicy, inputs: seq<TxIn>)
    ensures SpentOutputs(policy, inputs[..0]) == map[]
  {
  }

  /** `finalize` after the input loop. */
  method Finish(h: Host, consensus: Consensus, psbt: Psbt, policy: VerifyPolicy, witnesses: seq<seq<Bytes>>,
                spent: map<OutPoint, TxOut>) returns (r: Result<Transaction, SignError>)
    requires |witnesses| == |psbt.inputs| == |psbt.tx.inputs| && AllWitnessUtxos(psbt)
    requires spent == SpentOutputs(policy, psbt.tx.inputs)
    ensures r == Finished(h, consensus, psbt, policy, witnesses)
  {
    hide SumInputs, SumOutputs, SpentOutputs, Extracted;
    var sums := VerifyLoops.CheckedSums(psbt);
    if sums.None? || sums.value.1 >= sums.value.0 {
      return Err(UnbalancedPsbt);
    }
    var fee: u64 := sums.value.0 - sums.value.1;
    var tx := Extracted(psbt, witnesses);
    if !consensus(tx, spent) {
      return Err(ConsensusRejected);
    }
    if h.vsize(tx) == 0 {
      return Err(SignerPanics);
    }
    DivCeilBound(fee, h.vsize(tx));
    var feerate: u64 := DivCeil(fee, h.vsize(tx));
    if feerate > policy.maxFeerate {
      return Err(FinalFeerateTooHigh(feerate, policy.maxFeerate));
    }
    return Ok(tx);
  }

  /** `finalize`. */
  method FinalizePsbt(h: Host, consensus: Consensus, psbt: Psbt, descriptor: string, policy: VerifyPolicy)
    returns (r: Result<Transaction, SignError>)
    ensures r == Finalized(h, consensus, psbt, descriptor, policy)
  {
    hide ParsedWith, ParsedChange, FinalFrom, Finished, SpentOutputs;
    if psbt.inputs == [] {
      return Err(EmptyPsbt);
    }
    if |psbt.inputs| != |psbt.tx.inputs| {
      return Err(SignError.Verify(InconsistentPsbt));
    }
    var receive := VerifyLoops.ParseWith(h.curve, descriptor);
    if receive.Err? {
      return Err(SignError.Verify(receive.error));
    }
    var change := VerifyLoops.ParseChange(h.curve, policy);
    if change.Err? {
      return Err(SignError.Verify(change.error));
    }
    var witnesses, spent := FinalizeInputs(h, psbt, receive.value, change.value, policy);
    if witnesses.Err? {
      return Err(witnesses.error);
    }
    FinalEach(h, psbt, receive.value, change.value, policy, 0);
    r := Finish(h, consensus, psbt, policy, witnesses.value, spent);
  }
}
