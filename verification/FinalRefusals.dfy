/** Which error answers which fault when a PSBT is charged or finished: the first fault in order, and the
    first input or output that has it. */
module FinalRefusals {
  import opened Machine
  import opened Errors
  import opened Bitcoin
  import opened Bip67
  import opened Descriptor
  import opened Derive
  import opened Psbts
  import opened Verify
  import opened VerifyMeaning
  import opened VerifyRefusals
  import opened Signing
  import opened Finalize
  import SpendCharge

  // --- The witness ---------------------------------------------------------

  /** Position `n` is the first in map order whose key has these bytes. */
  predicate FirstSig(sigs: seq<SigEntry>, key: PubKey, n: nat) {
    && n < |sigs| && sigs[n].key.inner == key
    && forall m :: 0 <= m < n ==> sigs[m].key.inner != key
  }

  lemma {:induction false} SigForIff(sigs: seq<SigEntry>, key: PubKey, sig: Signature)
    ensures SigFor(sigs, key) == Some(sig) <==> exists n: nat :: FirstSig(sigs, key, n) && sigs[n].sig == sig
  {
    if sigs != [] {
      SigForIff(sigs[1..], key, sig);
      if sigs[0].key.inner == key {
        assert FirstSig(sigs, key, 0);
      } else {
        if n: nat :| FirstSig(sigs[1..], key, n) && sigs[1..][n].sig == sig {
          var next := n + 1;
          assert FirstSig(sigs, key, next) && sigs[next].sig == sig;
        }
        if n: nat :| FirstSig(sigs, key, n) && sigs[n].sig == sig {
          assert FirstSig(sigs[1..], key, n - 1);
        }
      }
    }
  }

  /** No witness: with fewer than two signed positions it is incomplete, unless the one signed is not
      `SIGHASH_ALL`; with two, `WitnessOfFirstTwo` says. */
  lemma WitnessRefuses(sigs: PartialSigs, keys: seq<PubKey>, script: Bytes, i: nat)
    requires !TwoSigned(sigs, keys)
    ensures WitnessFor(sigs, keys, script, i)
            == Err(if exists n :: 0 <= n < |keys| && HasSig(sigs, keys[n]) && !HasAll(sigs, keys[n])
                   then SighashNotAll(i) else IncompleteWitness(i))
  {
    var next := NextSigned(sigs, keys, 0);
    hide SigFor;
    var n := if next.Some? then next.value else |keys|;
    PickSkips(sigs, keys, 0, n, 0, i);
    if n < |keys| {
      PickSkips(sigs, keys, n + 1, |keys|, 1, i);
      assert PickFrom(sigs, keys, n + 1, 1, i) == Ok([]);
    } else {
      assert PickFrom(sigs, keys, n, 0, i) == Ok([]);
    }
  }

  // --- One input -----------------------------------------------------------

  /** The derived output an input names: no entry, a path that does not end in a branch and an index, a
      change branch without a change descriptor. */
  lemma DerivedRefuses(c: Curve, input: Input, i: nat, receive: ParsedDescriptor, change: Option<ParsedDescriptor>)
    ensures var r := DerivedFor(c, input, i, receive, change);
            && (r == Err(MissingDerivation(i)) <==> input.derivation == [])
            && (input.derivation != [] ==>
                  var path := input.derivation[0].path;
                  (r == Err(InvalidDerivationPath(i))
                   <==> !exists index: u32 :: Ends(path, 0, index) || (change.Some? && Ends(path, 1, index))))
            && (forall branch: u32, index: u32 ::
                  input.derivation != [] && Ends(input.derivation[0].path, branch, index)
                  && (branch == 0 || (branch == 1 && change.Some?)) ==>
                    var o := DeriveAt(c, if branch == 0 then receive else change.value, index);
                    r == if o.Ok? then Ok(o.value) else Err(SignerPanics))
  {
    hide DeriveAt;
    var at := BranchAndIndex(input.derivation, i);
    if at.Ok? {
      assert Ends(input.derivation[0].path, at.value.0, at.value.1);
    }
  }

  /** An input not finished, in the order looked at: the spent output, whether it is known and as what, the
      derived output, its script, the witness. */
  lemma FinalInputRefuses(h: Host, psbt: Psbt, receive: ParsedDescriptor, change: Option<ParsedDescriptor>,
                          policy: VerifyPolicy, i: nat)
    requires |psbt.inputs| == |psbt.tx.inputs| && i < |psbt.inputs|
    ensures var r, input := FinalInput(h, psbt, receive, change, policy, i), psbt.inputs[i];
            var spent, prevout := input.witnessUtxo, psbt.tx.inputs[i].previousOutput;
            var derived := DerivedFor(h.curve, input, i, receive, change);
            && (spent.None? ==> r == Err(NoWitnessUtxo(i)))
            && (spent.Some? && prevout !in policy.knownUtxos ==> r == Err(SignError.Verify(UnknownInput(i))))
            && (spent.Some? && prevout in policy.knownUtxos && policy.knownUtxos[prevout] != spent.value ==>
                  r == Err(SignError.Verify(MismatchedUtxo(i))))
            && (spent.Some? && KnownAs(policy, psbt.tx.inputs[i], spent.value) ==>
                  && (derived.Err? ==> r == Err(derived.error))
                  && (derived.Ok? ==>
                        var own := derived.value;
                        var pays := spent.value.scriptPubkey == own.scriptPubkey;
                        && (pays && input.witnessScript.None? ==> r == Err(NoWitnessScript(i)))
                        && (!pays || input.witnessScript !in {None, Some(own.witnessScript)} ==>
                              r == Err(WitnessScriptMismatch(i)))
                        && (pays && input.witnessScript == Some(own.witnessScript) ==>
                              r == WitnessFor(input.partialSigs, own.sortedPubkeys, own.witnessScript, i))))
  {
    hide DerivedFor, WitnessFor;
  }

  lemma {:induction false} FinalNames(h: Host, psbt: Psbt, receive: ParsedDescriptor, change: Option<ParsedDescriptor>,
                                      policy: VerifyPolicy, i: nat, k: nat)
    requires |psbt.inputs| == |psbt.tx.inputs| && i <= k < |psbt.inputs|
    requires FinalInput(h, psbt, receive, change, policy, k).Err?
    requires forall j :: i <= j < k ==> FinalInput(h, psbt, receive, change, policy, j).Ok?
    ensures FinalFrom(h, psbt, receive, change, policy, i) == Err(FinalInput(h, psbt, receive, change, policy, k).error)
    decreases k - i
  {
    hide FinalInput;
    if i < k {
      FinalNames(h, psbt, receive, change, policy, i + 1, k);
    }
  }

  // --- The transaction -----------------------------------------------------

  /** The sums first, then consensus, then the size, then the rate, reported as it is. */
  lemma FinishedRefuses(h: Host, consensus: Consensus, psbt: Psbt, policy: VerifyPolicy, witnesses: seq<seq<Bytes>>)
    requires |witnesses| == |psbt.inputs| == |psbt.tx.inputs| && AllWitnessUtxos(psbt)
    ensures var r, tx := Finished(h, consensus, psbt, policy, witnesses), Extracted(psbt, witnesses);
            var sumIn, sumOut := SumInputs(psbt.inputs), SumOutputs(psbt.tx.outputs);
            var fee := sumIn - sumOut;
            var counted := sumIn <= U64_MAX && fee > 0;
            var valid := consensus(tx, SpentOutputs(policy, psbt.tx.inputs));
            && (r == Err(UnbalancedPsbt) <==> !counted)
            && (r == Err(ConsensusRejected) <==> counted && !valid)
            && (r == Err(SignerPanics) <==> counted && valid && h.vsize(tx) == 0)
            && (counted && valid && h.vsize(tx) > 0 && fee > policy.maxFeerate * h.vsize(tx) ==>
                  r.Err? && r.error.FinalFeerateTooHigh? && r.error.maxSatVb == policy.maxFeerate
                  && RateIs(r.error.feerateSatVb, fee, h.vsize(tx)))
  {
    hide SumInputs, SumOutputs, DivCeil, Extracted, SpentOutputs;
    var tx := Extracted(psbt, witnesses);
    var sumIn, sumOut := SumInputs(psbt.inputs), SumOutputs(psbt.tx.outputs);
    if sumIn > sumOut && h.vsize(tx) > 0 {
      var fee := sumIn - sumOut;
      FeerateIff(fee, policy.maxFeerate, h.vsize(tx));
      DivCeilBound(fee, h.vsize(tx));
    }
  }

  /** What the consensus library is given: for every input its outpoint and what the watch-only wallet
      knows of it. */
  lemma SpentOutputsAre(policy: VerifyPolicy, inputs: seq<TxIn>, o: OutPoint)
    ensures o in SpentOutputs(policy, inputs)
            <==> o in policy.knownUtxos && exists i :: 0 <= i < |inputs| && inputs[i].previousOutput == o
    ensures o in SpentOutputs(policy, inputs) ==> SpentOutputs(policy, inputs)[o] == policy.knownUtxos[o]
  {
  }

  /** No inputs, then their number, then the descriptors, then the inputs, then the transaction. */
  lemma {:induction false} FinalizedOrder(h: Host, consensus: Consensus, psbt: Psbt, descriptor: string,
                                          policy: VerifyPolicy)
    ensures var r, receive, change := Finalized(h, consensus, psbt, descriptor, policy),
                                      ParsedWith(h.curve, descriptor), ParsedChange(h.curve, policy);
            var shaped := |psbt.inputs| == |psbt.tx.inputs|;
            && (psbt.inputs == [] ==> r == Err(EmptyPsbt))
            && (psbt.inputs != [] && !shaped ==> r == Err(SignError.Verify(InconsistentPsbt)))
            && (psbt.inputs != [] && shaped && receive.Err? ==> r == Err(SignError.Verify(receive.error)))
            && (psbt.inputs != [] && shaped && receive.Ok? && change.Err? ==> r == Err(SignError.Verify(change.error)))
            && (psbt.inputs != [] && shaped && receive.Ok? && change.Ok? ==>
                  var all := FinalFrom(h, psbt, receive.value, change.value, policy, 0);
                  && (all.Err? ==> r == Err(all.error))
                  && (all.Ok? ==>
                        && |all.value| == |psbt.inputs| && AllWitnessUtxos(psbt)
                        && r == Finished(h, consensus, psbt, policy, all.value)))
  {
    hide ParsedWith, ParsedChange, FinalFrom, Finished;
    if |psbt.inputs| == |psbt.tx.inputs| && ParsedWith(h.curve, descriptor).Ok? && ParsedChange(h.curve, policy).Ok? {
      FinalEach(h, psbt, ParsedWith(h.curve, descriptor).value, ParsedChange(h.curve, policy).value, policy, 0);
    }
  }

  // --- The charge ----------------------------------------------------------

  /** The input loop stops at the first input without its output, or where the sum leaves 64 bits. */
  lemma {:induction false} InputsName(inputs: seq<Input>, i: nat, sum: u64, k: nat)
    requires i <= k < |inputs|
    requires SpendCharge.AllSpent(inputs[..k]) && sum == SumInputs(inputs[..i]) && SumInputs(inputs[..k]) <= U64_MAX
    ensures inputs[k].witnessUtxo.None? ==> SpendCharge.InputsFrom(inputs, i, sum) == Err(NoWitnessUtxo(k))
    ensures inputs[k].witnessUtxo.Some? && SumInputs(inputs[..k]) + inputs[k].witnessUtxo.value.value > U64_MAX ==>
              SpendCharge.InputsFrom(inputs, i, sum) == Err(UnbalancedPsbt)
    decreases k - i
  {
    if i < k {
      SumsGrow(inputs, i + 1, k);
      assert inputs[..i + 1][..i] == inputs[..i];
      assert inputs[..i + 1][i] == inputs[i] == inputs[..k][i];
      InputsName(inputs, i + 1, sum + inputs[i].witnessUtxo.value.value, k);
    }
  }

  lemma {:induction false} SumsGrow(inputs: seq<Input>, i: nat, k: nat)
    requires i <= k <= |inputs| && SpendCharge.AllSpent(inputs[..k])
    ensures forall j :: 0 <= j < i ==> inputs[..i][j].witnessUtxo.Some?
    ensures SumInputs(inputs[..i]) <= SumInputs(inputs[..k])
  {
    forall j | 0 <= j < i ensures inputs[..i][j].witnessUtxo.Some? {
      assert inputs[..i][j] == inputs[..k][j];
    }
    if i < k {
      var n := k - 1;
      forall j | 0 <= j < n ensures inputs[..n][j].witnessUtxo.Some? {
        assert inputs[..n][j] == inputs[..k][j];
      }
      assert inputs[..k][..n] == inputs[..n];
      SumsGrow(inputs, i, n);
    }
  }

  /** The charge fails on the descriptors, then on the inputs, then on the outputs, then where these sum to
      more. */
  lemma ChargeOrder(c: Curve, psbt: Psbt, descriptor: string, policy: VerifyPolicy)
    ensures var r, receive, change := SpendCharge.Charge(c, psbt, descriptor, policy), ParsedWith(c, descriptor),
                                      ParsedChange(c, policy);
            && (receive.Err? ==> r == Err(SignError.Verify(receive.error)))
            && (receive.Ok? && change.Err? ==> r == Err(SignError.Verify(change.error)))
            && (receive.Ok? && change.Ok? ==>
                  var w := SpendCharge.Wallet(c, receive.value, change.value, policy.gapLimit);
                  var ins, outs := SpendCharge.InputsFrom(psbt.inputs, 0, 0),
                                   SpendCharge.OutputsFrom(w, psbt.tx.outputs, 0, 0, 0);
                  && (ins.Err? ==> r == Err(ins.error))
                  && (ins.Ok? && outs.Err? ==> r == Err(outs.error))
                  && (ins.Ok? && outs.Ok? && outs.value.0 > ins.value ==> r == Err(UnbalancedPsbt)))
  {
    hide ParsedWith, ParsedChange, SpendCharge.InputsFrom, SpendCharge.OutputsFrom;
  }

  /** A PSBT without inputs, and one with more than a hundred, have no input set. */
  lemma InputSetRefuses(psbt: Psbt)
    ensures SpendCharge.InputSetOf(psbt) == Err(EmptyPsbt) <==> |psbt.tx.inputs| == 0
    ensures SpendCharge.InputSetOf(psbt) == Err(TooManyInputs) <==> |psbt.tx.inputs| > 100
  {
  }
}
