/** What a transaction is charged against the spend window: everything it takes from the wallet
    and does not return to it. */
module SpendCharge {
  import opened Machine
  import opened Errors
  import opened Bitcoin
  import opened InputSets
  import opened Descriptor
  import opened Derive
  import opened Psbts
  import opened IndexSearch
  import opened Verify
  import opened VerifyMeaning
  import VerifyLoops
  import StateCodec

  /** `belongs_to_wallet`. */
  function BelongsToWallet(c: Curve, script: Bytes, receive: ParsedDescriptor, change: Option<ParsedDescriptor>,
                           gap: u32)
    : Result<bool, DeriveError>
  {
    var found :- Scan(c, receive, script, gap);
    if found.Some? then Ok(true)
    else match change
         case None => Ok(false)
         case Some(d) =>
           var inChange :- Scan(c, d, script, gap);
           Ok(inChange.Some?)
  }

  lemma BelongsMeaning(c: Curve, script: Bytes, receive: ParsedDescriptor, change: Option<ParsedDescriptor>, gap: u32)
    ensures BelongsToWallet(c, script, receive, change, gap) == MatchesAny(c, script, receive, change, gap, None)
    ensures var r := BelongsToWallet(c, script, receive, change, gap);
            && (r.Ok? ==> (r.value <==> InWallet(c, script, receive, change, gap)))
            && (WindowDerives(c, receive, change, gap) ==> r.Ok?)
  {
    hide ScanFrom, InWallet, WindowDerives;
    MatchesAnyMeaning(c, script, receive, change, gap, None);
  }

  /** The input loop of `spend_charge` from input `i` on, with the sum so far. */
  function InputsFrom(inputs: seq<Input>, i: nat, sum: u64): Result<u64, SignError>
    requires i <= |inputs|
    decreases |inputs| - i
  {
    if i == |inputs| then Ok(sum)
    else if inputs[i].witnessUtxo.None? then Err(NoWitnessUtxo(i))
    else
      var total := sum + inputs[i].witnessUtxo.value.value;
      if total > U64_MAX then Err(UnbalancedPsbt) else InputsFrom(inputs, i + 1, total)
  }

  datatype Wallet = Wallet(curve: Curve, receive: ParsedDescriptor, change: Option<ParsedDescriptor>, gap: u32)

  function Belongs(w: Wallet, script: Bytes): Result<bool, DeriveError> {
    BelongsToWallet(w.curve, script, w.receive, w.change, w.gap)
  }

  ghost predicate Ours(w: Wallet, script: Bytes) {
    InWallet(w.curve, script, w.receive, w.change, w.gap)
  }

  /** The output loop from output `i` on, with the sum of all outputs and of foreign ones. */
  function OutputsFrom(w: Wallet, outputs: seq<TxOut>, i: nat, sum: u64, foreign: u64): Result<(u64, u64), SignError>
    requires i <= |outputs|
    decreases |outputs| - i
  {
    if i == |outputs| then Ok((sum, foreign))
    else
      var v := outputs[i].value;
      if sum + v > U64_MAX then Err(UnbalancedPsbt)
      else match Belongs(w, outputs[i].scriptPubkey)
           case Err(e) => Err(SignError.Verify(VerifyError.Derive(e)))
           case Ok(ours) => OutputsFrom(w, outputs, i + 1, sum + v, if ours then foreign else SatAdd(foreign, v))
  }

  function WalletOf(c: Curve, descriptor: string, policy: VerifyPolicy): Result<Wallet, SignError> {
    match ParsedWith(c, descriptor)
    case Err(e) => Err(SignError.Verify(e))
    case Ok(receive) =>
      match ParsedChange(c, policy)
      case Err(e) => Err(SignError.Verify(e))
      case Ok(change) => Ok(Wallet(c, receive, change, policy.gapLimit))
  }

  function ChargeOf(w: Wallet, psbt: Psbt): Result<u64, SignError> {
    var sumIn :- InputsFrom(psbt.inputs, 0, 0);
    var (sumOut, foreign) :- OutputsFrom(w, psbt.tx.outputs, 0, 0, 0);
    if sumOut > sumIn then Err(UnbalancedPsbt) else Ok(SatAdd(foreign, sumIn - sumOut))
  }

  /** `spend_charge`. */
  function Charge(c: Curve, psbt: Psbt, descriptor: string, policy: VerifyPolicy): Result<u64, SignError> {
    var w :- WalletOf(c, descriptor, policy);
    ChargeOf(w, psbt)
  }

  // --- What it amounts to --------------------------------------------------

  predicate AllSpent(inputs: seq<Input>) {
    forall i :: 0 <= i < |inputs| ==> inputs[i].witnessUtxo.Some?
  }

  lemma {:induction false} InputsMeaning(inputs: seq<Input>, i: nat, sum: u64)
    requires i <= |inputs| && AllSpent(inputs[..i]) && sum == SumInputs(inputs[..i])
    ensures InputsFrom(inputs, i, sum).Ok? <==> AllSpent(inputs) && SumInputs(inputs) <= U64_MAX
    ensures InputsFrom(inputs, i, sum).Ok? ==> InputsFrom(inputs, i, sum).value == SumInputs(inputs)
    decreases |inputs| - i
  {
    if i == |inputs| {
      assert inputs[..i] == inputs;
    } else {
      assert inputs[..i + 1][..i] == inputs[..i];
      if inputs[i].witnessUtxo.Some? {
        if AllSpent(inputs) {
          VerifyLoops.SumInputsPrefix(inputs, i + 1);
        }
        var total := sum + inputs[i].witnessUtxo.value.value;
        if total <= U64_MAX {
          InputsMeaning(inputs, i + 1, total);
        }
      }
    }
  }

  /** The sum of the outputs that come back to the wallet. */
  ghost function OwnSum(w: Wallet, outputs: seq<TxOut>): nat {
    if outputs == [] then 0
    else
      var last := outputs[|outputs| - 1];
      OwnSum(w, outputs[..|outputs| - 1]) + if Ours(w, last.scriptPubkey) then last.value else 0
  }

  lemma {:induction false} OwnWithinAll(w: Wallet, outputs: seq<TxOut>)
    ensures OwnSum(w, outputs) <= SumOutputs(outputs)
  {
    hide Ours;
    if outputs != [] {
      OwnWithinAll(w, outputs[..|outputs| - 1]);
    }
  }

  lemma {:induction false} NextSums(w: Wallet, outputs: seq<TxOut>, i: nat)
    requires i < |outputs|
    ensures SumOutputs(outputs[..i + 1]) == SumOutputs(outputs[..i]) + outputs[i].value <= SumOutputs(outputs)
    ensures OwnSum(w, outputs[..i + 1])
            == OwnSum(w, outputs[..i]) + if Ours(w, outputs[i].scriptPubkey) then outputs[i].value else 0
  {
    hide Ours;
    assert outputs[..i + 1][..i] == outputs[..i];
    VerifyLoops.SumOutputsPrefix(outputs, i + 1);
  }

  ghost predicate WindowOk(w: Wallet) {
    WindowDerives(w.curve, w.receive, w.change, w.gap)
  }

  lemma OursMeaning(w: Wallet, script: Bytes)
    ensures Belongs(w, script).Ok? ==> (Belongs(w, script).value <==> Ours(w, script))
    ensures WindowOk(w) ==> Belongs(w, script).Ok?
  {
    hide BelongsToWallet, InWallet, WindowDerives;
    BelongsMeaning(w.curve, script, w.receive, w.change, w.gap);
  }

  lemma OutputsStep(w: Wallet, outputs: seq<TxOut>, i: nat, sum: u64, foreign: u64)
    requires i <= |outputs|
    ensures i == |outputs| ==> OutputsFrom(w, outputs, i, sum, foreign) == Ok((sum, foreign))
    ensures i < |outputs| && sum + outputs[i].value > U64_MAX ==> OutputsFrom(w, outputs, i, sum, foreign).Err?
    ensures i < |outputs| && sum + outputs[i].value <= U64_MAX && Belongs(w, outputs[i].scriptPubkey).Err? ==>
              OutputsFrom(w, outputs, i, sum, foreign).Err?
    ensures i < |outputs| && sum + outputs[i].value <= U64_MAX && Belongs(w, outputs[i].scriptPubkey).Ok? ==>
              OutputsFrom(w, outputs, i, sum, foreign)
              == OutputsFrom(w, outputs, i + 1, sum + outputs[i].value,
                             if Belongs(w, outputs[i].scriptPubkey).value then foreign
                             else SatAdd(foreign, outputs[i].value))
  {
    hide Belongs;
  }

  lemma {:induction false} OutputsMeaning(w: Wallet, outputs: seq<TxOut>, i: nat, sum: u64, foreign: u64)
    requires i <= |outputs| && sum == SumOutputs(outputs[..i]) && foreign == sum - OwnSum(w, outputs[..i])
    ensures OutputsFrom(w, outputs, i, sum, foreign).Ok? ==>
              && SumOutputs(outputs) <= U64_MAX
              && OutputsFrom(w, outputs, i, sum, foreign).value
                 == (SumOutputs(outputs), SumOutputs(outputs) - OwnSum(w, outputs))
    ensures WindowOk(w) && SumOutputs(outputs) <= U64_MAX ==> OutputsFrom(w, outputs, i, sum, foreign).Ok?
    decreases |outputs| - i
  {
    hide Belongs, Ours, WindowOk, SumOutputs, OwnSum, OutputsFrom;
    OutputsStep(w, outputs, i, sum, foreign);
    if i == |outputs| {
      assert outputs[..i] == outputs;
    } else {
      var v := outputs[i].value;
      NextSums(w, outputs, i);
      OursMeaning(w, outputs[i].scriptPubkey);
      var ours := Belongs(w, outputs[i].scriptPubkey);
      if sum + v <= U64_MAX && ours.Ok? {
        OutputsMeaning(w, outputs, i + 1, sum + v, if ours.value then foreign else SatAdd(foreign, v));
      }
    }
  }

  /** The charge is exactly the value spent minus the value that returns, with no saturation;
      it fails exactly on a missing spent output, an overflowing or negative balance. */
  lemma {:induction false} ChargeMeaning(w: Wallet, psbt: Psbt)
    ensures ChargeOf(w, psbt).Ok? ==>
              && AllSpent(psbt.inputs)
              && ChargeOf(w, psbt).value == SumInputs(psbt.inputs) - OwnSum(w, psbt.tx.outputs)
    ensures WindowOk(w) ==>
              (ChargeOf(w, psbt).Ok? <==>
                 AllSpent(psbt.inputs) && SumOutputs(psbt.tx.outputs) <= SumInputs(psbt.inputs) <= U64_MAX)
  {
    hide InputsFrom, OutputsFrom, WindowOk, SumInputs, SumOutputs, OwnSum;
    EmptySums(w, psbt);
    InputsMeaning(psbt.inputs, 0, 0);
    OutputsMeaning(w, psbt.tx.outputs, 0, 0, 0);
    OwnWithinAll(w, psbt.tx.outputs);
  }

  lemma {:induction false} EmptySums(w: Wallet, psbt: Psbt)
    ensures SumInputs(psbt.inputs[..0]) == 0 && SumOutputs(psbt.tx.outputs[..0]) == 0
        && OwnSum(w, psbt.tx.outputs[..0]) == 0
  {
  }

  /** What an accepted PSBT calls change does come back to the wallet. */
  lemma {:induction false} ChangeIsOwn(h: Host, psbt: Psbt, w: Wallet, policy: VerifyPolicy, n: nat)
    requires SameShape(psbt) && n <= |psbt.outputs| && w.gap == policy.gapLimit && w.curve == h.curve
    requires forall i :: 0 <= i < n ==> OutputOk(h, psbt, w.change, policy, i)
    ensures OwnSum(w, psbt.tx.outputs[..n]) >= SumOutputs(psbt.tx.outputs[..n]) - DeclaredSum(h, policy,
        psbt.tx.outputs[..n])
  {
    if n > 0 {
      hide IsDeclared, ChangeMap;
      assert psbt.tx.outputs[..n][..n - 1] == psbt.tx.outputs[..n - 1];
      ChangeIsOwn(h, psbt, w, policy, n - 1);
      assert OutputOk(h, psbt, w.change, policy, n - 1);
    }
  }

  /** When the verifier also accepts, the charge is the watch-only value of the inputs minus all
      own outputs, and at most what the user is shown: the amount plus the fee. */
  lemma {:induction false} ChargeWithinVerdict(h: Host, psbt: Psbt, descriptor: string, policy: VerifyPolicy)
    requires Verdict(h, psbt, descriptor, policy).Ok? && Charge(h.curve, psbt, descriptor, policy).Ok?
    ensures AllKnown(policy, psbt.tx.inputs, psbt.inputs) && WalletOf(h.curve, descriptor, policy).Ok?
    ensures var v, w := Verdict(h, psbt, descriptor, policy).value, WalletOf(h.curve, descriptor, policy).value;
            var charge := Charge(h.curve, psbt, descriptor, policy).value;
            && charge == KnownSum(policy, psbt.tx.inputs) - OwnSum(w, psbt.tx.outputs)
            && v.feeSats <= charge <= v.amountSats + v.feeSats
  {
    hide ParsedWith, ParsedChange, ChargeOf, InputChecks, OutputChecks, SumInputs, SumOutputs, OwnSum, KnownSum,
        DeclaredSum;
    var w := WalletOf(h.curve, descriptor, policy).value;
    Conservation(h, psbt, descriptor, policy);
    ChargeMeaning(w, psbt);
    ClaimedIsKnown(policy, psbt.tx.inputs, psbt.inputs);
    AcceptedOutputs(h, psbt, descriptor, policy);
    ChangeIsOwn(h, psbt, w, policy, |psbt.outputs|);
    assert psbt.tx.outputs[..|psbt.outputs|] == psbt.tx.outputs;
    OwnWithinAll(w, psbt.tx.outputs);
  }

  lemma AcceptedOutputs(h: Host, psbt: Psbt, descriptor: string, policy: VerifyPolicy)
    requires Verdict(h, psbt, descriptor, policy).Ok?
    ensures SameShape(psbt) && ParsedChange(h.curve, policy).Ok?
    ensures forall i :: 0 <= i < |psbt.outputs| ==> OutputOk(h, psbt, ParsedChange(h.curve, policy).value, policy, i)
  {
    hide ParsedWith, ParsedChange, InputChecks, OutputOk, ClassifyFrom, V5, V6, V10From;
    OutputsIff(h, psbt, ParsedChange(h.curve, policy).value, policy);
  }

  // --- The loops -----------------------------------------------------------

  method BelongsToWalletScan(w: Wallet, script: Bytes) returns (r: Result<bool, DeriveError>)
    ensures r == Belongs(w, script)
  {
    hide ScanFrom;
    r := MatchesDescriptor(w.curve, w.receive, script, w.gap);
    if r.Err? || r.value {
      return;
    }
    if w.change.None? {
      return Ok(false);
    }
    r := MatchesDescriptor(w.curve, w.change.value, script, w.gap);
  }

  method ComputeChargeOf(w: Wallet, psbt: Psbt) returns (r: Result<u64, SignError>)
    ensures r == ChargeOf(w, psbt)
  {
    hide Belongs;
    var sumIn: u64 := 0;
    for i := 0 to |psbt.inputs|
      invariant InputsFrom(psbt.inputs, 0, 0) == InputsFrom(psbt.inputs, i, sumIn)
    {
      if psbt.inputs[i].witnessUtxo.None? {
        return Err(NoWitnessUtxo(i));
      }
      var v := psbt.inputs[i].witnessUtxo.value.value;
      if sumIn + v > U64_MAX {
        return Err(UnbalancedPsbt);
      }
      sumIn := sumIn + v;
    }
    var sumOut: u64, foreign: u64 := 0, 0;
    for i := 0 to |psbt.tx.outputs|
      invariant OutputsFrom(w, psbt.tx.outputs, 0, 0, 0) == OutputsFrom(w, psbt.tx.outputs, i, sumOut, foreign)
    {
      var v := psbt.tx.outputs[i].value;
      if sumOut + v > U64_MAX {
        return Err(UnbalancedPsbt);
      }
      sumOut := sumOut + v;
      var ours := BelongsToWalletScan(w, psbt.tx.outputs[i].scriptPubkey);
      if ours.Err? {
        return Err(SignError.Verify(VerifyError.Derive(ours.error)));
      }
      if !ours.value {
        foreign := SatAdd(foreign, v);
      }
    }
    if sumOut > sumIn {
      return Err(UnbalancedPsbt);
    }
    return Ok(SatAdd(foreign, sumIn - sumOut));
  }

  method ComputeCharge(c: Curve, psbt: Psbt, descriptor: string, policy: VerifyPolicy)
    returns (r: Result<u64, SignError>)
    ensures r == Charge(c, psbt, descriptor, policy)
  {
    hide ParsedWith, ParsedChange, ChargeOf;
    var receive := VerifyLoops.ParseWith(c, descriptor);
    if receive.Err? {
      return Err(SignError.Verify(receive.error));
    }
    var change := VerifyLoops.ParseChange(c, policy);
    if change.Err? {
      return Err(SignError.Verify(change.error));
    }
    r := ComputeChargeOf(Wallet(c, receive.value, change.value, policy.gapLimit), psbt);
  }

  // --- The input set -------------------------------------------------------

  function Prevouts(inputs: seq<TxIn>): (r: seq<OutPoint>)
    ensures |r| == |inputs| && forall i :: 0 <= i < |inputs| ==> r[i] == inputs[i].previousOutput
  {
    seq(|inputs|, i requires 0 <= i < |inputs| => inputs[i].previousOutput)
  }

  /** `input_set`: exactly the outpoints spent, between one and a hundred of them. */
  function InputSetOf(psbt: Psbt): (r: Result<InputSet, SignError>)
    ensures r.Ok? <==> 1 <= |psbt.tx.inputs| <= StateCodec.MAX_INPUTS
    ensures r.Ok? ==> 1 <= |r.value| <= StateCodec.MAX_INPUTS
    ensures r.Ok? ==> forall i :: 0 <= i < |psbt.tx.inputs| ==> psbt.tx.inputs[i].previousOutput in r.value
    ensures r.Ok? ==> forall o :: o in r.value ==> o in Prevouts(psbt.tx.inputs)
  {
    if psbt.tx.inputs == [] then Err(EmptyPsbt)
    else if |psbt.tx.inputs| > StateCodec.MAX_INPUTS then Err(TooManyInputs)
    else
      var outpoints := Prevouts(psbt.tx.inputs);
      assert forall i :: 0 <= i < |outpoints| ==> outpoints[i] in Collect(outpoints);
      Ok(Collect(outpoints))
  }
}
