/** The independent verifier: what it accepts of a PSBT, check by check, as functions. */
module Verify {
  import opened Machine
  import opened Errors
  import opened Bitcoin
  import opened Bip67
  import opened Descriptor
  import opened Derive
  import opened Psbts
  import opened IndexSearch
  import OriginPath

  const MAX_PSBT_INS_OR_OUTS: nat := 100

  datatype VerifyPolicy = VerifyPolicy(
    declaredRecipients: seq<string>,
    declaredAmountSats: u64,
    maxAbsoluteFee: u64,
    maxFeerate: u64,
    declaredFeeSats: Option<u64>,
    gapLimit: u32,
    knownUtxos: map<OutPoint, TxOut>,
    changeDescriptor: Option<string>,
    network: Network)

  datatype PsbtVerdict = PsbtVerdict(recipient: string, amountSats: u64, changeSats: u64,
                                     feeSats: u64, feerateSatVb: u64)

  datatype ClassifiedOutput = ClassifiedOutput(isChange: bool, amountSats: u64, address: string)

  type Check = Result<(), VerifyError>

  // --- V1: descriptors -----------------------------------------------------

  function ParsedWith(c: Curve, descriptor: string): Result<ParsedDescriptor, VerifyError> {
    Parsed(descriptor, xpub => c.decodeXpub(xpub).Some?).MapErr(e => VerifyError.Descriptor(e))
  }

  function ParsedChange(c: Curve, policy: VerifyPolicy): Result<Option<ParsedDescriptor>, VerifyError> {
    match policy.changeDescriptor
    case None => Ok(None)
    case Some(s) =>
      var d :- ParsedWith(c, s);
      Ok(Some(d))
  }

  // --- V8: structure -------------------------------------------------------

  predicate SameShape(psbt: Psbt) {
    |psbt.inputs| == |psbt.tx.inputs| && |psbt.outputs| == |psbt.tx.outputs|
  }

  predicate Unsigned(tx: Transaction) {
    forall i :: 0 <= i < |tx.inputs| ==> tx.inputs[i].scriptSig == [] && tx.inputs[i].witnessStack == []
  }

  predicate NoProprietary(psbt: Psbt) {
    && !psbt.proprietary
    && (forall i :: 0 <= i < |psbt.inputs| ==> !psbt.inputs[i].proprietary)
    && (forall i :: 0 <= i < |psbt.outputs| ==> !psbt.outputs[i].proprietary)
  }

  function V8(psbt: Psbt): Check {
    if !SameShape(psbt) || psbt.tx.inputs == [] then Err(InconsistentPsbt)
    else if |psbt.tx.inputs| > MAX_PSBT_INS_OR_OUTS || |psbt.tx.outputs| > MAX_PSBT_INS_OR_OUTS
    then Err(TooManyInputsOutputs)
    else if !Unsigned(psbt.tx) then Err(InconsistentPsbt)
    else if !NoProprietary(psbt) then Err(ProprietaryField)
    else Ok(())
  }

  // --- V9 and V7: spent outputs --------------------------------------------

  predicate AllWitnessUtxos(psbt: Psbt) {
    forall i :: 0 <= i < |psbt.inputs| ==> psbt.inputs[i].witnessUtxo.Some?
  }

  function V9From(psbt: Psbt, i: nat): (r: Check)
    requires i <= |psbt.inputs|
    ensures r.Ok? <==> forall k :: i <= k < |psbt.inputs| ==> psbt.inputs[k].witnessUtxo.Some?
    decreases |psbt.inputs| - i
  {
    if i == |psbt.inputs| then Ok(())
    else if psbt.inputs[i].witnessUtxo.Some? then V9From(psbt, i + 1)
    else if psbt.inputs[i].nonWitnessUtxo.Some? then Err(NonWitnessUtxoOnly(i))
    else Err(MissingWitnessUtxo(i))
  }

  /** Input `k` is the first from `i` on without its witness output. */
  predicate FirstMissing(psbt: Psbt, i: nat, k: nat) {
    && i <= k < |psbt.inputs| && psbt.inputs[k].witnessUtxo.None?
    && forall j :: i <= j < k ==> psbt.inputs[j].witnessUtxo.Some?
  }

  /** The error names the first input without its witness output, and says whether it carries the
      whole previous transaction instead. */
  lemma {:induction false} V9Names(psbt: Psbt, i: nat, k: nat)
    requires i <= |psbt.inputs| && FirstMissing(psbt, i, k)
    ensures V9From(psbt, i)
            == Err(if psbt.inputs[k].nonWitnessUtxo.Some? then NonWitnessUtxoOnly(k) else MissingWitnessUtxo(k))
    decreases |psbt.inputs| - i
  {
    if i < k {
      V9Names(psbt, i + 1, k);
    }
  }

  /** The watch-only record of an input is there and equals what the PSBT claims. */
  predicate KnownAs(policy: VerifyPolicy, txin: TxIn, utxo: TxOut) {
    txin.previousOutput in policy.knownUtxos && policy.knownUtxos[txin.previousOutput] == utxo
  }

  function V7From(psbt: Psbt, policy: VerifyPolicy, i: nat): (r: Check)
    requires SameShape(psbt) && AllWitnessUtxos(psbt) && i <= |psbt.inputs|
    ensures r.Ok? <==> forall k :: i <= k < |psbt.inputs| ==>
                         KnownAs(policy, psbt.tx.inputs[k], psbt.inputs[k].witnessUtxo.value)
    decreases |psbt.inputs| - i
  {
    if i == |psbt.inputs| then Ok(())
    else
      var prevout := psbt.tx.inputs[i].previousOutput;
      if prevout !in policy.knownUtxos then Err(UnknownInput(i))
      else if policy.knownUtxos[prevout] != psbt.inputs[i].witnessUtxo.value then Err(MismatchedUtxo(i))
      else V7From(psbt, policy, i + 1)
  }

  // --- V2: inputs are ours -------------------------------------------------

  /** `matches_any_derived`. */
  function MatchesAny(c: Curve, script: Bytes, receive: ParsedDescriptor, change: Option<ParsedDescriptor>,
                      gap: u32, hint: Option<u32>): Result<bool, DeriveError>
  {
    var found :- Search(c, receive, script, gap, hint);
    if found.Some? then Ok(true)
    else match change
         case None => Ok(false)
         case Some(d) =>
           var inChange :- Search(c, d, script, gap, hint);
           Ok(inChange.Some?)
  }

  function V2From(c: Curve, psbt: Psbt, receive: ParsedDescriptor, change: Option<ParsedDescriptor>, gap: u32,
                  i: nat): Check
    requires AllWitnessUtxos(psbt) && i <= |psbt.inputs|
    decreases |psbt.inputs| - i
  {
    if i == |psbt.inputs| then Ok(())
    else
      var input := psbt.inputs[i];
      match MatchesAny(c, input.witnessUtxo.value.scriptPubkey, receive, change, gap, HintOf(input.derivation))
      case Err(e) => Err(VerifyError.Derive(e))
      case Ok(false) => Err(ForeignInput(i))
      case Ok(true) => V2From(c, psbt, receive, change, gap, i + 1)
  }

  // --- V3 and V4: outputs --------------------------------------------------

  predicate EqualIgnoringCase(a: string, b: string) {
    |a| == |b| && forall i :: 0 <= i < |a| ==> Lower(a[i]) == Lower(b[i])
  }

  predicate IsDeclared(policy: VerifyPolicy, address: string) {
    exists i :: 0 <= i < |policy.declaredRecipients| && EqualIgnoringCase(address, policy.declaredRecipients[i])
  }

  datatype V4Outcome = Passes | Fails | Panics

  /** `key_expr_for_fingerprint`. */
  function KeyFor(d: ParsedDescriptor, fingerprint: Fingerprint): Option<KeyExpr> {
    if d.keys[0].fingerprint == fingerprint then Some(d.keys[0])
    else if d.keys[1].fingerprint == fingerprint then Some(d.keys[1])
    else if d.keys[2].fingerprint == fingerprint then Some(d.keys[2])
    else None
  }

  /** The origin read as a derivation path after `m/` is put before it; `None` where that
      does not parse, which it does not when the origin already starts with `m/`. */
  function OriginSteps(origin: string): Option<seq<ChildNumber>> {
    StepsOf(OriginPath.Split(origin))
  }

  function StepsOf(parts: seq<string>): (r: Option<seq<ChildNumber>>)
    ensures r.Some? ==> |r.value| == |parts|
  {
    if parts == [] then Some([])
    else match (OriginPath.SegmentIndex(parts[0]), StepsOf(parts[1..]))
         case (Some(n), Some(rest)) => Some([Hardened(n)] + rest)
         case _ => None
  }

  /** `path_is_change_at`. */
  function PathIsChangeAt(path: seq<ChildNumber>, key: KeyExpr, index: u32): V4Outcome {
    if |path| != 6 || path[4] != Normal(1) || path[5] != Normal(index) then Fails
    else match OriginSteps(key.originPath)
         case None => Panics
         case Some(steps) => if |steps| == 4 && steps == path[..4] then Passes else Fails
  }

  function V4Entry(derivation: Derivation, d: ParsedDescriptor, index: u32, i: nat): V4Outcome
    requires i < |derivation|
  {
    var e := derivation[i];
    if exists j :: 0 <= j < i && derivation[j].fingerprint == e.fingerprint then Fails
    else match KeyFor(d, e.fingerprint)
         case None => Fails
         case Some(key) => PathIsChangeAt(e.path, key, index)
  }

  function V4From(derivation: Derivation, d: ParsedDescriptor, index: u32, i: nat): V4Outcome
    requires i <= |derivation|
    decreases |derivation| - i
  {
    if i == |derivation| then Passes
    else if V4Entry(derivation, d, index, i).Passes? then V4From(derivation, d, index, i + 1)
    else V4Entry(derivation, d, index, i)
  }

  function KeySet(keys: seq<PubKey>): set<PubKey> {
    set k | k in keys
  }

  function MapKeys(derivation: Derivation): (r: seq<PubKey>)
    ensures |r| == |derivation|
  {
    seq(|derivation|, i requires 0 <= i < |derivation| => derivation[i].key)
  }

  /** `check_v4_change`. */
  function V4(c: Curve, derivation: Derivation, d: ParsedDescriptor, index: u32): V4Outcome {
    match DeriveAt(c, d, index)
    case Err(_) => Fails
    case Ok(derived) =>
      if |derivation| != 3 then Fails
      else if !V4From(derivation, d, index, 0).Passes? then V4From(derivation, d, index, 0)
      else if KeySet(PublicKeys(derived.children)) != KeySet(MapKeys(derivation)) then Fails
      else Passes
  }

  /** An output that is not a declared recipient. */
  function ChangeOutput(c: Curve, derivation: Derivation, change: Option<ParsedDescriptor>, script: Bytes,
                        gap: u32, i: nat): Check
  {
    match change
    case None => Err(ForeignChangeOutput(i))
    case Some(d) =>
      match Search(c, d, script, gap, HintOf(derivation))
      case Err(e) => Err(VerifyError.Derive(e))
      case Ok(None) => Err(ForeignChangeOutput(i))
      case Ok(Some(index)) =>
        match V4(c, derivation, d, index)
        case Passes => Ok(())
        case Fails => Err(MismatchedDerivation(i))
        case Panics => Err(VerifierPanics)
  }

  function Classify(h: Host, psbt: Psbt, change: Option<ParsedDescriptor>, policy: VerifyPolicy, i: nat)
    : Result<ClassifiedOutput, VerifyError>
    requires SameShape(psbt) && i < |psbt.outputs|
  {
    var txout := psbt.tx.outputs[i];
    match h.address(policy.network, txout.scriptPubkey)
    case None => Err(InvalidOutputAddress(i))
    case Some(address) =>
      if IsDeclared(policy, address) then Ok(ClassifiedOutput(false, txout.value, address))
      else match ChangeOutput(h.curve, psbt.outputs[i].derivation, change, txout.scriptPubkey, policy.gapLimit, i)
           case Err(e) => Err(e)
           case Ok(_) => Ok(ClassifiedOutput(true, txout.value, address))
  }

  /** `classify_outputs` from output `i` on. */
  function ClassifyFrom(h: Host, psbt: Psbt, change: Option<ParsedDescriptor>, policy: VerifyPolicy, i: nat)
    : Result<seq<ClassifiedOutput>, VerifyError>
    requires SameShape(psbt) && i <= |psbt.outputs|
    decreases |psbt.outputs| - i
  {
    if i == |psbt.outputs| then Ok([])
    else
      match Classify(h, psbt, change, policy, i)
      case Err(e) => Err(e)
      case Ok(first) =>
        match ClassifyFrom(h, psbt, change, policy, i + 1)
        case Err(e) => Err(e)
        case Ok(rest) => Ok([first] + rest)
  }

  // --- V5: fee -------------------------------------------------------------

  /** Exact sums, over the natural numbers. */
  function SumOutputs(outputs: seq<TxOut>): nat {
    if outputs == [] then 0 else SumOutputs(outputs[..|outputs| - 1]) + outputs[|outputs| - 1].value
  }

  function SumInputs(inputs: seq<Input>): nat
    requires forall i :: 0 <= i < |inputs| ==> inputs[i].witnessUtxo.Some?
  {
    if inputs == [] then 0 else SumInputs(inputs[..|inputs| - 1]) + inputs[|inputs| - 1].witnessUtxo.value.value
  }

  function DivCeil(a: nat, b: nat): nat
    requires b > 0
  {
    (a + b - 1) / b
  }

  lemma TimesAtLeast(k: nat, b: nat)
    requires b > 0
    ensures k * b >= k
  {
    assert k * (b - 1) >= 0;
  }

  lemma TimesMonotone(k: nat, m: nat, b: nat)
    requires k <= m
    ensures k * b <= m * b
  {
    assert (m - k) * b >= 0;
  }

  /** The rounded-up quotient is the least number whose product with `b` reaches `a`. */
  lemma DivCeilBound(a: nat, b: nat)
    requires b > 0
    ensures a <= DivCeil(a, b) * b < a + b
    ensures DivCeil(a, b) <= a
  {
    var q := DivCeil(a, b);
    assert q * b + (a + b - 1) % b == a + b - 1;
    TimesAtLeast(a, b);
    assert (a + 1) * b == a * b + b;
    if q > a {
      TimesMonotone(a + 1, q, b);
    }
  }

  function V5(h: Host, psbt: Psbt, policy: VerifyPolicy): Result<(u64, u64), VerifyError>
    requires AllWitnessUtxos(psbt)
  {
    var sumIn, sumOut := SumInputs(psbt.inputs), SumOutputs(psbt.tx.outputs);
    if sumIn > U64_MAX || sumOut > U64_MAX || sumOut >= sumIn then Err(FeeNonPositive)
    else
      var fee: u64 := sumIn - sumOut;
      if fee > policy.maxAbsoluteFee then Err(FeeTooHigh(fee, policy.maxAbsoluteFee))
      else if policy.declaredFeeSats.Some? && fee != policy.declaredFeeSats.value
      then Err(FeeMismatch(fee, policy.declaredFeeSats.value))
      else
        var vsize := Max(h.vsize(psbt.tx), 1);
        DivCeilBound(fee, vsize);
        var feerate: u64 := DivCeil(fee, vsize);
        if feerate > policy.maxFeerate then Err(FeerateTooHigh(feerate, policy.maxFeerate))
        else Ok((fee, feerate))
  }

  // --- V6 and the verdict --------------------------------------------------

  /** The saturating fold over the outputs of one kind. */
  function Folded(classified: seq<ClassifiedOutput>, isChange: bool): u64 {
    if classified == [] then 0
    else
      var last := classified[|classified| - 1];
      var front := Folded(classified[..|classified| - 1], isChange);
      if last.isChange == isChange then SatAdd(front, last.amountSats) else front
  }

  function V6(classified: seq<ClassifiedOutput>, policy: VerifyPolicy): Check {
    var actual := Folded(classified, false);
    if actual != policy.declaredAmountSats then Err(AmountMismatch(actual, policy.declaredAmountSats)) else Ok(())
  }

  /** The declared recipient, or else the address of the first output that is not change. */
  function Recipient(classified: seq<ClassifiedOutput>, policy: VerifyPolicy): string {
    if policy.declaredRecipients != [] then policy.declaredRecipients[0] else FirstAddress(classified)
  }

  function FirstAddress(classified: seq<ClassifiedOutput>): string {
    if classified == [] then ""
    else if !classified[0].isChange && classified[0].address != "" then classified[0].address
    else FirstAddress(classified[1..])
  }

  // --- V10: signatures already there ---------------------------------------

  predicate Canonical(h: Host, sig: Signature) {
    sig.sighashType.All? && h.normalizeS(sig.ecdsa) == sig.ecdsa
  }

  function V10SigsFrom(h: Host, sigs: PartialSigs, k: nat, i: nat): (r: Check)
    requires k <= |sigs|
    ensures r.Ok? <==> forall j :: k <= j < |sigs| ==> Canonical(h, sigs[j].sig)
    decreases |sigs| - k
  {
    if k == |sigs| then Ok(())
    else if !sigs[k].sig.sighashType.All? then Err(NonSighashAll(i))
    else if h.normalizeS(sigs[k].sig.ecdsa) != sigs[k].sig.ecdsa then Err(BadSignature(i))
    else V10SigsFrom(h, sigs, k + 1, i)
  }

  function V10Input(h: Host, input: Input, i: nat): Check {
    if input.sighashType.Some? && !IsSighashAll(input.sighashType.value) then Err(NonSighashAll(i))
    else V10SigsFrom(h, input.partialSigs, 0, i)
  }

  function V10From(h: Host, psbt: Psbt, i: nat): (r: Check)
    requires i <= |psbt.inputs|
    ensures r.Ok? <==> forall k :: i <= k < |psbt.inputs| ==> V10Input(h, psbt.inputs[k], k).Ok?
    decreases |psbt.inputs| - i
  {
    if i == |psbt.inputs| then Ok(())
    else match V10Input(h, psbt.inputs[i], i)
         case Err(e) => Err(e)
         case Ok(_) => V10From(h, psbt, i + 1)
  }

  // --- verify --------------------------------------------------------------

  /** V8, V9, V7 and V2: the checks on the transaction's structure and inputs. */
  function InputChecks(h: Host, psbt: Psbt, receive: ParsedDescriptor, change: Option<ParsedDescriptor>,
                       policy: VerifyPolicy): (r: Check)
    ensures r.Ok? ==> SameShape(psbt) && AllWitnessUtxos(psbt)
  {
    var _ :- V8(psbt);
    var _ :- V9From(psbt, 0);
    var _ :- V7From(psbt, policy, 0);
    V2From(h.curve, psbt, receive, change, policy.gapLimit, 0)
  }

  /** V3 to V6 and V10: the checks on outputs, fee, amount and signatures, and the verdict. */
  function OutputChecks(h: Host, psbt: Psbt, change: Option<ParsedDescriptor>, policy: VerifyPolicy)
    : Result<PsbtVerdict, VerifyError>
    requires SameShape(psbt) && AllWitnessUtxos(psbt)
  {
    var classified :- ClassifyFrom(h, psbt, change, policy, 0);
    var (fee, feerate) :- V5(h, psbt, policy);
    var _ :- V6(classified, policy);
    var _ :- V10From(h, psbt, 0);
    Ok(PsbtVerdict(Recipient(classified, policy), Folded(classified, false), Folded(classified, true), fee, feerate))
  }

  function Verdict(h: Host, psbt: Psbt, descriptor: string, policy: VerifyPolicy): Result<PsbtVerdict, VerifyError> {
    var receive :- ParsedWith(h.curve, descriptor);
    var change :- ParsedChange(h.curve, policy);
    var _ :- InputChecks(h, psbt, receive, change, policy);
    OutputChecks(h, psbt, change, policy)
  }
}
