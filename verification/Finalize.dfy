/** Finishing a signed PSBT: the witness of each input, in the key order the script wants, and
    the transaction that carries them. */
module Finalize {
  import opened Machine
  import opened Errors
  import opened Bitcoin
  import opened Order
  import opened Bip67
  import opened Descriptor
  import opened Derive
  import opened Psbts
  import opened Verify
  import opened Signing
  import opened Multisig
  import VerifyMeaning

  // --- Which descriptor and index ------------------------------------------

  /** `branch_and_index`: the last two steps of the first derivation path. */
  function BranchAndIndex(derivation: Derivation, i: nat): (r: Result<(u32, u32), SignError>)
    ensures r.Ok? <==> derivation != [] && |derivation[0].path| >= 2
                       && (exists b: u32, n: u32 :: b <= 1 && Ends(derivation[0].path, b, n))
    ensures r.Ok? ==> r.value.0 <= 1 && Ends(derivation[0].path, r.value.0, r.value.1)
  {
    if derivation == [] then Err(MissingDerivation(i))
    else
      var path := derivation[0].path;
      var n := |path|;
      if n < 2 || path[n - 2].Hardened? || path[n - 1].Hardened? || path[n - 2].index > 1
      then Err(InvalidDerivationPath(i))
      else
        assert Ends(path, path[n - 2].index, path[n - 1].index);
        Ok((path[n - 2].index, path[n - 1].index))
  }

  predicate Ends(path: seq<ChildNumber>, branch: u32, index: u32) {
    |path| >= 2 && path[|path| - 2] == Normal(branch) && path[|path| - 1] == Normal(index)
  }

  /** `derived_for_input`. */
  function DerivedFor(c: Curve, input: Input, i: nat, receive: ParsedDescriptor, change: Option<ParsedDescriptor>)
    : Result<DerivedOutput, SignError>
  {
    match BranchAndIndex(input.derivation, i)
    case Err(e) => Err(e)
    case Ok((branch, index)) =>
      if branch != 0 && change.None? then Err(InvalidDerivationPath(i))
      else match DeriveAt(c, if branch == 0 then receive else change.value, index)
           case Err(_) => Err(SignerPanics)
           case Ok(o) => Ok(o)
  }

  // --- The witness ---------------------------------------------------------

  /** The first signature in map order whose key has these bytes. */
  function SigFor(sigs: seq<SigEntry>, key: PubKey): (r: Option<Signature>)
    ensures r.Some? ==> exists e :: e in sigs && e.key.inner == key && e.sig == r.value
    ensures r.None? ==> forall e :: e in sigs ==> e.key.inner != key
  {
    if sigs == [] then None
    else if sigs[0].key.inner == key then Some(sigs[0].sig)
    else SigFor(sigs[1..], key)
  }

  /** The positions of the keys whose signatures are taken, from position `j` on, when `taken`
      are taken already. */
  function PickFrom(sigs: PartialSigs, keys: seq<PubKey>, j: nat, taken: nat, i: nat): Result<seq<nat>, SignError>
    requires j <= |keys| && taken <= 2
    decreases |keys| - j
  {
    if j == |keys| || taken == 2 then Ok([])
    else match SigFor(sigs, keys[j])
         case None => PickFrom(sigs, keys, j + 1, taken, i)
         case Some(sig) =>
           if !sig.sighashType.All? then Err(SighashNotAll(i))
           else match PickFrom(sigs, keys, j + 1, taken + 1, i)
                case Err(e) => Err(e)
                case Ok(rest) => Ok([j] + rest)
  }

  /** A signature as a witness item: its encoding and the sighash byte of ALL. */
  function Item(sig: Signature): Bytes {
    sig.ecdsa + [0x01]
  }

  /** `witness_for_sorted`. */
  function WitnessFor(sigs: PartialSigs, keys: seq<PubKey>, script: Bytes, i: nat): Result<seq<Bytes>, SignError> {
    match PickFrom(sigs, keys, 0, 0, i)
    case Err(e) => Err(e)
    case Ok(at) =>
      PickedHaveSigs(sigs, keys, 0, 0, i);
      if |at| < 2 then Err(IncompleteWitness(i))
      else Ok([[], Item(SigFor(sigs, keys[at[0]]).value), Item(SigFor(sigs, keys[at[1]]).value), script])
  }

  predicate Increasing(at: seq<nat>) {
    forall a, b :: 0 <= a < b < |at| ==> at[a] < at[b]
  }

  predicate HasSig(sigs: seq<SigEntry>, key: PubKey) {
    SigFor(sigs, key).Some?
  }

  predicate HasAll(sigs: seq<SigEntry>, key: PubKey) {
    HasSig(sigs, key) && SigFor(sigs, key).value.sighashType.All?
  }

  lemma {:induction false} PickedHaveSigs(sigs: PartialSigs, keys: seq<PubKey>, j: nat, taken: nat, i: nat)
    requires j <= |keys| && taken <= 2
    ensures var r := PickFrom(sigs, keys, j, taken, i);
            r.Ok? ==> && |r.value| <= 2 - taken && Increasing(r.value)
                      && forall n :: 0 <= n < |r.value| ==> j <= r.value[n] < |keys| && HasAll(sigs, keys[r.value[n]])
    decreases |keys| - j
  {
    hide SigFor;
    if j < |keys| && taken < 2 {
      PickedHaveSigs(sigs, keys, j + 1, taken, i);
      PickedHaveSigs(sigs, keys, j + 1, taken + 1, i);
    }
  }

  /** The first two positions whose keys have signed. */
  predicate FirstTwo(sigs: seq<SigEntry>, keys: seq<PubKey>, a: nat, b: nat) {
    && a < b < |keys| && HasSig(sigs, keys[a]) && HasSig(sigs, keys[b])
    && forall n :: 0 <= n < b && n != a ==> !HasSig(sigs, keys[n])
  }

  /** Two positions at least have signed. */
  ghost predicate TwoSigned(sigs: seq<SigEntry>, keys: seq<PubKey>) {
    exists a, b :: 0 <= a < b < |keys| && HasSig(sigs, keys[a]) && HasSig(sigs, keys[b])
  }

  /** The first signed position from `j` on. */
  function NextSigned(sigs: seq<SigEntry>, keys: seq<PubKey>, j: nat): (r: Option<nat>)
    requires j <= |keys|
    ensures r.Some? ==> j <= r.value < |keys| && HasSig(sigs, keys[r.value])
    ensures forall n :: j <= n < (if r.Some? then r.value else |keys|) ==> !HasSig(sigs, keys[n])
    decreases |keys| - j
  {
    if j == |keys| then None
    else if HasSig(sigs, keys[j]) then Some(j)
    else NextSigned(sigs, keys, j + 1)
  }

  lemma {:induction false} FirstTwoExist(sigs: seq<SigEntry>, keys: seq<PubKey>) returns (a: nat, b: nat)
    requires TwoSigned(sigs, keys)
    ensures FirstTwo(sigs, keys, a, b)
  {
    hide HasSig;
    var x, y :| 0 <= x < y < |keys| && HasSig(sigs, keys[x]) && HasSig(sigs, keys[y]);
    a := NextSigned(sigs, keys, 0).value;
    b := NextSigned(sigs, keys, a + 1).value;
  }

  lemma {:induction false} PickSkips(sigs: PartialSigs, keys: seq<PubKey>, j: nat, m: nat, taken: nat, i: nat)
    requires j <= m <= |keys| && taken < 2 && forall n :: j <= n < m ==> !HasSig(sigs, keys[n])
    ensures PickFrom(sigs, keys, j, taken, i) == PickFrom(sigs, keys, m, taken, i)
    decreases m - j
  {
    if j < m {
      PickSkips(sigs, keys, j + 1, m, taken, i);
    }
  }

  /** The witness is that of the first two signed positions, refused exactly when one of their
      signatures is not SIGHASH_ALL; signatures of later keys are never looked at. */
  lemma {:induction false} WitnessOfFirstTwo(sigs: PartialSigs, keys: seq<PubKey>, a: nat, b: nat, script: Bytes,
                                             i: nat)
    requires FirstTwo(sigs, keys, a, b)
    ensures WitnessFor(sigs, keys, script, i)
            == if HasAll(sigs, keys[a]) && HasAll(sigs, keys[b])
               then Ok([[], Item(SigFor(sigs, keys[a]).value), Item(SigFor(sigs, keys[b]).value), script])
               else Err(SighashNotAll(i))
  {
    PickSkips(sigs, keys, 0, a, 0, i);
    PickSkips(sigs, keys, a + 1, b, 1, i);
    hide SigFor;
    assert HasAll(sigs, keys[b]) ==> PickFrom(sigs, keys, b, 1, i) == Ok([b] + []);
  }

  /** A witness is built exactly when two positions have signed and the first two of them with
      `SIGHASH_ALL`. */
  lemma {:induction false} WitnessIff(sigs: PartialSigs, keys: seq<PubKey>, script: Bytes, i: nat)
    ensures WitnessFor(sigs, keys, script, i).Ok?
            <==> exists a: nat, b: nat :: FirstTwo(sigs, keys, a, b) && HasAll(sigs, keys[a]) && HasAll(sigs, keys[b])
  {
    hide SigFor, PickFrom;
    PickedHaveSigs(sigs, keys, 0, 0, i);
    if WitnessFor(sigs, keys, script, i).Ok? {
      var at := PickFrom(sigs, keys, 0, 0, i).value;
      assert HasAll(sigs, keys[at[0]]) && HasAll(sigs, keys[at[1]]) && at[0] < at[1];
      var a, b := FirstTwoExist(sigs, keys);
      WitnessOfFirstTwo(sigs, keys, a, b, script, i);
    }
    if a: nat, b: nat :| FirstTwo(sigs, keys, a, b) && HasAll(sigs, keys[a]) && HasAll(sigs, keys[b]) {
      WitnessOfFirstTwo(sigs, keys, a, b, script, i);
    }
  }

  // --- Does the script accept it? ------------------------------------------

  /** What the interpreter does with a witness item: strip the sighash byte, verify the rest. */
  function CheckSig(h: Host, m: Hash256): (Bytes, PubKey) -> bool {
    (item: Bytes, key: PubKey) => item != [] && item[|item| - 1] == 0x01 && h.verifyEcdsa(m, item[..|item| - 1], key)
  }

  lemma ItemChecks(h: Host, m: Hash256, sig: Signature, key: PubKey)
    ensures CheckSig(h, m)(Item(sig), key) <==> h.verifyEcdsa(m, sig.ecdsa, key)
  {
    assert Item(sig)[..|Item(sig)| - 1] == sig.ecdsa;
  }

  /** The signature found for the key at this position verifies under the key at that one. */
  predicate Verifies(h: Host, m: Hash256, sigs: seq<SigEntry>, keys: seq<PubKey>, position: nat, under: nat)
    requires position < |keys| && under < |keys| && HasSig(sigs, keys[position])
  {
    h.verifyEcdsa(m, SigFor(sigs, keys[position]).value.ecdsa, keys[under])
  }

  /** No signature verifies under another key of the script. */
  ghost predicate OwnKeysOnly(h: Host, m: Hash256, sigs: seq<SigEntry>, keys: seq<PubKey>) {
    forall n: nat, k: nat :: n < |keys| && k < |keys| && HasSig(sigs, keys[n]) && Verifies(h, m, sigs, keys, n, k) ==>
      keys[k] == keys[n]
  }

  /** The script accepts the two signatures exactly when they verify under two keys in order; two
      that verify under their own keys are accepted, and where no signature verifies under a key
      of another, only such two are. */
  lemma {:induction false} WitnessSatisfies(h: Host, m: Hash256, sigs: PartialSigs, keys: seq<PubKey>, a: nat, b: nat)
    requires FirstTwo(sigs, keys, a, b)
    ensures var stack := [Item(SigFor(sigs, keys[a]).value), Item(SigFor(sigs, keys[b]).value)];
            && (Greedy(stack, keys, CheckSig(h, m))
                <==> exists x: nat, y: nat :: x < y < |keys| && Verifies(h, m, sigs, keys, a, x)
                                              && Verifies(h, m, sigs, keys, b, y))
            && (Verifies(h, m, sigs, keys, a, a) && Verifies(h, m, sigs, keys, b, b) ==>
                  Greedy(stack, keys, CheckSig(h, m)))
            && (OwnKeysOnly(h, m, sigs, keys) ==>
                  (Greedy(stack, keys, CheckSig(h, m))
                   <==> Verifies(h, m, sigs, keys, a, a) && Verifies(h, m, sigs, keys, b, b)))
  {
    hide SigFor, CheckSig, Greedy;
    var sa, sb := SigFor(sigs, keys[a]).value, SigFor(sigs, keys[b]).value;
    var stack, ok := [Item(sa), Item(sb)], CheckSig(h, m);
    if Greedy(stack, keys, ok) {
      var at := GreedyIsMatch(stack, keys, ok);
      ItemChecks(h, m, sa, keys[at[0]]);
      ItemChecks(h, m, sb, keys[at[1]]);
      assert ok(stack[0], keys[at[0]]) && ok(stack[1], keys[at[1]]) && at[0] < at[1];
      assert Verifies(h, m, sigs, keys, a, at[0]) && Verifies(h, m, sigs, keys, b, at[1]);
    }
    forall x: nat, y: nat | x < y < |keys| && Verifies(h, m, sigs, keys, a, x) && Verifies(h, m, sigs, keys, b, y)
      ensures Greedy(stack, keys, ok)
    {
      ItemChecks(h, m, sa, keys[x]);
      ItemChecks(h, m, sb, keys[y]);
      var at: seq<nat> := [x, y];
      assert OrderedMatch(stack, keys, ok, at);
      MatchIsGreedy(stack, keys, ok, at);
    }
  }

  // --- A signature that spoils the witness ---------------------------------

  /** A host under which exactly the one-byte signature that names the key verifies. */
  function ToyHost(h: Host): Host {
    h.(verifyEcdsa := (m: Hash256, sig: Bytes, key: PubKey) => sig == [key[32]])
  }

  const ToyKeys: seq<PubKey> := [ToyKey(1), ToyKey(2), ToyKey(3)]

  function ToySig(t: u8, ecdsa: u8): SigEntry {
    SigEntry(PublicKey(true, ToyKey(t)), Signature([ecdsa], All))
  }

  /** The first key's signature is not one of its own; the other two are. */
  const SpoiledSigs: seq<SigEntry> := [ToySig(1, 9), ToySig(2, 2), ToySig(3, 3)]

  lemma ToyOrder()
    ensures SigsOrdered(SpoiledSigs) && Ascending(ToyKeys)
    ensures ToyKey(1) != ToyKey(2) && ToyKey(1) != ToyKey(3) && ToyKey(2) != ToyKey(3)
  {
    hide LexLess, ToyKey;
    ToyLess(1, 2);
    ToyLess(1, 3);
    ToyLess(2, 3);
  }

  /** What is found for the first two keys: a signature that is not the first key's, and the
      second key's own. */
  lemma {:induction false} SpoiledFound()
    ensures SigsOrdered(SpoiledSigs) && FirstTwo(SpoiledSigs, ToyKeys, 0, 1)
    ensures SigFor(SpoiledSigs, ToyKeys[0]) == Some(Signature([9], All))
    ensures SigFor(SpoiledSigs, ToyKeys[1]) == Some(Signature([2], All))
  {
    ToyOrder();
    var sigs := SpoiledSigs;
    assert sigs[1..] == [ToySig(2, 2), ToySig(3, 3)];
    hide ToyKey;
  }

  lemma SpoiledVerifiesNowhere(h: Host, m: Hash256, x: nat)
    requires x < 3 && SigFor(SpoiledSigs, ToyKeys[0]) == Some(Signature([9], All))
    ensures !Verifies(ToyHost(h), m, SpoiledSigs, ToyKeys, 0, x)
  {
    hide SigFor;
    assert ToyKeys[x][32] == x + 1;
    assert [9][0] == 9 && [ToyKeys[x][32]][0] == x + 1;
  }

  lemma {:induction false} GoodPairPasses(h: Host, m: Hash256)
    ensures Greedy([Item(SpoiledSigs[1].sig), Item(SpoiledSigs[2].sig)], ToyKeys, CheckSig(ToyHost(h), m))
  {
    var host, sigs, keys := ToyHost(h), SpoiledSigs, ToyKeys;
    assert keys[1][32] == 2 && keys[2][32] == 3;
    ItemChecks(host, m, sigs[1].sig, keys[1]);
    ItemChecks(host, m, sigs[2].sig, keys[2]);
    hide CheckSig, Item, ToyHost, ToyKey, Greedy;
    var good, at: seq<nat> := [Item(sigs[1].sig), Item(sigs[2].sig)], [1, 2];
    assert OrderedMatch(good, keys, CheckSig(host, m), at);
    MatchIsGreedy(good, keys, CheckSig(host, m), at);
  }

  /** Three keys have signed and two of the signatures are good, but the bad one is first in key
      order: a witness is built, the script rejects it, and the two good ones would have passed. */
  lemma {:induction false} BadFirstSignature(h: Host, m: Hash256, script: Bytes, i: nat)
    ensures SigsOrdered(SpoiledSigs) && Ascending(ToyKeys)
    ensures var w := WitnessFor(SpoiledSigs, ToyKeys, script, i);
            && w.Ok? && |w.value| == 4
            && !Greedy(w.value[1..3], ToyKeys, CheckSig(ToyHost(h), m))
            && Greedy([Item(SpoiledSigs[1].sig), Item(SpoiledSigs[2].sig)], ToyKeys, CheckSig(ToyHost(h), m))
  {
    ToyOrder();
    SpoiledFound();
    GoodPairPasses(h, m);
    var sigs, keys, host := SpoiledSigs, ToyKeys, ToyHost(h);
    hide SigFor, ToyKey, ToyHost, CheckSig, Greedy, Item, LexLess, WitnessFor, Verifies, FirstTwo, ToySig;
    WitnessOfFirstTwo(sigs, keys, 0, 1, script, i);
    WitnessSatisfies(host, m, sigs, keys, 0, 1);
    forall x: nat | x < 3 ensures !Verifies(host, m, sigs, keys, 0, x) {
      SpoiledVerifiesNowhere(h, m, x);
    }
    var w := WitnessFor(sigs, keys, script, i).value;
    assert w[1..3] == [w[1], w[2]];
  }

  // --- The transaction -----------------------------------------------------

  /** One input: its spent output is the known one, derived by the wallet, and its witness. */
  function FinalInput(h: Host, psbt: Psbt, receive: ParsedDescriptor, change: Option<ParsedDescriptor>,
                      policy: VerifyPolicy, i: nat): Result<seq<Bytes>, SignError>
    requires |psbt.inputs| == |psbt.tx.inputs| && i < |psbt.inputs|
  {
    var input, prevout := psbt.inputs[i], psbt.tx.inputs[i].previousOutput;
    if input.witnessUtxo.None? then Err(NoWitnessUtxo(i))
    else if prevout !in policy.knownUtxos then Err(SignError.Verify(UnknownInput(i)))
    else if policy.knownUtxos[prevout] != input.witnessUtxo.value then Err(SignError.Verify(MismatchedUtxo(i)))
    else match DerivedFor(h.curve, input, i, receive, change)
         case Err(e) => Err(e)
         case Ok(derived) =>
           if input.witnessUtxo.value.scriptPubkey != derived.scriptPubkey then Err(WitnessScriptMismatch(i))
           else if input.witnessScript.None? then Err(NoWitnessScript(i))
           else if input.witnessScript.value != derived.witnessScript then Err(WitnessScriptMismatch(i))
           else WitnessFor(input.partialSigs, derived.sortedPubkeys, derived.witnessScript, i)
  }

  function FinalFrom(h: Host, psbt: Psbt, receive: ParsedDescriptor, change: Option<ParsedDescriptor>,
                     policy: VerifyPolicy, i: nat): Result<seq<seq<Bytes>>, SignError>
    requires |psbt.inputs| == |psbt.tx.inputs| && i <= |psbt.inputs|
    decreases |psbt.inputs| - i
  {
    if i == |psbt.inputs| then Ok([])
    else match FinalInput(h, psbt, receive, change, policy, i)
         case Err(e) => Err(e)
         case Ok(w) =>
           match FinalFrom(h, psbt, receive, change, policy, i + 1)
           case Err(e) => Err(e)
           case Ok(rest) => Ok([w] + rest)
  }

  /** `extract_tx_unchecked_fee_rate`: every input gets its witness, and its final script
      signature or an empty one. */
  function Extracted(psbt: Psbt, witnesses: seq<seq<Bytes>>): Transaction
    requires |witnesses| == |psbt.inputs| == |psbt.tx.inputs|
  {
    psbt.tx.(inputs := seq(|psbt.inputs|, i requires 0 <= i < |psbt.inputs| =>
                             Carried(psbt, i).(witnessStack := witnesses[i])))
  }

  /** The unsigned input with the script signature the PSBT carries for it. */
  function Carried(psbt: Psbt, i: nat): TxIn
    requires i < |psbt.inputs| == |psbt.tx.inputs|
  {
    psbt.tx.inputs[i].(scriptSig := psbt.inputs[i].finalScriptSig.GetOr([]))
  }

  /** The outputs the consensus check is given. */
  function SpentOutputs(policy: VerifyPolicy, inputs: seq<TxIn>): map<OutPoint, TxOut> {
    map i | 0 <= i < |inputs| && inputs[i].previousOutput in policy.knownUtxos ::
      inputs[i].previousOutput := policy.knownUtxos[inputs[i].previousOutput]
  }

  type Consensus = (Transaction, map<OutPoint, TxOut>) -> bool

  function Finished(h: Host, consensus: Consensus, psbt: Psbt, policy: VerifyPolicy, witnesses: seq<seq<Bytes>>)
    : Result<Transaction, SignError>
    requires |witnesses| == |psbt.inputs| == |psbt.tx.inputs| && AllWitnessUtxos(psbt)
  {
    var sumIn, sumOut := SumInputs(psbt.inputs), SumOutputs(psbt.tx.outputs);
    if sumIn > U64_MAX || sumOut > U64_MAX || sumOut >= sumIn then Err(UnbalancedPsbt)
    else
      var tx := Extracted(psbt, witnesses);
      if !consensus(tx, SpentOutputs(policy, psbt.tx.inputs)) then Err(ConsensusRejected)
      else if h.vsize(tx) == 0 then Err(SignerPanics)
      else
        DivCeilBound(sumIn - sumOut, h.vsize(tx));
        var feerate: u64 := DivCeil(sumIn - sumOut, h.vsize(tx));
        if feerate > policy.maxFeerate then Err(FinalFeerateTooHigh(feerate, policy.maxFeerate)) else Ok(tx)
  }

  lemma {:induction false} FinalEach(h: Host, psbt: Psbt, receive: ParsedDescriptor, change: Option<ParsedDescriptor>,
                                     policy: VerifyPolicy, i: nat)
    requires |psbt.inputs| == |psbt.tx.inputs| && i <= |psbt.inputs|
    ensures var r := FinalFrom(h, psbt, receive, change, policy, i);
            r.Ok? ==> && |r.value| == |psbt.inputs| - i
                      && (forall k :: i <= k < |psbt.inputs| ==>
                            FinalInput(h, psbt, receive, change, policy, k) == Ok(r.value[k - i]))
                      && (forall k :: i <= k < |psbt.inputs| ==> psbt.inputs[k].witnessUtxo.Some?)
    decreases |psbt.inputs| - i
  {
    hide FinalInput;
    if i < |psbt.inputs| {
      FinalEach(h, psbt, receive, change, policy, i + 1);
      FinalNeedsUtxo(h, psbt, receive, change, policy, i);
    }
  }

  lemma FinalNeedsUtxo(h: Host, psbt: Psbt, receive: ParsedDescriptor, change: Option<ParsedDescriptor>,
                       policy: VerifyPolicy, i: nat)
    requires |psbt.inputs| == |psbt.tx.inputs| && i < |psbt.inputs|
    ensures FinalInput(h, psbt, receive, change, policy, i).Ok? ==> psbt.inputs[i].witnessUtxo.Some?
  {
    hide DerivedFor, WitnessFor;
  }

  /** `finalize`. */
  function Finalized(h: Host, consensus: Consensus, psbt: Psbt, descriptor: string, policy: VerifyPolicy)
    : Result<Transaction, SignError>
  {
    if psbt.inputs == [] then Err(EmptyPsbt)
    else if |psbt.inputs| != |psbt.tx.inputs| then Err(SignError.Verify(InconsistentPsbt))
    else match ParsedWith(h.curve, descriptor)
         case Err(e) => Err(SignError.Verify(e))
         case Ok(receive) =>
           match ParsedChange(h.curve, policy)
           case Err(e) => Err(SignError.Verify(e))
           case Ok(change) =>
             FinalEach(h, psbt, receive, change, policy, 0);
             match FinalFrom(h, psbt, receive, change, policy, 0)
             case Err(e) => Err(e)
             case Ok(witnesses) => Finished(h, consensus, psbt, policy, witnesses)
  }

  // --- What a finished transaction is --------------------------------------

  /** The input spends a known output whose script commits to the wallet's own 2-of-3 script. */
  ghost predicate SpendsOwn(h: Host, psbt: Psbt, policy: VerifyPolicy, i: nat, script: Bytes, keys: seq<PubKey>)
    requires |psbt.inputs| == |psbt.tx.inputs| && i < |psbt.inputs|
  {
    var prevout := psbt.tx.inputs[i].previousOutput;
    && prevout in policy.knownUtxos && psbt.inputs[i].witnessUtxo == Some(policy.knownUtxos[prevout])
    && policy.knownUtxos[prevout].scriptPubkey == P2wsh(h.curve, script)
    && psbt.inputs[i].witnessScript == Some(script)
    && |keys| == 3 && Ascending(keys) && CheckmultisigScript(2, keys) == Ok(script)
  }

  /** The witness is the empty item, the signatures of the first two signed keys and the script,
      and for every message the script accepts it as `WitnessSatisfies` says. */
  ghost predicate DecidedBySignatures(h: Host, input: Input, stack: seq<Bytes>, script: Bytes, keys: seq<PubKey>,
                                      a: nat, b: nat)
  {
    var sigs := input.partialSigs;
    && FirstTwo(sigs, keys, a, b) && HasAll(sigs, keys[a]) && HasAll(sigs, keys[b])
    && stack == [[], Item(SigFor(sigs, keys[a]).value), Item(SigFor(sigs, keys[b]).value), script]
    && forall m: Hash256 :: AcceptedAsSigned(h, m, sigs, keys, a, b, stack[1..3])
  }

  ghost predicate AcceptedAsSigned(h: Host, m: Hash256, sigs: seq<SigEntry>, keys: seq<PubKey>, a: nat, b: nat,
                                   stack: seq<Bytes>)
    requires FirstTwo(sigs, keys, a, b)
  {
    var both := Verifies(h, m, sigs, keys, a, a) && Verifies(h, m, sigs, keys, b, b);
    && (both ==> Greedy(stack, keys, CheckSig(h, m)))
    && (OwnKeysOnly(h, m, sigs, keys) ==> (Greedy(stack, keys, CheckSig(h, m)) <==> both))
  }

  lemma {:induction false} BuiltIsDecided(h: Host, input: Input, script: Bytes, keys: seq<PubKey>, i: nat)
    returns (a: nat, b: nat)
    requires WitnessFor(input.partialSigs, keys, script, i).Ok?
    ensures DecidedBySignatures(h, input, WitnessFor(input.partialSigs, keys, script, i).value, script, keys, a, b)
  {
    hide SigFor, HasSig, HasAll, Item, CheckSig, Greedy, WitnessFor, OwnKeysOnly, Verifies;
    var sigs := input.partialSigs;
    WitnessIff(sigs, keys, script, i);
    a, b :| FirstTwo(sigs, keys, a, b) && HasAll(sigs, keys[a]) && HasAll(sigs, keys[b]);
    WitnessOfFirstTwo(sigs, keys, a, b, script, i);
    var stack := WitnessFor(sigs, keys, script, i).value;
    assert stack[1..3] == [stack[1], stack[2]];
    forall m: Hash256 ensures AcceptedAsSigned(h, m, sigs, keys, a, b, stack[1..3]) {
      WitnessSatisfies(h, m, sigs, keys, a, b);
    }
  }

  lemma FinalInputMeaning(h: Host, psbt: Psbt, receive: ParsedDescriptor, change: Option<ParsedDescriptor>,
                          policy: VerifyPolicy, i: nat) returns (script: Bytes, keys: seq<PubKey>, a: nat, b: nat)
    requires |psbt.inputs| == |psbt.tx.inputs| && i < |psbt.inputs|
    requires FinalInput(h, psbt, receive, change, policy, i).Ok?
    ensures SpendsOwn(h, psbt, policy, i, script, keys)
    ensures DecidedBySignatures(h, psbt.inputs[i], FinalInput(h, psbt, receive, change, policy, i).value, script, keys,
                                a, b)
  {
    hide BranchAndIndex, DeriveAt, WitnessFor, CheckmultisigScript, DecidedBySignatures, P2wsh;
    var derived := DerivedFor(h.curve, psbt.inputs[i], i, receive, change).value;
    script, keys := derived.witnessScript, derived.sortedPubkeys;
    DerivedShape(h.curve, psbt.inputs[i], i, receive, change);
    a, b := BuiltIsDecided(h, psbt.inputs[i], script, keys, i);
  }

  /** The path of the first derivation entry names the branch and the index whose derived output
      is the one spent, and the PSBT carries its script. */
  ghost predicate NamesOutput(h: Host, input: Input, receive: ParsedDescriptor, change: Option<ParsedDescriptor>,
                              branch: u32, index: u32)
  {
    && input.derivation != [] && Ends(input.derivation[0].path, branch, index)
    && (branch == 0 || (branch == 1 && change.Some?))
    && var o := DeriveAt(h.curve, if branch == 0 then receive else change.value, index);
       && o.Ok? && input.witnessUtxo.Some?
       && input.witnessUtxo.value.scriptPubkey == o.value.scriptPubkey
       && input.witnessScript == Some(o.value.witnessScript)
       && SignedByTwo(input.partialSigs, o.value.sortedPubkeys)
  }

  /** Two positions have signed, the first two of them with `SIGHASH_ALL`. */
  ghost predicate SignedByTwo(sigs: seq<SigEntry>, keys: seq<PubKey>) {
    exists a: nat, b: nat :: FirstTwo(sigs, keys, a, b) && HasAll(sigs, keys[a]) && HasAll(sigs, keys[b])
  }

  /** An input is finished exactly when it spends the known output its derivation path names and
      two of that output's keys have signed, the first two of them with `SIGHASH_ALL`. */
  lemma FinalInputIff(h: Host, psbt: Psbt, receive: ParsedDescriptor, change: Option<ParsedDescriptor>,
                      policy: VerifyPolicy, i: nat)
    requires |psbt.inputs| == |psbt.tx.inputs| && i < |psbt.inputs|
    ensures FinalInput(h, psbt, receive, change, policy, i).Ok?
            <==> && psbt.inputs[i].witnessUtxo.Some?
                 && KnownAs(policy, psbt.tx.inputs[i], psbt.inputs[i].witnessUtxo.value)
                 && exists branch: u32, index: u32 :: NamesOutput(h, psbt.inputs[i], receive, change, branch, index)
  {
    hide DeriveAt, WitnessFor, SignedByTwo, CheckmultisigScript, P2wsh, PublicKeys, Ascending;
    var input := psbt.inputs[i];
    var at := BranchAndIndex(input.derivation, i);
    if at.Ok? {
      var (branch, index) := at.value;
      if branch == 0 || change.Some? {
        var o := DeriveAt(h.curve, if branch == 0 then receive else change.value, index);
        if o.Ok? {
          BuiltIffTwo(input.partialSigs, o.value.sortedPubkeys, o.value.witnessScript, i);
          if FinalInput(h, psbt, receive, change, policy, i).Ok? {
            assert NamesOutput(h, input, receive, change, branch, index);
          }
        }
      }
    }
  }

  lemma BuiltIffTwo(sigs: PartialSigs, keys: seq<PubKey>, script: Bytes, i: nat)
    ensures WitnessFor(sigs, keys, script, i).Ok? <==> SignedByTwo(sigs, keys)
  {
    hide WitnessFor, FirstTwo, HasAll;
    WitnessIff(sigs, keys, script, i);
  }

  lemma DerivedShape(c: Curve, input: Input, i: nat, receive: ParsedDescriptor, change: Option<ParsedDescriptor>)
    requires DerivedFor(c, input, i, receive, change).Ok?
    ensures var o := DerivedFor(c, input, i, receive, change).value;
            && |o.sortedPubkeys| == 3 && Ascending(o.sortedPubkeys)
            && CheckmultisigScript(2, o.sortedPubkeys) == Ok(o.witnessScript)
            && o.scriptPubkey == P2wsh(c, o.witnessScript)
  {
    hide DeriveChildren, CheckmultisigScript, Sorted, BranchAndIndex;
  }

  /** A finished input: the unsigned one with the script signature the PSBT carries and a
      witness that satisfies the wallet's own script of the known output it spends. */
  ghost predicate FinalInputOk(h: Host, psbt: Psbt, policy: VerifyPolicy, tx: Transaction, i: nat)
    requires |psbt.inputs| == |psbt.tx.inputs| == |tx.inputs| && i < |tx.inputs|
  {
    && tx.inputs[i] == Carried(psbt, i).(witnessStack := tx.inputs[i].witnessStack)
    && exists script, keys, a: nat, b: nat ::
         SpendsOwn(h, psbt, policy, i, script, keys)
         && DecidedBySignatures(h, psbt.inputs[i], tx.inputs[i].witnessStack, script, keys, a, b)
  }

  lemma FinishedMeaning(h: Host, consensus: Consensus, psbt: Psbt, policy: VerifyPolicy, witnesses: seq<seq<Bytes>>)
    requires |witnesses| == |psbt.inputs| == |psbt.tx.inputs| && AllWitnessUtxos(psbt)
    requires Finished(h, consensus, psbt, policy, witnesses).Ok?
    ensures var tx := Finished(h, consensus, psbt, policy, witnesses).value;
            var fee := SumInputs(psbt.inputs) - SumOutputs(psbt.tx.outputs);
            && tx == Extracted(psbt, witnesses)
            && consensus(tx, SpentOutputs(policy, psbt.tx.inputs))
            && 0 < fee <= policy.maxFeerate * h.vsize(tx)
  {
    hide SumInputs, SumOutputs, DivCeil, Extracted, SpentOutputs;
    var tx := Finished(h, consensus, psbt, policy, witnesses).value;
    VerifyMeaning.FeerateIff(SumInputs(psbt.inputs) - SumOutputs(psbt.tx.outputs), policy.maxFeerate, h.vsize(tx));
  }

  /** The checks after the input loop pass exactly when the input sum fits 64 bits, the consensus
      library accepts the extracted transaction, it has a size, and the fee is positive and at most
      the rate cap times that size. */
  lemma FinishedIff(h: Host, consensus: Consensus, psbt: Psbt, policy: VerifyPolicy, witnesses: seq<seq<Bytes>>)
    requires |witnesses| == |psbt.inputs| == |psbt.tx.inputs| && AllWitnessUtxos(psbt)
    ensures Finished(h, consensus, psbt, policy, witnesses).Ok?
            <==> Affordable(h, consensus, psbt, policy, Extracted(psbt, witnesses))
  {
    hide SumInputs, SumOutputs, DivCeil, Extracted, SpentOutputs;
    var tx, fee := Extracted(psbt, witnesses), SumInputs(psbt.inputs) - SumOutputs(psbt.tx.outputs);
    if fee > 0 && h.vsize(tx) > 0 {
      VerifyMeaning.FeerateIff(fee, policy.maxFeerate, h.vsize(tx));
    }
  }

  ghost predicate Affordable(h: Host, consensus: Consensus, psbt: Psbt, policy: VerifyPolicy, tx: Transaction)
    requires AllWitnessUtxos(psbt)
  {
    var fee := SumInputs(psbt.inputs) - SumOutputs(psbt.tx.outputs);
    && SumInputs(psbt.inputs) <= U64_MAX && h.vsize(tx) > 0
    && consensus(tx, SpentOutputs(policy, psbt.tx.inputs))
    && 0 < fee <= policy.maxFeerate * h.vsize(tx)
  }

  /** The witness of an input that spends the known output its path names: the empty item, the
      signatures of the first two signed keys of that output, both `SIGHASH_ALL`, and its script. */
  ghost predicate FinishedBy(h: Host, psbt: Psbt, receive: ParsedDescriptor, change: Option<ParsedDescriptor>,
                             policy: VerifyPolicy, i: nat, stack: seq<Bytes>)
    requires |psbt.inputs| == |psbt.tx.inputs| && i < |psbt.inputs|
  {
    && psbt.inputs[i].witnessUtxo.Some?
    && KnownAs(policy, psbt.tx.inputs[i], psbt.inputs[i].witnessUtxo.value)
    && exists branch: u32, index: u32 :: WitnessOf(h, psbt.inputs[i], receive, change, branch, index, stack)
  }

  ghost predicate WitnessOf(h: Host, input: Input, receive: ParsedDescriptor, change: Option<ParsedDescriptor>,
                            branch: u32, index: u32, stack: seq<Bytes>)
  {
    && NamesOutput(h, input, receive, change, branch, index)
    && var o := DeriveAt(h.curve, if branch == 0 then receive else change.value, index).value;
       BuiltFrom(input.partialSigs, o.sortedPubkeys, o.witnessScript, stack)
  }

  ghost predicate BuiltFrom(sigs: seq<SigEntry>, keys: seq<PubKey>, script: Bytes, stack: seq<Bytes>) {
    exists a: nat, b: nat :: StackOf(sigs, keys, script, a, b, stack)
  }

  ghost predicate StackOf(sigs: seq<SigEntry>, keys: seq<PubKey>, script: Bytes, a: nat, b: nat, stack: seq<Bytes>) {
    && FirstTwo(sigs, keys, a, b) && HasAll(sigs, keys[a]) && HasAll(sigs, keys[b])
    && stack == [[], Item(SigFor(sigs, keys[a]).value), Item(SigFor(sigs, keys[b]).value), script]
  }

  lemma StackIff(sigs: PartialSigs, keys: seq<PubKey>, script: Bytes, i: nat, stack: seq<Bytes>)
    ensures WitnessFor(sigs, keys, script, i) == Ok(stack) <==> BuiltFrom(sigs, keys, script, stack)
  {
    hide WitnessFor, HasSig, HasAll, SigFor;
    WitnessIff(sigs, keys, script, i);
    if WitnessFor(sigs, keys, script, i) == Ok(stack) {
      var a: nat, b: nat :| FirstTwo(sigs, keys, a, b) && HasAll(sigs, keys[a]) && HasAll(sigs, keys[b]);
      WitnessOfFirstTwo(sigs, keys, a, b, script, i);
      assert StackOf(sigs, keys, script, a, b, stack);
    }
    if a: nat, b: nat :| StackOf(sigs, keys, script, a, b, stack) {
      WitnessOfFirstTwo(sigs, keys, a, b, script, i);
    }
  }

  lemma FinishedByIff(h: Host, psbt: Psbt, receive: ParsedDescriptor, change: Option<ParsedDescriptor>,
                      policy: VerifyPolicy, i: nat, stack: seq<Bytes>)
    requires |psbt.inputs| == |psbt.tx.inputs| && i < |psbt.inputs|
    ensures FinalInput(h, psbt, receive, change, policy, i) == Ok(stack)
            <==> FinishedBy(h, psbt, receive, change, policy, i, stack)
  {
    hide DeriveAt, WitnessFor, BuiltFrom, SignedByTwo, CheckmultisigScript, P2wsh, PublicKeys, Ascending;
    var input := psbt.inputs[i];
    var at := BranchAndIndex(input.derivation, i);
    if at.Ok? {
      var (branch, index) := at.value;
      if branch == 0 || change.Some? {
        var o := DeriveAt(h.curve, if branch == 0 then receive else change.value, index);
        if o.Ok? {
          StackIff(input.partialSigs, o.value.sortedPubkeys, o.value.witnessScript, i, stack);
          BuiltIffTwo(input.partialSigs, o.value.sortedPubkeys, o.value.witnessScript, i);
          if FinalInput(h, psbt, receive, change, policy, i) == Ok(stack) {
            assert NamesOutput(h, input, receive, change, branch, index);
            assert WitnessOf(h, input, receive, change, branch, index, stack);
          }
        }
      }
    }
  }

  /** One witness for every input, those from `i` on being their inputs'. */
  ghost predicate AllFinishedBy(h: Host, psbt: Psbt, receive: ParsedDescriptor, change: Option<ParsedDescriptor>,
                                policy: VerifyPolicy, i: nat, witnesses: seq<seq<Bytes>>)
    requires |psbt.inputs| == |psbt.tx.inputs|
  {
    && |witnesses| == |psbt.inputs|
    && forall k :: i <= k < |psbt.inputs| ==> FinishedBy(h, psbt, receive, change, policy, k, witnesses[k])
  }

  lemma {:induction false} AllFinishedByIff(h: Host, psbt: Psbt, receive: ParsedDescriptor,
                                            change: Option<ParsedDescriptor>, policy: VerifyPolicy, i: nat,
                                            witnesses: seq<seq<Bytes>>)
    requires |psbt.inputs| == |psbt.tx.inputs| == |witnesses| && i <= |psbt.inputs|
    ensures FinalFrom(h, psbt, receive, change, policy, i) == Ok(witnesses[i..])
            <==> AllFinishedBy(h, psbt, receive, change, policy, i, witnesses)
    decreases |psbt.inputs| - i
  {
    hide FinalInput, FinishedBy;
    if i < |psbt.inputs| {
      FinishedByIff(h, psbt, receive, change, policy, i, witnesses[i]);
      AllFinishedByIff(h, psbt, receive, change, policy, i + 1, witnesses);
      assert witnesses[i..] == [witnesses[i]] + witnesses[i + 1..];
      var rest := FinalFrom(h, psbt, receive, change, policy, i + 1);
      if FinalFrom(h, psbt, receive, change, policy, i) == Ok(witnesses[i..]) {
        assert rest.value == witnesses[i..][1..] == witnesses[i + 1..];
      }
    } else {
      assert witnesses[i..] == [];
    }
  }

  /** What `finalize` returns: with both descriptors parsed and one witness built for each of at
      least one input, the transaction that carries them, where that is affordable. */
  ghost predicate FinalTx(h: Host, consensus: Consensus, psbt: Psbt, descriptor: string, policy: VerifyPolicy,
                          witnesses: seq<seq<Bytes>>, tx: Transaction)
  {
    && psbt.inputs != [] && |psbt.inputs| == |psbt.tx.inputs|
    && ParsedWith(h.curve, descriptor).Ok? && ParsedChange(h.curve, policy).Ok?
    && AllFinishedBy(h, psbt, ParsedWith(h.curve, descriptor).value, ParsedChange(h.curve, policy).value, policy, 0,
                     witnesses)
    && |witnesses| == |psbt.inputs| && AllWitnessUtxos(psbt)
    && tx == Extracted(psbt, witnesses) && Affordable(h, consensus, psbt, policy, tx)
  }

  /** `finalize` returns exactly that, and succeeds exactly when there is such a transaction. */
  lemma FinalizedIff(h: Host, consensus: Consensus, psbt: Psbt, descriptor: string, policy: VerifyPolicy,
                     tx: Transaction)
    ensures Finalized(h, consensus, psbt, descriptor, policy) == Ok(tx)
            <==> exists witnesses :: FinalTx(h, consensus, psbt, descriptor, policy, witnesses, tx)
  {
    hide ParsedWith, ParsedChange, FinalFrom, Finished, FinishedBy, AllFinishedBy, Affordable, Extracted;
    if |psbt.inputs| == |psbt.tx.inputs| && ParsedWith(h.curve, descriptor).Ok? && ParsedChange(h.curve, policy).Ok? {
      var receive, change := ParsedWith(h.curve, descriptor).value, ParsedChange(h.curve, policy).value;
      FinalEach(h, psbt, receive, change, policy, 0);
      var r := FinalFrom(h, psbt, receive, change, policy, 0);
      if r.Ok? {
        assert r.value[0..] == r.value;
        AllFinishedByIff(h, psbt, receive, change, policy, 0, r.value);
        FinishedIff(h, consensus, psbt, policy, r.value);
        FinishedValue(h, consensus, psbt, policy, r.value);
        if Finalized(h, consensus, psbt, descriptor, policy) == Ok(tx) {
          assert FinalTx(h, consensus, psbt, descriptor, policy, r.value, tx);
        }
      }
      if witnesses :| FinalTx(h, consensus, psbt, descriptor, policy, witnesses, tx) {
        WitnessEach(h, psbt, receive, change, policy, witnesses);
        assert witnesses[0..] == witnesses;
        AllFinishedByIff(h, psbt, receive, change, policy, 0, witnesses);
      }
    }
  }

  lemma WitnessEach(h: Host, psbt: Psbt, receive: ParsedDescriptor, change: Option<ParsedDescriptor>,
                    policy: VerifyPolicy, witnesses: seq<seq<Bytes>>)
    requires |psbt.inputs| == |psbt.tx.inputs| && AllFinishedBy(h, psbt, receive, change, policy, 0, witnesses)
    ensures |witnesses| == |psbt.inputs|
  {
  }

  lemma FinishedValue(h: Host, consensus: Consensus, psbt: Psbt, policy: VerifyPolicy, witnesses: seq<seq<Bytes>>)
    requires |witnesses| == |psbt.inputs| == |psbt.tx.inputs| && AllWitnessUtxos(psbt)
    ensures Finished(h, consensus, psbt, policy, witnesses).Ok? ==>
              Finished(h, consensus, psbt, policy, witnesses).value == Extracted(psbt, witnesses)
  {
    hide SumInputs, SumOutputs, DivCeil, Extracted, SpentOutputs;
  }

  /** The finished transaction is the unsigned one with its inputs finished: every input spends a
      known output of the wallet, and the fee is positive and under the cap. */
  lemma FinalizedMeaning(h: Host, consensus: Consensus, psbt: Psbt, descriptor: string, policy: VerifyPolicy)
    requires Finalized(h, consensus, psbt, descriptor, policy).Ok?
    ensures var tx := Finalized(h, consensus, psbt, descriptor, policy).value;
            && |psbt.inputs| == |psbt.tx.inputs| == |tx.inputs| && AllWitnessUtxos(psbt)
            && tx == psbt.tx.(inputs := tx.inputs)
            && (forall i :: 0 <= i < |tx.inputs| ==> FinalInputOk(h, psbt, policy, tx, i))
            && 0 < SumInputs(psbt.inputs) - SumOutputs(psbt.tx.outputs) <= policy.maxFeerate * h.vsize(tx)
            && consensus(tx, SpentOutputs(policy, psbt.tx.inputs))
  {
    hide ParsedWith, ParsedChange, FinalFrom, FinalInput, SpendsOwn, DecidedBySignatures, SumInputs, SumOutputs,
         SpentOutputs, Finished;
    var receive, change := ParsedWith(h.curve, descriptor).value, ParsedChange(h.curve, policy).value;
    FinalEach(h, psbt, receive, change, policy, 0);
    var witnesses := FinalFrom(h, psbt, receive, change, policy, 0).value;
    FinishedMeaning(h, consensus, psbt, policy, witnesses);
    var tx := Finalized(h, consensus, psbt, descriptor, policy).value;
    forall i | 0 <= i < |tx.inputs| ensures FinalInputOk(h, psbt, policy, tx, i) {
      assert FinalInput(h, psbt, receive, change, policy, i) == Ok(witnesses[i - 0]);
      var script, keys, a, b := FinalInputMeaning(h, psbt, receive, change, policy, i);
    }
  }

  // --- Two signers ---------------------------------------------------------

  lemma SignedIsFound(h: Host, tx: Transaction, i: nat, input: Input, fingerprint: Fingerprint)
    requires SignedBy(h, tx, i, input, fingerprint)
    ensures HasSig(input.partialSigs, EntryFor(input.derivation, fingerprint).value.key)
  {
    var key := EntryFor(input.derivation, fingerprint).value.key;
    var sig := Lookup(input.partialSigs, PublicKey(true, key)).value;
    assert SigEntry(PublicKey(true, key), sig) in input.partialSigs;
  }

  /** An input signed by two different keys of the script gets its witness exactly when the first
      two signatures found in key order are both `SIGHASH_ALL`. */
  lemma {:induction false} TwoSignersSuffice(h: Host, tx: Transaction, i: nat, input: Input, a: Fingerprint,
                                             b: Fingerprint, keys: seq<PubKey>, script: Bytes)
    returns (m: nat, n: nat)
    requires SignedBy(h, tx, i, input, a) && SignedBy(h, tx, i, input, b)
    requires var ka, kb := EntryFor(input.derivation, a).value.key, EntryFor(input.derivation, b).value.key;
             ka != kb && ka in keys && kb in keys
    ensures FirstTwo(input.partialSigs, keys, m, n)
    ensures WitnessFor(input.partialSigs, keys, script, i).Ok?
            <==> HasAll(input.partialSigs, keys[m]) && HasAll(input.partialSigs, keys[n])
  {
    var ka, kb := EntryFor(input.derivation, a).value.key, EntryFor(input.derivation, b).value.key;
    SignedIsFound(h, tx, i, input, a);
    SignedIsFound(h, tx, i, input, b);
    hide *;
    TwoFound(input.partialSigs, keys, ka, kb);
    m, n := FirstTwoExist(input.partialSigs, keys);
    FirstTwoBounds(input.partialSigs, keys, m, n);
    WitnessOfFirstTwo(input.partialSigs, keys, m, n, script, i);
  }

  lemma FirstTwoBounds(sigs: seq<SigEntry>, keys: seq<PubKey>, a: nat, b: nat)
    requires FirstTwo(sigs, keys, a, b)
    ensures a < b < |keys|
  {
  }

  lemma {:induction false} TwoFound(sigs: PartialSigs, keys: seq<PubKey>, ka: PubKey, kb: PubKey)
    requires ka != kb && ka in keys && kb in keys && HasSig(sigs, ka) && HasSig(sigs, kb)
    ensures TwoSigned(sigs, keys)
  {
    hide HasSig;
    var m :| 0 <= m < |keys| && keys[m] == ka;
    var n :| 0 <= n < |keys| && keys[n] == kb;
    assert m < n || n < m;
  }

  /** With `SIGHASH_ALL` signatures only, every signed key counts. */
  lemma {:induction false} FoundIsAll(sigs: PartialSigs, key: PubKey)
    requires AllSighashAll(sigs) && HasSig(sigs, key)
    ensures HasAll(sigs, key)
  {
    var e :| e in sigs && e.key.inner == key && e.sig == SigFor(sigs, key).value;
    var n :| 0 <= n < |sigs| && sigs[n] == e;
  }
}
