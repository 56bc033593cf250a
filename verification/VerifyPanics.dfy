/** The verifier's panic: the parser keeps an origin written with `m/`, and V4 puts another `m/`
    before it and unwraps the parse. Exactly when that happens, in V4 and in the verdict. */
module VerifyPanics {
  import opened Machine
  import opened Errors
  import opened Bitcoin
  import opened Descriptor
  import opened Derive
  import opened Psbts
  import opened IndexSearch
  import opened Verify
  import opened VerifyMeaning
  import OriginPath

  // --- In V4 ---------------------------------------------------------------

  ghost predicate OriginsParsed(d: ParsedDescriptor) {
    forall k :: 0 <= k < 3 ==> OriginPath.Validated(d.keys[k].originPath).Ok?
  }

  /** The entry looks like change of a known key whose origin is written with `m/`. */
  predicate PrefixedEntry(d: ParsedDescriptor, e: KeyOrigin, index: u32) {
    && KeyFor(d, e.fingerprint).Some? && "m/" <= KeyFor(d, e.fingerprint).value.originPath
    && |e.path| == 6 && e.path[4] == Normal(1) && e.path[5] == Normal(index)
  }

  ghost predicate NewFingerprint(derivation: Derivation, i: nat)
    requires i < |derivation|
  {
    forall j :: 0 <= j < i ==> derivation[j].fingerprint != derivation[i].fingerprint
  }

  lemma KeyForIsKey(d: ParsedDescriptor, fingerprint: Fingerprint)
    ensures KeyFor(d, fingerprint).Some? ==> exists k :: 0 <= k < 3 && d.keys[k] == KeyFor(d, fingerprint).value
  {
  }

  lemma EntryPanicsIff(derivation: Derivation, d: ParsedDescriptor, index: u32, i: nat)
    requires OriginsParsed(d) && i < |derivation|
    ensures V4Entry(derivation, d, index, i).Panics?
            <==> NewFingerprint(derivation, i) && PrefixedEntry(d, derivation[i], index)
  {
    hide OriginSteps, KeyFor, OriginPath.Validated;
    KeyForIsKey(d, derivation[i].fingerprint);
    if KeyFor(d, derivation[i].fingerprint).Some? {
      var k :| 0 <= k < 3 && d.keys[k] == KeyFor(d, derivation[i].fingerprint).value;
      OriginStepsIff(d.keys[k].originPath);
    }
  }

  ghost predicate FirstPanic(derivation: Derivation, d: ParsedDescriptor, index: u32, from: nat, at: nat) {
    && from <= at < |derivation|
    && (forall k :: from <= k < at ==> V4Entry(derivation, d, index, k).Passes?)
    && V4Entry(derivation, d, index, at).Panics?
  }

  lemma {:induction false} LoopPanicsIff(derivation: Derivation, d: ParsedDescriptor, index: u32, i: nat)
    requires i <= |derivation|
    ensures V4From(derivation, d, index, i).Panics? <==> exists at: nat :: FirstPanic(derivation, d, index, i, at)
    decreases |derivation| - i
  {
    hide V4Entry;
    if i < |derivation| {
      var next := i + 1;
      LoopPanicsIff(derivation, d, index, next);
      if at: nat :| FirstPanic(derivation, d, index, next, at) {
        if V4Entry(derivation, d, index, i).Passes? {
          assert FirstPanic(derivation, d, index, i, at);
        }
      }
      if at: nat :| FirstPanic(derivation, d, index, i, at) {
        if at > i {
          assert FirstPanic(derivation, d, index, next, at);
        }
      }
      if V4Entry(derivation, d, index, i).Panics? {
        assert FirstPanic(derivation, d, index, i, i);
      }
    }
  }

  /** A map that makes V4 panic: three entries of a derivable output, the first not to pass one
      that names a key whose origin is written with `m/`. */
  ghost predicate PanickingMap(c: Curve, derivation: Derivation, d: ParsedDescriptor, index: u32, at: nat) {
    && DeriveAt(c, d, index).Ok? && |derivation| == 3 && at < 3
    && NewFingerprint(derivation, at) && PrefixedEntry(d, derivation[at], index)
    && (forall k :: 0 <= k < at ==> NewFingerprint(derivation, k) && ChangePath(d, derivation[k], index))
  }

  /** The parser keeps origins as written and V4 puts `m/` before them: the check panics exactly
      on such a map, so never when origins are written without `m/`, and when all are written
      with it no change is ever accepted. */
  lemma PrefixedOrigins(c: Curve, derivation: Derivation, d: ParsedDescriptor, index: u32)
    requires OriginsParsed(d)
    ensures V4(c, derivation, d, index).Panics? <==> exists at: nat :: PanickingMap(c, derivation, d, index, at)
    ensures (forall k :: 0 <= k < 3 ==> "m/" <= d.keys[k].originPath) ==> !V4(c, derivation, d, index).Passes?
  {
    hide DeriveAt, V4From, V4Entry, OriginSteps, OriginPath.Validated, KeySet, MapKeys, PublicKeys, PrefixedEntry;
    LoopPanicsIff(derivation, d, index, 0);
    forall i | 0 <= i < |derivation|
      ensures V4Entry(derivation, d, index, i).Panics?
              <==> NewFingerprint(derivation, i) && PrefixedEntry(d, derivation[i], index)
    {
      EntryPanicsIff(derivation, d, index, i);
    }
    forall i | 0 <= i < |derivation|
      ensures V4Entry(derivation, d, index, i).Passes?
              <==> NewFingerprint(derivation, i) && ChangePath(d, derivation[i], index)
    {
      EntryIff(derivation, d, index, i);
    }
    hide NewFingerprint, ChangePath;
    if at: nat :| PanickingMap(c, derivation, d, index, at) {
      assert FirstPanic(derivation, d, index, 0, at);
    }
    if at: nat :| FirstPanic(derivation, d, index, 0, at) {
      assert DeriveAt(c, d, index).Ok? && |derivation| == 3 ==> PanickingMap(c, derivation, d, index, at);
    }
    PrefixedNeverPasses(c, derivation, d, index);
  }

  lemma PrefixedNeverPasses(c: Curve, derivation: Derivation, d: ParsedDescriptor, index: u32)
    requires OriginsParsed(d)
    ensures (forall k :: 0 <= k < 3 ==> "m/" <= d.keys[k].originPath) ==> !V4(c, derivation, d, index).Passes?
  {
    hide DeriveAt, V4, OriginSteps, OriginPath.Validated, KeySet, MapKeys, PublicKeys;
    V4Iff(c, derivation, d, index);
    if ChangeMap(c, derivation, d, index) {
      assert ChangePath(d, derivation[0], index);
      KeyForIsKey(d, derivation[0].fingerprint);
      var k :| 0 <= k < 3 && d.keys[k] == KeyFor(d, derivation[0].fingerprint).value;
      OriginStepsIff(d.keys[k].originPath);
    }
  }

  // --- In the verdict ------------------------------------------------------

  lemma ParsedOrigins(c: Curve, s: string, d: ParsedDescriptor)
    requires ParsedWith(c, s) == Ok(d)
    ensures OriginsParsed(d)
  {
    hide Parsed, OriginPath.Validated;
    ParsedIff(s, d, xpub => c.decodeXpub(xpub).Some?);
  }

  /** The index the hinted search stops at: the hint where it fits, or else the least that does. */
  ghost predicate FoundAt(c: Curve, d: ParsedDescriptor, script: Bytes, gap: u32, hint: Option<u32>, index: u32) {
    && index < gap && Matches(c, d, script, index)
    && (hint == Some(index)
        || (&& (hint.Some? && hint.value < gap ==> !Matches(c, d, script, hint.value))
            && forall k: u32 :: k < index ==> !Matches(c, d, script, k)))
  }

  ghost predicate FirstFrom(c: Curve, d: ParsedDescriptor, script: Bytes, gap: u32, tried: Option<u32>, i: u32,
                            index: u32) {
    && i <= index < gap && Matches(c, d, script, index) && tried != Some(index)
    && forall k: u32 :: i <= k < index && tried != Some(k) ==> !Matches(c, d, script, k)
  }

  lemma {:induction false} ScanIsFirst(c: Curve, d: ParsedDescriptor, script: Bytes, gap: u32, tried: Option<u32>,
                                       i: u32, index: u32)
    requires Derivable(c, d, gap) && i <= gap
    ensures ScanFrom(c, d, script, gap, tried, i) == Ok(Some(index)) <==> FirstFrom(c, d, script, gap, tried, i, index)
    decreases gap - i
  {
    hide DeriveAt, CheckmultisigScript, P2wsh, PublicKeys;
    if i < gap {
      ScanIsFirst(c, d, script, gap, tried, i + 1, index);
      if FirstFrom(c, d, script, gap, tried, i + 1, index) && (tried == Some(i) || !Matches(c, d, script, i)) {
        assert FirstFrom(c, d, script, gap, tried, i, index);
      }
    }
  }

  lemma SearchIsFound(c: Curve, d: ParsedDescriptor, script: Bytes, gap: u32, hint: Option<u32>, index: u32)
    requires Derivable(c, d, gap)
    ensures Search(c, d, script, gap, hint) == Ok(Some(index)) <==> FoundAt(c, d, script, gap, hint, index)
  {
    hide DeriveAt, ScanFrom;
    ScanIsFirst(c, d, script, gap, hint, 0, index);
  }

  /** The index found for the script is one at which the map makes V4 panic. */
  ghost predicate PanickingChange(c: Curve, derivation: Derivation, d: ParsedDescriptor, script: Bytes, gap: u32) {
    exists index: u32, at: nat ::
      FoundAt(c, d, script, gap, HintOf(derivation), index) && PanickingMap(c, derivation, d, index, at)
  }

  lemma ChangePanicsIff(c: Curve, derivation: Derivation, change: Option<ParsedDescriptor>, script: Bytes, gap: u32,
                        i: nat)
    requires change.Some? ==> OriginsParsed(change.value) && Derivable(c, change.value, gap)
    ensures ChangeOutput(c, derivation, change, script, gap, i) == Err(VerifierPanics)
            <==> change.Some? && PanickingChange(c, derivation, change.value, script, gap)
  {
    hide DeriveAt, Search, V4, FoundAt, PanickingMap, OriginsParsed, Derivable, HintOf;
    if change.Some? {
      var d, hint := change.value, HintOf(derivation);
      if ChangeOutput(c, derivation, change, script, gap, i) == Err(VerifierPanics) {
        var index := Search(c, d, script, gap, hint).value.value;
        SearchIsFound(c, d, script, gap, hint, index);
        PrefixedOrigins(c, derivation, d, index);
      }
      if PanickingChange(c, derivation, d, script, gap) {
        var index: u32, at: nat :| FoundAt(c, d, script, gap, hint, index) && PanickingMap(c, derivation, d, index, at);
        SearchIsFound(c, d, script, gap, hint, index);
        PrefixedOrigins(c, derivation, d, index);
      }
    }
  }

  /** An output to no declared recipient, derived by the change descriptor, that makes V4 panic. */
  ghost predicate PanickingOutput(h: Host, psbt: Psbt, change: Option<ParsedDescriptor>, policy: VerifyPolicy, i: nat)
    requires SameShape(psbt) && i < |psbt.outputs|
  {
    var script := psbt.tx.outputs[i].scriptPubkey;
    var address := h.address(policy.network, script);
    && address.Some? && !IsDeclared(policy, address.value)
    && change.Some? && PanickingChange(h.curve, psbt.outputs[i].derivation, change.value, script, policy.gapLimit)
  }

  lemma ClassifyPanicsIff(h: Host, psbt: Psbt, change: Option<ParsedDescriptor>, policy: VerifyPolicy, i: nat)
    requires SameShape(psbt) && i < |psbt.outputs|
    requires change.Some? ==> OriginsParsed(change.value) && Derivable(h.curve, change.value, policy.gapLimit)
    ensures Classify(h, psbt, change, policy, i) == Err(VerifierPanics) <==> PanickingOutput(h, psbt, change, policy, i)
  {
    hide ChangeOutput, PanickingChange, OriginsParsed, Derivable, IsDeclared;
    ChangePanicsIff(h.curve, psbt.outputs[i].derivation, change, psbt.tx.outputs[i].scriptPubkey, policy.gapLimit, i);
  }

  /** All outputs before it are fine, and this one makes the verifier panic. */
  ghost predicate PanicsAt(h: Host, psbt: Psbt, change: Option<ParsedDescriptor>, policy: VerifyPolicy, from: nat,
                           i: nat)
    requires SameShape(psbt)
  {
    && from <= i < |psbt.outputs|
    && (forall k :: from <= k < i ==> OutputOk(h, psbt, change, policy, k))
    && PanickingOutput(h, psbt, change, policy, i)
  }

  lemma {:induction false} OutputsPanicIff(h: Host, psbt: Psbt, change: Option<ParsedDescriptor>, policy: VerifyPolicy,
                                           from: nat)
    requires SameShape(psbt) && from <= |psbt.outputs|
    requires change.Some? ==> OriginsParsed(change.value) && Derivable(h.curve, change.value, policy.gapLimit)
    ensures ClassifyFrom(h, psbt, change, policy, from) == Err(VerifierPanics)
            <==> exists i: nat :: PanicsAt(h, psbt, change, policy, from, i)
    decreases |psbt.outputs| - from
  {
    hide Classify, OutputOk, PanickingOutput, OriginsParsed, Derivable;
    if from < |psbt.outputs| {
      var next := from + 1;
      OutputsPanicIff(h, psbt, change, policy, next);
      ClassifyIff(h, psbt, change, policy, from);
      ClassifyPanicsIff(h, psbt, change, policy, from);
      if i: nat :| PanicsAt(h, psbt, change, policy, next, i) {
        if OutputOk(h, psbt, change, policy, from) {
          assert PanicsAt(h, psbt, change, policy, from, i);
        }
      }
      if i: nat :| PanicsAt(h, psbt, change, policy, from, i) {
        if i > from {
          assert PanicsAt(h, psbt, change, policy, next, i);
        }
      }
      if PanickingOutput(h, psbt, change, policy, from) {
        assert PanicsAt(h, psbt, change, policy, from, from);
      }
    }
  }

  lemma {:induction false} InputErrors(c: Curve, psbt: Psbt, receive: ParsedDescriptor,
                                       change: Option<ParsedDescriptor>,
                                       policy: VerifyPolicy, i: nat)
    requires i <= |psbt.inputs|
    ensures V9From(psbt, i) != Err(VerifierPanics)
    ensures SameShape(psbt) && AllWitnessUtxos(psbt) ==> V7From(psbt, policy, i) != Err(VerifierPanics)
    ensures AllWitnessUtxos(psbt) ==> V2From(c, psbt, receive, change, policy.gapLimit, i) != Err(VerifierPanics)
    decreases |psbt.inputs| - i
  {
    hide MatchesAny, HintOf;
    if i < |psbt.inputs| {
      InputErrors(c, psbt, receive, change, policy, i + 1);
    }
  }

  lemma {:induction false} SignatureErrors(h: Host, sigs: PartialSigs, k: nat, i: nat)
    requires k <= |sigs|
    ensures V10SigsFrom(h, sigs, k, i) != Err(VerifierPanics)
    decreases |sigs| - k
  {
    if k < |sigs| {
      SignatureErrors(h, sigs, k + 1, i);
    }
  }

  lemma {:induction false} V10Errors(h: Host, psbt: Psbt, i: nat)
    requires i <= |psbt.inputs|
    ensures V10From(h, psbt, i) != Err(VerifierPanics)
    decreases |psbt.inputs| - i
  {
    hide V10SigsFrom;
    if i < |psbt.inputs| {
      SignatureErrors(h, psbt.inputs[i].partialSigs, 0, i);
      V10Errors(h, psbt, i + 1);
    }
  }

  lemma {:induction false} OutputChecksPanic(h: Host, psbt: Psbt, change: Option<ParsedDescriptor>,
                                             policy: VerifyPolicy)
    requires SameShape(psbt) && AllWitnessUtxos(psbt)
    ensures OutputChecks(h, psbt, change, policy) == Err(VerifierPanics)
            <==> ClassifyFrom(h, psbt, change, policy, 0) == Err(VerifierPanics)
  {
    hide ClassifyFrom, V10From, Folded, SumInputs, SumOutputs, DivCeil, Recipient;
    V10Errors(h, psbt, 0);
  }

  /** The verifier panics exactly when the inputs pass and the first output not to is change whose
      map names a key with an origin written `m/`. */
  lemma VerdictPanicsIff(h: Host, psbt: Psbt, descriptor: string, policy: VerifyPolicy,
                         receive: ParsedDescriptor, change: Option<ParsedDescriptor>)
    requires ParsedWith(h.curve, descriptor) == Ok(receive) && ParsedChange(h.curve, policy) == Ok(change)
    requires WindowDerives(h.curve, receive, change, policy.gapLimit)
    ensures Verdict(h, psbt, descriptor, policy) == Err(VerifierPanics)
            <==> && InputsOk(h, psbt, receive, change, policy)
                 && exists i: nat :: PanicsAt(h, psbt, change, policy, 0, i)
  {
    if change.Some? {
      ParsedOrigins(h.curve, policy.changeDescriptor.value, change.value);
    }
    hide ParsedWith, ParsedChange, OutputChecks, V8, V9From, V7From, V2From, InputsOk, PanicsAt, OriginsParsed,
         Derivable, ClassifyFrom;
    assert V8(psbt) != Err(VerifierPanics) by { V8Errors(psbt); }
    InputErrors(h.curve, psbt, receive, change, policy, 0);
    InputChecksIff(h, psbt, receive, change, policy);
    if InputChecks(h, psbt, receive, change, policy).Ok? {
      OutputChecksPanic(h, psbt, change, policy);
      OutputsPanicIff(h, psbt, change, policy, 0);
    }
  }

  lemma V8Errors(psbt: Psbt)
    ensures V8(psbt) != Err(VerifierPanics)
  {
  }
}
