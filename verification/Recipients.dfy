/** Whom an accepted PSBT pays: addresses are compared letter by letter up to ASCII case, and what
    the verdict reports beside the amounts. */
module Recipients {
  import opened Machine
  import opened Bitcoin
  import opened Descriptor
  import opened Derive
  import opened Psbts
  import opened Verify
  import opened VerifyMeaning

  // --- Address equality ----------------------------------------------------

  function UpperAlphabet(): (r: string)
    ensures |r| == 26
  {
    "ABCDEFGHIJKLMNOPQRSTUVWXYZ"
  }

  function LowerAlphabet(): (r: string)
    ensures |r| == 26
  {
    "abcdefghijklmnopqrstuvwxyz"
  }

  /** The same letter in the other case. */
  predicate CasePair(c: char, d: char) {
    var upper, lower := UpperAlphabet(), LowerAlphabet();
    exists k :: 0 <= k < 26 && ((c == upper[k] && d == lower[k]) || (c == lower[k] && d == upper[k]))
  }

  /** The same text, letter for letter up to case. */
  predicate SameText(a: string, b: string) {
    |a| == |b| && forall i :: 0 <= i < |a| ==> a[i] == b[i] || CasePair(a[i], b[i])
  }

  lemma AlphabetsPair(k: nat)
    requires k < 26
    ensures UpperAlphabet()[k] as int == 'A' as int + k && LowerAlphabet()[k] as int == 'a' as int + k
  {
  }

  lemma SameLetterIff(c: char, d: char)
    ensures Lower(c) == Lower(d) <==> c == d || CasePair(c, d)
  {
    hide UpperAlphabet, LowerAlphabet;
    var upper, lower := UpperAlphabet(), LowerAlphabet();
    if CasePair(c, d) {
      var k :| 0 <= k < 26 && ((c == upper[k] && d == lower[k]) || (c == lower[k] && d == upper[k]));
      AlphabetsPair(k);
    }
    if Lower(c) == Lower(d) && c != d {
      var k := Lower(c) as int - 'a' as int;
      AlphabetsPair(k);
      assert (c == upper[k] && d == lower[k]) || (c == lower[k] && d == upper[k]);
    }
  }

  /** Addresses are equal ignoring case exactly when they are the same text. */
  lemma EqualIgnoringCaseIff(a: string, b: string)
    ensures EqualIgnoringCase(a, b) <==> SameText(a, b)
  {
    hide Lower, CasePair;
    forall i | 0 <= i < |a| && |a| == |b| ensures Lower(a[i]) == Lower(b[i]) <==> a[i] == b[i] || CasePair(a[i], b[i]) {
      SameLetterIff(a[i], b[i]);
    }
  }

  predicate NoUpper(s: string) {
    forall i :: 0 <= i < |s| ==> !('A' <= s[i] <= 'Z')
  }

  /** Without upper-case letters that is equality; and rewriting the case of a text never changes
      the answer. */
  lemma CaseNeverMatters(a: string, b: string, a': string)
    ensures NoUpper(a) && NoUpper(b) ==> (EqualIgnoringCase(a, b) <==> a == b)
    ensures SameText(a, a') ==> (EqualIgnoringCase(a, b) <==> EqualIgnoringCase(a', b))
    ensures EqualIgnoringCase(a, b) <==> EqualIgnoringCase(b, a)
  {
    EqualIgnoringCaseIff(a, a');
    assert NoUpper(a) && NoUpper(b) && EqualIgnoringCase(a, b) ==> a == b;
  }

  // --- Whom an accepted PSBT pays ------------------------------------------

  /** The output goes to an address that is, up to case, one the user declared. */
  ghost predicate PaysDeclared(h: Host, policy: VerifyPolicy, out: TxOut) {
    var address := h.address(policy.network, out.scriptPubkey);
    && address.Some?
    && exists r :: 0 <= r < |policy.declaredRecipients| && SameText(address.value, policy.declaredRecipients[r])
  }

  lemma DeclaredIff(policy: VerifyPolicy, address: string)
    ensures IsDeclared(policy, address)
            <==> exists r :: 0 <= r < |policy.declaredRecipients| && SameText(address, policy.declaredRecipients[r])
  {
    hide EqualIgnoringCase, SameText;
    forall r | 0 <= r < |policy.declaredRecipients|
      ensures EqualIgnoringCase(address, policy.declaredRecipients[r])
              <==> SameText(address, policy.declaredRecipients[r])
    {
      EqualIgnoringCaseIff(address, policy.declaredRecipients[r]);
    }
  }

  /** Sats to addresses the user declared. */
  ghost function PaidDeclared(h: Host, policy: VerifyPolicy, outputs: seq<TxOut>): nat {
    if outputs == [] then 0
    else
      var last := outputs[|outputs| - 1];
      PaidDeclared(h, policy, outputs[..|outputs| - 1]) + if PaysDeclared(h, policy, last) then last.value else 0
  }

  lemma {:induction false} PaidIsDeclaredSum(h: Host, policy: VerifyPolicy, outputs: seq<TxOut>)
    ensures PaidDeclared(h, policy, outputs) == DeclaredSum(h, policy, outputs)
  {
    hide IsDeclared, SameText;
    if outputs != [] {
      var last := outputs[|outputs| - 1];
      PaidIsDeclaredSum(h, policy, outputs[..|outputs| - 1]);
      if h.address(policy.network, last.scriptPubkey).Some? {
        DeclaredIff(policy, h.address(policy.network, last.scriptPubkey).value);
      }
    }
  }

  /** An accepted PSBT pays, outside change, only addresses that are letter for letter a declared
      one up to case, and to these exactly the declared amount. */
  lemma {:induction false} AcceptedPays(h: Host, psbt: Psbt, descriptor: string, policy: VerifyPolicy)
    requires Verdict(h, psbt, descriptor, policy).Ok?
    ensures SameShape(psbt) && ParsedChange(h.curve, policy).Ok?
    ensures PaidDeclared(h, policy, psbt.tx.outputs) == policy.declaredAmountSats
    ensures var change := ParsedChange(h.curve, policy).value;
            forall i :: 0 <= i < |psbt.outputs| ==>
              || PaysDeclared(h, policy, psbt.tx.outputs[i])
              || (change.Some? && IsChange(h.curve, psbt.outputs[i].derivation, change.value,
                                           psbt.tx.outputs[i].scriptPubkey, policy.gapLimit))
  {
    hide ParsedWith, ParsedChange, InputChecks, ClassifyFrom, V5, V10From, Folded, IsChange, IsDeclared, SameText;
    var change := ParsedChange(h.curve, policy).value;
    OutputsIff(h, psbt, change, policy);
    Conservation(h, psbt, descriptor, policy);
    PaidIsDeclaredSum(h, policy, psbt.tx.outputs);
    forall i | 0 <= i < |psbt.outputs|
      ensures || PaysDeclared(h, policy, psbt.tx.outputs[i])
              || (change.Some? && IsChange(h.curve, psbt.outputs[i].derivation, change.value,
                                           psbt.tx.outputs[i].scriptPubkey, policy.gapLimit))
    {
      assert OutputOk(h, psbt, change, policy, i);
      DeclaredIff(policy, h.address(policy.network, psbt.tx.outputs[i].scriptPubkey).value);
    }
  }

  // --- What the verdict reports --------------------------------------------

  lemma RateOf(h: Host, psbt: Psbt, policy: VerifyPolicy)
    requires AllWitnessUtxos(psbt) && V5(h, psbt, policy).Ok?
    ensures var (fee, rate) := V5(h, psbt, policy).value;
            var size := Max(h.vsize(psbt.tx), 1);
            (rate - 1) * size < fee <= rate * size && rate <= policy.maxFeerate
  {
    hide SumInputs, SumOutputs, DivCeil;
    var (fee, rate) := V5(h, psbt, policy).value;
    var size := Max(h.vsize(psbt.tx), 1);
    DivCeilBound(fee, size);
    assert (rate - 1) * size == rate * size - size;
  }

  lemma {:induction false} RecipientOf(h: Host, psbt: Psbt, change: Option<ParsedDescriptor>, policy: VerifyPolicy)
    requires SameShape(psbt) && ClassifyFrom(h, psbt, change, policy, 0).Ok?
    ensures Recipient(ClassifyFrom(h, psbt, change, policy, 0).value, policy)
            == if policy.declaredRecipients == [] then "" else policy.declaredRecipients[0]
  {
    hide ClassifyFrom, Classify;
    if policy.declaredRecipients == [] {
      var classified := ClassifyFrom(h, psbt, change, policy, 0).value;
      ClassifiedEach(h, psbt, change, policy, 0);
      forall i | 0 <= i < |classified| ensures classified[i].isChange {
        assert Classify(h, psbt, change, policy, 0 + i) == Ok(classified[i]);
        UndeclaredIsChange(h, psbt, change, policy, i);
      }
      NoAddress(classified);
    }
  }

  /** The reported rate is the fee per virtual byte, rounded up; the reported recipient is the first
      declared one, and nobody where nobody was declared. */
  lemma VerdictReports(h: Host, psbt: Psbt, descriptor: string, policy: VerifyPolicy)
    requires Verdict(h, psbt, descriptor, policy).Ok?
    ensures var v, size := Verdict(h, psbt, descriptor, policy).value, Max(h.vsize(psbt.tx), 1);
            && (v.feerateSatVb - 1) * size < v.feeSats <= v.feerateSatVb * size
            && v.feerateSatVb <= policy.maxFeerate
            && v.recipient == if policy.declaredRecipients == [] then "" else policy.declaredRecipients[0]
  {
    hide ParsedWith, ParsedChange, InputChecks, ClassifyFrom, V10From, Folded, V5, Recipient;
    RateOf(h, psbt, policy);
    RecipientOf(h, psbt, ParsedChange(h.curve, policy).value, policy);
  }

  lemma UndeclaredIsChange(h: Host, psbt: Psbt, change: Option<ParsedDescriptor>, policy: VerifyPolicy, i: nat)
    requires SameShape(psbt) && i < |psbt.outputs| && policy.declaredRecipients == []
    requires Classify(h, psbt, change, policy, i).Ok?
    ensures Classify(h, psbt, change, policy, i).value.isChange
  {
    hide ChangeOutput, EqualIgnoringCase;
  }

  lemma {:induction false} NoAddress(classified: seq<ClassifiedOutput>)
    requires forall i :: 0 <= i < |classified| ==> classified[i].isChange
    ensures FirstAddress(classified) == ""
  {
    if classified != [] {
      NoAddress(classified[1..]);
    }
  }
}
