/** The two-key protocol: policy, verifier, first signer, verifier again, transaction binding,
    check of the first signatures, second signer, booking; and what must precede what in one call. */
module SignAb {
  import opened Machine
  import opened Errors
  import opened Bitcoin
  import opened Limits
  import opened StateCodec
  import opened Window
  import opened Psbts
  import opened Verify
  import opened Signing
  import SpendCharge

  /** What an observer of the protocol could see, in order. */
  datatype Event =
    | PolicyAccepted(psbt: Psbt)
    | VerifierAccepted(psbt: Psbt)
    | FirstSignerCalled(psbt: Psbt)
    | KeyUnwrapped(slot: KeySlot, psbt: Psbt)
    | Committed(approval: SpendApproval)

  /** The first signer may be anything: another device, another program, a hostile one. */
  type FirstSigner = Psbt -> Result<Psbt, SignError>

  datatype Call = Call(spend: SpendPolicy, reference: u64, boot: Option<u64>, height: Option<u32>, wall: Option<u64>,
                       psbt: Psbt, descriptor: string, verify: VerifyPolicy, first: FirstSigner, second: LocalSigner)

  datatype Outcome = Outcome(result: Result<Psbt, SignError>, events: seq<Event>)

  predicate Accepts(h: Host, call: Call, psbt: Psbt) {
    Verdict(h, psbt, call.descriptor, call.verify).Ok?
  }

  function Rejection(h: Host, call: Call, psbt: Psbt): SignError
    requires !Accepts(h, call, psbt)
  {
    SignError.Verify(Verdict(h, psbt, call.descriptor, call.verify).error)
  }

  /** `sign_a`. */
  function SignA(h: Host, call: Call): Outcome {
    if !Accepts(h, call, call.psbt) then Outcome(Err(Rejection(h, call, call.psbt)), [])
    else Outcome(call.first(call.psbt), [VerifierAccepted(call.psbt), FirstSignerCalled(call.psbt)])
  }

  function SecondSigner(h: Host, k: KeyHost, signer: LocalSigner, psbt: Psbt): Outcome {
    Outcome(LocalSign(h, k, signer, psbt),
            if Preflight(psbt, signer.fingerprint).Ok? then [KeyUnwrapped(signer.slot, psbt)] else [])
  }

  /** `sign_b`. */
  function SignB(h: Host, k: KeyHost, call: Call, psbt: Psbt, txidAtA: Txid): Outcome {
    if !Accepts(h, call, psbt) then Outcome(Err(Rejection(h, call, psbt)), [])
    else if h.txid(psbt.tx) != txidAtA then Outcome(Err(UnsignedTxChanged), [VerifierAccepted(psbt)])
    else match KeyAChecked(h, psbt, call.descriptor)
         case Err(e) => Outcome(Err(e), [VerifierAccepted(psbt)])
         case Ok(_) =>
           var o := SecondSigner(h, k, call.second, psbt);
           Outcome(o.result, [VerifierAccepted(psbt)] + o.events)
  }

  /** Both signers, one after the other. */
  function Signers(h: Host, k: KeyHost, call: Call): Outcome {
    var a := SignA(h, call);
    match a.result
    case Err(e) => a
    case Ok(afterA) =>
      var b := SignB(h, k, call, afterA, h.txid(call.psbt.tx));
      Outcome(b.result, a.events + b.events)
  }

  function ChargeOf(h: Host, call: Call): Result<u64, SignError> {
    SpendCharge.Charge(h.curve, call.psbt, call.descriptor, call.verify)
  }

  function Approval(h: Host, s: CoreState, mono: Duration, call: Call): (CoreState, Result<SpendApproval, SignError>) {
    Authorized(s, call.spend, call.reference, ChargeOf(h, call), SpendCharge.InputSetOf(call.psbt),
               Reading(mono, call.boot, call.height, call.wall))
  }

  /** `sign_ab`. */
  function Protocol(h: Host, k: KeyHost, s: CoreState, mono: Duration, call: Call): (CoreState, Outcome) {
    var (s', approval) := Approval(h, s, mono, call);
    match approval
    case Err(e) => (s', Outcome(Err(e), []))
    case Ok(a) =>
      var o := Signers(h, k, call);
      if o.result.Ok?
      then (Window.Committed(s', a), Outcome(o.result, [PolicyAccepted(call.psbt)] + o.events + [Event.Committed(a)]))
      else (s', Outcome(o.result, [PolicyAccepted(call.psbt)] + o.events))
  }

  // --- One call ------------------------------------------------------------

  /** A valid signature of the descriptor's first key on every input. */
  predicate SignedByKeyA(h: Host, psbt: Psbt, descriptor: string) {
    var d := ParsedWith(h.curve, descriptor);
    d.Ok? && AllSignedBy(h, psbt, d.value.keys[0].fingerprint)
  }

  /** Why each event was allowed to happen, given the events before it. */
  predicate Justified(h: Host, call: Call, before: seq<Event>, e: Event) {
    match e
    case PolicyAccepted(p) => p == call.psbt && before == []
    case VerifierAccepted(p) => Accepts(h, call, p) && PolicyAccepted(call.psbt) in before
    case FirstSignerCalled(p) =>
      p == call.psbt && PolicyAccepted(p) in before && VerifierAccepted(p) in before
    case KeyUnwrapped(slot, p) =>
      && slot == call.second.slot
      && call.first(call.psbt) == Ok(p)
      && PolicyAccepted(call.psbt) in before && VerifierAccepted(call.psbt) in before && VerifierAccepted(p) in before
      && h.txid(p.tx) == h.txid(call.psbt.tx)
      && SignedByKeyA(h, p, call.descriptor)
    case Committed(a) =>
      && Ok(a.inputSet) == SpendCharge.InputSetOf(call.psbt) && Ok(a.chargeSat) == ChargeOf(h, call)
      && call.first(call.psbt).Ok? && KeyUnwrapped(call.second.slot, call.first(call.psbt).value) in before
  }

  predicate AllJustified(h: Host, call: Call, events: seq<Event>) {
    forall n :: 0 <= n < |events| ==> Justified(h, call, events[..n], events[n])
  }

  lemma OneMore(h: Host, call: Call, events: seq<Event>, e: Event)
    requires AllJustified(h, call, events) && Justified(h, call, events, e)
    ensures AllJustified(h, call, events + [e])
  {
    hide Justified;
    forall n | 0 <= n < |events + [e]| ensures Justified(h, call, (events + [e])[..n], (events + [e])[n]) {
      assert (events + [e])[..n] == if n < |events| then events[..n] else events;
    }
  }

  lemma KeyAMeaning(h: Host, psbt: Psbt, descriptor: string)
    ensures KeyAChecked(h, psbt, descriptor).Ok? <==> SignedByKeyA(h, psbt, descriptor)
  {
    hide ParsedWith, SignedBy;
  }

  /** A later second signer adds at most one unwrap, after everything it needs. */
  lemma SignBJustified(h: Host, k: KeyHost, call: Call, events: seq<Event>, afterA: Psbt)
    requires AllJustified(h, call, events) && PolicyAccepted(call.psbt) in events
        && VerifierAccepted(call.psbt) in events
    requires call.first(call.psbt) == Ok(afterA)
    ensures var b := SignB(h, k, call, afterA, h.txid(call.psbt.tx));
            && AllJustified(h, call, events + b.events)
            && (b.result.Ok? ==> KeyUnwrapped(call.second.slot, afterA) in b.events)
  {
    hide Verdict, KeyAChecked, LocalSign, Preflight, SignedByKeyA;
    KeyAMeaning(h, afterA, call.descriptor);
    LocalSignPreflights(h, k, call.second, afterA);
    var v, u := VerifierAccepted(afterA), KeyUnwrapped(call.second.slot, afterA);
    var b := SignB(h, k, call, afterA, h.txid(call.psbt.tx));
    if b.events == [] {
      assert events + [] == events;
    } else {
      OneMore(h, call, events, v);
      if b.events != [v] {
        assert b.events == [v, u] && events + b.events == events + [v] + [u];
        OneMore(h, call, events + [v], u);
      }
    }
  }

  lemma LocalSignPreflights(h: Host, k: KeyHost, signer: LocalSigner, psbt: Psbt)
    ensures LocalSign(h, k, signer, psbt).Ok? ==> Preflight(psbt, signer.fingerprint).Ok?
  {
  }

  lemma SignersJustified(h: Host, k: KeyHost, call: Call)
    ensures var o := Signers(h, k, call);
            && AllJustified(h, call, [PolicyAccepted(call.psbt)] + o.events)
            && (o.result.Ok? ==> call.first(call.psbt).Ok?
                                 && KeyUnwrapped(call.second.slot, call.first(call.psbt).value) in o.events)
  {
    hide Verdict, SignB, Justified;
    var p, v, f := PolicyAccepted(call.psbt), VerifierAccepted(call.psbt), FirstSignerCalled(call.psbt);
    StartJustified(h, call);
    if Accepts(h, call, call.psbt) {
      assert [p] + [v, f] == [p, v, f];
      if call.first(call.psbt).Ok? {
        var afterA := call.first(call.psbt).value;
        SignBJustified(h, k, call, [p, v, f], afterA);
        var b := SignB(h, k, call, afterA, h.txid(call.psbt.tx));
        assert [p] + ([v, f] + b.events) == [p, v, f] + b.events;
      }
    } else {
      assert [p] + [] == [p];
    }
  }

  lemma StartJustified(h: Host, call: Call)
    ensures AllJustified(h, call, [PolicyAccepted(call.psbt)])
    ensures Accepts(h, call, call.psbt) ==>
              AllJustified(h, call, [PolicyAccepted(call.psbt), VerifierAccepted(call.psbt),
                  FirstSignerCalled(call.psbt)])
  {
    hide Verdict;
    var p, v, f := PolicyAccepted(call.psbt), VerifierAccepted(call.psbt), FirstSignerCalled(call.psbt);
    OneMore(h, call, [], p);
    assert [] + [p] == [p];
    if Accepts(h, call, call.psbt) {
      OneMore(h, call, [p], v);
      assert [p] + [v] == [p, v] && [p, v] + [f] == [p, v, f];
      OneMore(h, call, [p, v], f);
    }
  }

  /** Every event of every call is justified by the events before it: no signer is called before
      policy and verifier accepted, and the second key is not unwrapped before the verifier
      accepted what the first signer returned, the transaction id is the authorised one and the
      first key's signature is valid on every input. A booking happens exactly on success. */
  lemma ProtocolJustified(h: Host, k: KeyHost, s: CoreState, mono: Duration, call: Call)
    ensures var (s', o) := Protocol(h, k, s, mono, call);
            && AllJustified(h, call, o.events)
            && (o.result.Ok? <==> exists a :: Event.Committed(a) in o.events)
            && (o.events != [] ==> o.events[0] == PolicyAccepted(call.psbt) && Approval(h, s, mono, call).1.Ok?)
  {
    hide Signers, Authorized, SpendCharge.Charge, SpendCharge.InputSetOf;
    SignersJustified(h, k, call);
    SignersBookNothing(h, k, call);
    var approval := Approval(h, s, mono, call).1;
    if approval.Ok? {
      var o := Signers(h, k, call);
      var events := [PolicyAccepted(call.psbt)] + o.events;
      ApprovalMeaning(h, s, mono, call);
      if o.result.Ok? {
        OneMore(h, call, events, Event.Committed(approval.value));
        assert Event.Committed(approval.value) in events + [Event.Committed(approval.value)];
      }
    }
  }

  lemma SignersBookNothing(h: Host, k: KeyHost, call: Call)
    ensures forall a :: Event.Committed(a) !in Signers(h, k, call).events
  {
    hide Verdict, KeyAChecked, LocalSign, Preflight;
  }

  lemma ApprovalMeaning(h: Host, s: CoreState, mono: Duration, call: Call)
    requires Approval(h, s, mono, call).1.Ok?
    ensures var a := Approval(h, s, mono, call).1.value;
            Ok(a.inputSet) == SpendCharge.InputSetOf(call.psbt) && Ok(a.chargeSat) == ChargeOf(h, call)
  {
    hide SpendCharge.Charge, SpendCharge.InputSetOf, Advanced, Pruned, Validate, FindRow, BookedSat, Allowance;
  }

  /** A successful call returns the authorised transaction, signed by both keys on every input,
      and the state with that one spend booked. */
  lemma ProtocolResult(h: Host, k: KeyHost, s: CoreState, mono: Duration, call: Call)
    requires Protocol(h, k, s, mono, call).1.result.Ok?
    ensures var (s', o) := Protocol(h, k, s, mono, call);
            && h.txid(o.result.value.tx) == h.txid(call.psbt.tx)
            && SignedByKeyA(h, o.result.value, call.descriptor)
            && AllSignedBy(h, o.result.value, call.second.fingerprint)
            && Accepts(h, call, call.psbt)
  {
    hide Verdict, LocalSign, ParsedWith, SignedBy, Authorized, KeyAChecked;
    var afterA := call.first(call.psbt).value;
    KeyAMeaning(h, afterA, call.descriptor);
    LocalSignMeaning(h, k, call.second, afterA);
    LocalSignKeepsOthers(h, k, call.second, afterA, ParsedWith(h.curve, call.descriptor).value.keys[0].fingerprint);
  }
}
