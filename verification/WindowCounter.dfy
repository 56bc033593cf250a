/** The window counter as the object the signer holds: its methods update the state in place,
    and each is proved to perform the step the run theorems are about. */
module WindowCounter {
  import opened Machine
  import opened Errors
  import opened Bitcoin
  import opened InputSets
  import opened Limits
  import opened StateCodec
  import opened Window
  import opened Psbts
  import opened Verify
  import opened SpendCharge

  class Counter {
    const kek: Bytes
    var state: CoreState

    constructor (kek: Bytes, state: CoreState)
      ensures this.kek == kek && this.state == state
    {
      this.kek := kek;
      this.state := state;
    }

    /** `WindowCounter::new`. */
    static method New(kek: Bytes) returns (r: Result<Counter, SignError>)
      ensures r.Ok? <==> |kek| == 32
      ensures r.Ok? ==> fresh(r.value) && r.value.kek == kek && r.value.state == Empty
      ensures r.Err? ==> r.error == InvalidKekLength
    {
      if |kek| != 32 {
        return Err(InvalidKekLength);
      }
      var counter := new Counter(kek, Empty);
      return Ok(counter);
    }

    /** `WindowCounter::open`. */
    static method Open(c: Aead, kek: Bytes, blob: Bytes) returns (r: Result<Counter, SignError>)
      ensures |kek| != 32 ==> r == Err(InvalidKekLength)
      ensures |kek| == 32 && Decrypted(c, kek, blob).Err? ==>
                r == Err(SignError.CoreState(Decrypted(c, kek, blob).error))
      ensures |kek| == 32 && Decrypted(c, kek, blob).Ok? ==>
                r.Ok? && fresh(r.value) && r.value.kek == kek && Ok(r.value.state) == Decrypted(c, kek, blob)
    {
      if |kek| != 32 {
        return Err(InvalidKekLength);
      }
      var state := Decrypted(c, kek, blob);
      if state.Err? {
        return Err(SignError.CoreState(state.error));
      }
      var counter := new Counter(kek, state.value);
      return Ok(counter);
    }

    /** `seal`, with the nonce the system draws for it, if it draws one. */
    method Seal(c: Aead, drawn: Option<Bytes>) returns (r: Result<Bytes, SignError>)
      requires drawn.Some? ==> |drawn.value| == NONCE_LEN
      ensures drawn.None? ==> r == Err(SignError.CoreState(CsRng))
      ensures drawn.Some? ==> r == Encrypted(c, kek, drawn.value, state).MapErr(e => SignError.CoreState(e))
    {
      if drawn.None? {
        return Err(SignError.CoreState(CsRng));
      }
      var sealed := Encrypted(c, kek, drawn.value, state);
      return sealed.MapErr(e => SignError.CoreState(e));
    }

    method SetPassphraseUsed(used: bool)
      modifies this
      ensures state == old(state).(passphraseUsedSinceInstall := used)
    {
      state := state.(passphraseUsedSinceInstall := used);
    }

    /** `booked_sat`. */
    method Booked() returns (total: u64)
      ensures total == BookedSat(state.bookings)
    {
      total := 0;
      for i := 0 to |state.bookings|
        invariant total == BookedSat(state.bookings[..i])
      {
        assert state.bookings[..i + 1][..i] == state.bookings[..i];
        total := SatAdd(total, state.bookings[i].amountSat);
      }
      assert state.bookings[..|state.bookings|] == state.bookings;
    }

    method Advance(r: Reading)
      modifies this
      ensures state == Advanced(old(state), r)
    {
      hide StepElapsed;
      var nowMonoNs := DurationAsNs(r.mono);
      if !state.initialized {
        state := state.(initialized := true, monotonicNsAtAnchor := nowMonoNs);
        state := state.(blockHeightAtAnchor := r.height, bootIdAtAnchor := r.boot, wallUnixNsAtAnchor := r.wall);
        state := state.(windowElapsedNs := 0, windowStartElapsedNs := 0);
        return;
      }
      var step := StepElapsed(state, nowMonoNs, r.boot, r.height, r.wall);
      state := state.(windowElapsedNs := SatAdd(state.windowElapsedNs, DurationAsNs(step)));
      state := state.(monotonicNsAtAnchor := nowMonoNs);
      if r.height.Some? {
        state := state.(blockHeightAtAnchor := r.height);
      }
      if r.boot.Some? {
        state := state.(bootIdAtAnchor := r.boot);
      }
      if r.wall.Some? {
        state := state.(wallUnixNsAtAnchor := r.wall);
      }
    }

    method Prune(window: Duration)
      modifies this
      ensures state == Pruned(old(state), window)
    {
      var start := SatSub(state.windowElapsedNs, DurationAsNs(window));
      state := state.(windowStartElapsedNs := start);
      var kept := [];
      for i := 0 to |state.bookings|
        invariant state == old(state).(windowStartElapsedNs := start)
        invariant kept == Live(state.bookings[..i], start)
      {
        assert state.bookings[..i + 1][..i] == state.bookings[..i];
        if state.bookings[i].elapsedAtNs >= start {
          kept := kept + [state.bookings[i]];
        }
      }
      assert state.bookings[..|state.bookings|] == state.bookings;
      state := state.(bookings := kept);
    }

    /** The search that `authorize` and `commit` share. */
    method Find(inputs: InputSet) returns (at: Option<nat>)
      ensures at == FindRow(state.bookings, inputs)
    {
      for i := 0 to |state.bookings|
        invariant forall k :: 0 <= k < i ==> !SameInputs(state.bookings[k].inputs, inputs)
      {
        if SameInputs(state.bookings[i].inputs, inputs) {
          return Some(i);
        }
      }
      return None;
    }

    /** `authorize`: accepts or rejects the PSBT; nothing but the clock and the expired rows move. */
    method Authorize(h: Host, policy: SpendPolicy, psbt: Psbt, descriptor: string, verify: VerifyPolicy,
                     reference: u64, reading: Reading) returns (r: Result<SpendApproval, SignError>)
      modifies this
      ensures (state, r) == Authorized(old(state), policy, reference, Charge(h.curve, psbt, descriptor, verify),
                                       InputSetOf(psbt), reading)
    {
      hide Charge, InputSetOf, Advanced, Pruned, Validate, Allowance, FindRow, BookedSat;
      var valid := Validate(policy);
      if valid.Err? {
        return Err(valid.error);
      }
      Advance(reading);
      Prune(policy.window);
      if !state.passphraseUsedSinceInstall {
        return Err(SpendLimitExceeded);
      }
      var charge := ComputeCharge(h.curve, psbt, descriptor, verify);
      if charge.Err? {
        return Err(charge.error);
      }
      var inputs := InputSetOf(psbt);
      if inputs.Err? {
        return Err(inputs.error);
      }
      var known := Find(inputs.value);
      var extra := ExtraAgainst(state.bookings, inputs.value, charge.value);
      var used := Booked();
      if extra > SatSub(Allowance(policy, reference), used) {
        return Err(SpendLimitExceeded);
      }
      if known.None? && |state.bookings| >= MAX_BOOKINGS {
        return Err(WindowLedgerFull);
      }
      return Ok(SpendApproval(inputs.value, charge.value));
    }

    /** `commit`. */
    method Commit(a: SpendApproval)
      modifies this
      ensures state == Committed(old(state), a)
    {
      var at := Find(a.inputSet);
      if at.Some? {
        var existing := state.bookings[at.value];
        if a.chargeSat > existing.amountSat {
          existing := existing.(amountSat := a.chargeSat, elapsedAtNs := state.windowElapsedNs);
          state := state.(bookings := state.bookings[at.value := existing]);
        }
      } else if |state.bookings| < MAX_BOOKINGS {
        var row := BookedSpend(a.inputSet, a.chargeSat, state.windowElapsedNs);
        state := state.(bookings := state.bookings + [row]);
      }
    }
  }
}
