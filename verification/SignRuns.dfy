/** Every run of the wallet: the protocol among ticks, reboots and reopenings, what its events
    are justified by, and how much it can spend. */
module SignRuns {
  import opened Machine
  import opened Bitcoin
  import opened Limits
  import opened Window
  import opened StateCodec
  import opened Psbts
  import opened Verify
  import opened VerifyMeaning
  import opened Signing
  import opened SignAb
  import SpendCharge
  import Runs = WindowRuns
  import Clock = WindowClock
  import Signed = WindowSigned

  /** Time passes, the device reboots, the passphrase flag changes, the counter is sealed and
      reopened, or `sign_ab` is called with anything at all. */
  datatype Op =
    | Tick(dt: nat, clockDt: nat)
    | Reboot(origin: Duration)
    | SetPassphrase(used: bool)
    | Reopen
    | Sign(call: Call)

  function StepOf(h: Host, k: KeyHost, op: Op): Runs.Step {
    match op
    case Tick(dt, clockDt) => Runs.Tick(dt, clockDt)
    case Reboot(origin) => Runs.Reboot(origin)
    case SetPassphrase(used) => Runs.SetPassphrase(used)
    case Reopen => Runs.Reopen
    case Sign(call) =>
      Runs.SignAb(call.spend, call.reference, ChargeOf(h, call), SpendCharge.InputSetOf(call.psbt),
                  call.boot, call.height, call.wall, Signers(h, k, call).result.Ok?)
  }

  function StepsOf(h: Host, k: KeyHost, ops: seq<Op>): (r: seq<Runs.Step>)
    ensures |r| == |ops| && forall i :: 0 <= i < |ops| ==> r[i] == StepOf(h, k, ops[i])
  {
    seq(|ops|, i requires 0 <= i < |ops| => StepOf(h, k, ops[i]))
  }

  function World(h: Host, k: KeyHost, now: nat, mono: Duration, ops: seq<Op>): Runs.System {
    Runs.Run(Runs.Start(now, mono), StepsOf(h, k, ops))
  }

  /** An event with the number of the call it belongs to. */
  datatype Logged = Logged(call: nat, event: Event)

  function Tagged(n: nat, events: seq<Event>): (r: seq<Logged>)
    ensures |r| == |events| && forall i :: 0 <= i < |events| ==> r[i] == Logged(n, events[i])
  {
    seq(|events|, i requires 0 <= i < |events| => Logged(n, events[i]))
  }

  function EventsOf(h: Host, k: KeyHost, s: Runs.System, op: Op): seq<Event> {
    match op
    case Sign(call) => Protocol(h, k, s.core, s.mono, call).1.events
    case _ => []
  }

  /** Everything that happens in a run, in order. */
  function Journal(h: Host, k: KeyHost, now: nat, mono: Duration, ops: seq<Op>): seq<Logged> {
    if ops == [] then []
    else
      var n := |ops| - 1;
      Journal(h, k, now, mono, ops[..n]) + Tagged(n, EventsOf(h, k, World(h, k, now, mono, ops[..n]), ops[n]))
  }

  /** The event at this position is justified by those of the same call before it. */
  predicate JustifiedIn(h: Host, ops: seq<Op>, journal: seq<Logged>, at: nat)
    requires at < |journal|
  {
    var e := journal[at];
    e.call < |ops| && ops[e.call].Sign? && Justified(h, ops[e.call].call, Before(journal, at, e.call), e.event)
  }

  /** The events of call `n` before position `at`. */
  function Before(journal: seq<Logged>, at: nat, n: nat): seq<Event>
    requires at <= |journal|
  {
    if at == 0 then []
    else
      var front := Before(journal, at - 1, n);
      if journal[at - 1].call == n then front + [journal[at - 1].event] else front
  }

  lemma {:induction false} BeforePrefix(a: seq<Logged>, b: seq<Logged>, at: nat, n: nat)
    requires at <= |a|
    ensures Before(a + b, at, n) == Before(a, at, n)
  {
    if at > 0 {
      BeforePrefix(a, b, at - 1, n);
    }
  }

  lemma {:induction false} BeforeTagged(front: seq<Logged>, n: nat, events: seq<Event>, m: nat)
    requires m <= |events| && forall i :: 0 <= i < |front| ==> front[i].call < n
    ensures Before(front + Tagged(n, events), |front| + m, n) == events[..m]
  {
    var all := front + Tagged(n, events);
    if m == 0 {
      BeforePrefix(front, Tagged(n, events), |front|, n);
      NoneBefore(front, |front|, n);
    } else {
      BeforeTagged(front, n, events, m - 1);
      assert all[|front| + m - 1] == Logged(n, events[m - 1]);
      assert events[..m] == events[..m - 1] + [events[m - 1]];
    }
  }

  lemma {:induction false} NoneBefore(front: seq<Logged>, at: nat, n: nat)
    requires at <= |front| && forall i :: 0 <= i < |front| ==> front[i].call < n
    ensures Before(front, at, n) == []
  {
    if at > 0 {
      NoneBefore(front, at - 1, n);
    }
  }

  predicate AllJustifiedIn(h: Host, ops: seq<Op>, journal: seq<Logged>) {
    forall at: nat :: at < |journal| ==> JustifiedIn(h, ops, journal, at)
  }

  lemma OldEventJustified(h: Host, ops: seq<Op>, n: nat, front: seq<Logged>, back: seq<Logged>, at: nat)
    requires n < |ops| && at < |front| && JustifiedIn(h, ops[..n], front, at)
    ensures JustifiedIn(h, ops, front + back, at)
  {
    hide Justified, Before;
    BeforePrefix(front, back, at, front[at].call);
    assert ops[..n][front[at].call] == ops[front[at].call];
  }

  lemma NewEventJustified(h: Host, ops: seq<Op>, n: nat, front: seq<Logged>, events: seq<Event>, m: nat)
    requires n < |ops| && ops[n].Sign? && m < |events| && AllJustified(h, ops[n].call, events)
    requires forall i :: 0 <= i < |front| ==> front[i].call < n
    ensures JustifiedIn(h, ops, front + Tagged(n, events), |front| + m)
  {
    hide Justified, Before;
    BeforeTagged(front, n, events, m);
  }

  /** In every run, every event is justified by what the same call did before it. */
  lemma {:induction false} EveryEventJustified(h: Host, k: KeyHost, now: nat, mono: Duration, ops: seq<Op>)
    ensures AllJustifiedIn(h, ops, Journal(h, k, now, mono, ops))
    decreases |ops|
  {
    hide Protocol, World, JustifiedIn;
    if ops != [] {
      var n := |ops| - 1;
      var s, front := World(h, k, now, mono, ops[..n]), Journal(h, k, now, mono, ops[..n]);
      var events := EventsOf(h, k, s, ops[n]);
      EveryEventJustified(h, k, now, mono, ops[..n]);
      if ops[n].Sign? {
        ProtocolJustified(h, k, s.core, s.mono, ops[n].call);
      }
      CallsEarlier(h, ops[..n], front);
      forall at: nat | at < |front + Tagged(n, events)| ensures JustifiedIn(h, ops, front + Tagged(n, events), at) {
        if at < |front| {
          OldEventJustified(h, ops, n, front, Tagged(n, events), at);
        } else {
          NewEventJustified(h, ops, n, front, events, at - |front|);
        }
      }
    }
  }

  lemma CallsEarlier(h: Host, ops: seq<Op>, journal: seq<Logged>)
    requires AllJustifiedIn(h, ops, journal)
    ensures forall i :: 0 <= i < |journal| ==> journal[i].call < |ops|
  {
    hide Justified, Before;
    forall i | 0 <= i < |journal| ensures journal[i].call < |ops| {
      assert JustifiedIn(h, ops, journal, i);
    }
  }

  /** The protocol's effect on the counter is the step the spending theorems quantify over. */
  lemma ProtocolIsStep(h: Host, k: KeyHost, s: Runs.System, call: Call)
    ensures var (core, o) := Protocol(h, k, s.core, s.mono, call);
            var s' := Runs.Next(s, StepOf(h, k, Sign(call)));
            && s'.core == core
            && (o.result.Ok? ==>
                  && |s'.log| == |s.log| + 1 && s'.log[..|s.log|] == s.log
                  && Ok(s'.log[|s.log|].charge) == ChargeOf(h, call)
                  && Ok(s'.log[|s.log|].inputs) == SpendCharge.InputSetOf(call.psbt))
            && (o.result.Err? ==> s'.log == s.log)
  {
    hide Signers, SpendCharge.Charge, SpendCharge.InputSetOf, Advanced, Pruned, Window.Committed, Decision;
    if Approval(h, s.core, s.mono, call).1.Ok? {
      ApprovalMeaning(h, s.core, s.mono, call);
    }
  }

  /** The id tells these two transactions apart. */
  predicate TxidTells(h: Host, a: Transaction, b: Transaction) {
    h.txid(a) == h.txid(b) ==> a == b
  }

  /** What a booked call is charged is what the transaction it returns takes out of the wallet,
      the watch-only value of its inputs minus its own outputs, and no more than the amount and
      fee the verifier reports. */
  lemma BookedCharge(h: Host, k: KeyHost, s: Runs.System, call: Call, psbt: Psbt)
    requires Protocol(h, k, s.core, s.mono, call).1.result == Ok(psbt) && TxidTells(h, psbt.tx, call.psbt.tx)
    ensures Accepts(h, call, call.psbt) && ChargeOf(h, call).Ok?
    ensures SpendCharge.WalletOf(h.curve, call.descriptor, call.verify).Ok?
    ensures forall i :: 0 <= i < |psbt.tx.inputs| ==> psbt.tx.inputs[i].previousOutput in call.verify.knownUtxos
    ensures var w := SpendCharge.WalletOf(h.curve, call.descriptor, call.verify).value;
            ChargeOf(h, call).value == KnownSum(call.verify, psbt.tx.inputs) - SpendCharge.OwnSum(w, psbt.tx.outputs)
    ensures var v := Verdict(h, call.psbt, call.descriptor, call.verify).value;
            v.feeSats <= ChargeOf(h, call).value <= v.amountSats + v.feeSats
  {
    hide Verdict, SpendCharge.Charge, SpendCharge.WalletOf, Protocol;
    ProtocolResult(h, k, s.core, s.mono, call);
    ProtocolApproved(h, k, s.core, s.mono, call);
    ApprovalMeaning(h, s.core, s.mono, call);
    SpendCharge.ChargeWithinVerdict(h, call.psbt, call.descriptor, call.verify);
    forall i | 0 <= i < |psbt.tx.inputs| ensures psbt.tx.inputs[i].previousOutput in call.verify.knownUtxos {
      assert KnownAs(call.verify, call.psbt.tx.inputs[i], call.psbt.inputs[i].witnessUtxo.value);
    }
  }

  lemma ProtocolApproved(h: Host, k: KeyHost, s: CoreState, mono: Duration, call: Call)
    requires Protocol(h, k, s, mono, call).1.result.Ok?
    ensures Approval(h, s, mono, call).1.Ok?
  {
    hide Signers, Authorized;
  }

  /** Every policy in force has at least this window and allows at most this limit. */
  predicate Bounded(op: Op, window: Duration, limit: nat) {
    match op
    case Sign(call) =>
      Validate(call.spend).Ok? ==> call.spend.window >= window && Allowance(call.spend, call.reference) <= limit
    case _ => true
  }

  lemma BoundedIsAdmissible(h: Host, k: KeyHost, ops: seq<Op>, window: Duration, limit: nat)
    requires forall i :: 0 <= i < |ops| ==> Bounded(ops[i], window, limit)
    ensures Runs.AllAdmissible(StepsOf(h, k, ops), window, limit)
  {
    hide Signers, SpendCharge.Charge, Validate, Allowance;
    var steps := StepsOf(h, k, ops);
    forall i | 0 <= i < |steps| ensures Runs.Admissible(steps[i], window, limit) {
      assert Bounded(ops[i], window, limit);
      assert steps[i] == StepOf(h, k, ops[i]);
    }
  }

  /** The whole wallet: whatever transactions, descriptors, first signers, tips, boot ids and
      wall times it is called with, the sats it books within any window-long interval of true
      time total at most the limit, in every run whose clock never overruns. */
  lemma WalletSpendingIsBounded(h: Host, k: KeyHost, now: nat, mono: Duration, ops: seq<Op>,
                                window: Duration, limit: nat, from: nat)
    requires forall i :: 0 <= i < |ops| ==> Bounded(ops[i], window, limit)
    requires Runs.NeverOverruns(now, mono, StepsOf(h, k, ops))
    ensures Runs.SpentBetween(World(h, k, now, mono, ops).log, from, from + window) <= limit
  {
    BoundedIsAdmissible(h, k, ops, window, limit);
    hide Runs.Run, Runs.SpentBetween, Runs.NeverOverruns, Runs.AllAdmissible, StepsOf;
    Runs.SpendingIsBounded(now, mono, StepsOf(h, k, ops), window, limit, from);
  }

  /** And so in every run whose clock never runs fast within a boot, and either never starts a
      boot ahead of its last reading or reports an id of its own for every boot. */
  lemma WalletUnderLawfulClock(h: Host, k: KeyHost, id: nat -> u64, now: nat, mono: Duration, ops: seq<Op>,
                               window: Duration, limit: nat, from: nat)
    requires forall i :: 0 <= i < |ops| ==> Bounded(ops[i], window, limit)
    requires Clock.TicksLawful(StepsOf(h, k, ops))
    requires Clock.RestartsBehind(now, mono, StepsOf(h, k, ops)) || Clock.ReportsBoots(id, StepsOf(h, k, ops))
    ensures Runs.SpentBetween(World(h, k, now, mono, ops).log, from, from + window) <= limit
  {
    hide *;
    var steps := StepsOf(h, k, ops);
    if Clock.RestartsBehind(now, mono, steps) {
      Clock.RestartsBehindNeverOverrun(now, mono, steps);
    } else {
      Clock.ReportedBootsNeverOverrun(id, now, mono, steps);
    }
    WalletSpendingIsBounded(h, k, now, mono, ops, window, limit, from);
  }

  /** Counting every signature and not only what was newly booked: the largest charges the wallet
      signs for different input sets within one window total at most twice the limit. */
  lemma WalletSignsWithinTwice(h: Host, k: KeyHost, now: nat, mono: Duration, ops: seq<Op>, window: Duration,
                               limit: nat, from: nat, keys: seq<set<OutPoint>>)
    requires forall i :: 0 <= i < |ops| ==> Bounded(ops[i], window, limit)
    requires Runs.NeverOverruns(now, mono, StepsOf(h, k, ops)) && Signed.Different(keys)
    ensures Signed.SumLargest(World(h, k, now, mono, ops).log, keys, from, from + window) <= 2 * limit
  {
    BoundedIsAdmissible(h, k, ops, window, limit);
    hide Runs.Run, Runs.NeverOverruns, Runs.AllAdmissible, Signed.SumLargest, Signed.Different, StepsOf;
    Signed.SignedWithinTwice(now, mono, StepsOf(h, k, ops), window, limit, from, keys);
  }
}
