/** Which platform clocks keep a run from overrunning true time, and what happens under one that
    does not: the reading after a reboot comes from an origin the platform chooses. */
module WindowClock {
  import opened Machine
  import opened Bitcoin
  import opened InputSets
  import opened Limits
  import opened StateCodec
  import opened Window
  import opened WindowRuns

  /** The clock may pause within a boot but never runs fast. */
  predicate TicksLawful(steps: seq<Step>) {
    forall i :: 0 <= i < |steps| && steps[i].Tick? ==> steps[i].clockDt <= steps[i].dt
  }

  /** The reading is no further from the anchor than true time is. */
  predicate NotAhead(s: System) {
    s.core.initialized ==> DurationAsNs(s.mono) - s.core.monotonicNsAtAnchor <= s.now - s.anchorAt
  }

  lemma NotAheadIsSound(s: System, st: Step)
    requires NotAhead(s)
    ensures !Overruns(s, st)
  {
  }

  lemma NextNotAhead(s: System, st: Step)
    requires ClockOrdered(s) && NotAhead(s) && (st.Tick? ==> st.clockDt <= st.dt)
    requires st.Reboot? ==> st.origin <= s.mono
    ensures NotAhead(Next(s, st))
  {
    StepAges(s, st);
    hide ClockOrdered, Advanced, Authorized, Validate;
  }

  // --- Clocks that restart behind ------------------------------------------

  /** No reboot moves the reading forward; starting again from zero never does. */
  ghost predicate RestartsBehind(now: nat, mono: Duration, steps: seq<Step>) {
    forall i :: 0 <= i < |steps| && steps[i].Reboot? ==> steps[i].origin <= Run(Start(now, mono), steps[..i]).mono
  }

  lemma {:induction false} BehindRuns(now: nat, mono: Duration, steps: seq<Step>, n: nat)
    requires TicksLawful(steps) && RestartsBehind(now, mono, steps) && n <= |steps|
    ensures NotAhead(Run(Start(now, mono), steps[..n]))
    decreases n
  {
    hide Next, NotAhead;
    if n > 0 {
      BehindRuns(now, mono, steps, n - 1);
      assert steps[..n][..n - 1] == steps[..n - 1];
      RunKeepsOrder(now, mono, steps[..n - 1]);
      NextNotAhead(Run(Start(now, mono), steps[..n - 1]), steps[n - 1]);
    } else {
      StartNotAhead(now, mono);
    }
  }

  lemma StartNotAhead(now: nat, mono: Duration)
    ensures NotAhead(Start(now, mono))
  {
  }

  /** Whatever boot ids are reported, a clock that restarts behind never overruns. */
  lemma RestartsBehindNeverOverrun(now: nat, mono: Duration, steps: seq<Step>)
    requires TicksLawful(steps) && RestartsBehind(now, mono, steps)
    ensures NeverOverruns(now, mono, steps)
  {
    hide Run, Overruns, NotAhead, TicksLawful, RestartsBehind;
    forall i | 0 <= i < |steps| ensures !OverrunsAt(now, mono, steps, i) {
      BehindRuns(now, mono, steps, i);
      NotAheadIsSound(Run(Start(now, mono), steps[..i]), steps[i]);
    }
  }

  // --- Clocks that report their boots --------------------------------------

  function Boots(steps: seq<Step>): nat {
    if steps == [] then 0
    else Boots(steps[..|steps| - 1]) + if steps[|steps| - 1].Reboot? then 1 else 0
  }

  /** Every call reports the id of its boot, no two boots share one, and none is the value the
      sealed state keeps for an unknown id. */
  ghost predicate ReportsBoots(id: nat -> u64, steps: seq<Step>) {
    && (forall i :: 0 <= i < |steps| && steps[i].SignAb? ==> steps[i].boot == Some(id(Boots(steps[..i]))))
    && (forall a, b :: 0 <= a < b <= Boots(steps) ==> id(a) != id(b))
    && (forall a :: 0 <= a <= Boots(steps) ==> id(a) != U64_MAX)
  }

  /** The anchor carries the id of an earlier boot, or of this one with the reading not ahead. */
  ghost predicate AnchorKnown(id: nat -> u64, s: System, boots: nat) {
    s.core.initialized ==> exists k :: AnchoredIn(id, s, k, boots)
  }

  predicate AnchoredIn(id: nat -> u64, s: System, k: nat, boots: nat) {
    k <= boots && s.core.bootIdAtAnchor == Some(id(k)) && (k == boots ==> NotAhead(s))
  }

  lemma BootIdKept(s: System, st: Step)
    ensures var id := Next(s, st).core.bootIdAtAnchor;
            && (Observes(st) && st.boot.Some? ==> id == st.boot)
            && (!Observes(st) && s.core.bootIdAtAnchor != Some(U64_MAX) ==> id == s.core.bootIdAtAnchor)
  {
    hide StepElapsed, Live, FindRow, Validate, Decision;
  }

  lemma NextAnchorKnown(id: nat -> u64, s: System, st: Step, boots: nat)
    requires ClockOrdered(s) && AnchorKnown(id, s, boots) && (st.Tick? ==> st.clockDt <= st.dt)
    requires st.SignAb? ==> st.boot == Some(id(boots))
    requires forall a :: 0 <= a <= boots ==> id(a) != U64_MAX
    ensures AnchorKnown(id, Next(s, st), if st.Reboot? then boots + 1 else boots)
  {
    StepAges(s, st);
    BootIdKept(s, st);
    var s' := Next(s, st);
    if Observes(st) {
      assert NotAhead(s');
      assert AnchoredIn(id, s', boots, boots);
    } else if s'.core.initialized {
      var k :| AnchoredIn(id, s, k, boots);
      if k == boots && !st.Reboot? {
        NextNotAhead(s, st);
      }
      hide ClockOrdered, NotAhead, Next, Observes;
      assert AnchoredIn(id, s', k, if st.Reboot? then boots + 1 else boots);
    }
  }

  lemma {:induction false} BootsGrow(steps: seq<Step>, n: nat)
    requires n <= |steps|
    ensures Boots(steps[..n]) <= Boots(steps)
    ensures n < |steps| ==> Boots(steps[..n + 1]) == Boots(steps[..n]) + if steps[n].Reboot? then 1 else 0
    decreases |steps|
  {
    if n < |steps| {
      var m := |steps| - 1;
      assert steps[..n + 1][..n] == steps[..n];
      assert steps[..m][..n] == steps[..n];
      BootsGrow(steps[..m], n);
    } else {
      assert steps[..n] == steps;
    }
  }

  lemma {:induction false} KnownRuns(id: nat -> u64, now: nat, mono: Duration, steps: seq<Step>, n: nat)
    requires TicksLawful(steps) && ReportsBoots(id, steps) && n <= |steps|
    ensures AnchorKnown(id, Run(Start(now, mono), steps[..n]), Boots(steps[..n]))
    decreases n
  {
    hide Next, AnchorKnown, Boots;
    if n > 0 {
      KnownRuns(id, now, mono, steps, n - 1);
      assert steps[..n][..n - 1] == steps[..n - 1];
      RunKeepsOrder(now, mono, steps[..n - 1]);
      BootsGrow(steps, n - 1);
      NextAnchorKnown(id, Run(Start(now, mono), steps[..n - 1]), steps[n - 1], Boots(steps[..n - 1]));
    } else {
      StartKnown(id, now, mono, Boots(steps[..n]));
    }
  }

  lemma StartKnown(id: nat -> u64, now: nat, mono: Duration, boots: nat)
    ensures AnchorKnown(id, Start(now, mono), boots)
  {
  }

  lemma KnownIsSound(id: nat -> u64, s: System, st: Step, boots: nat)
    requires AnchorKnown(id, s, boots) && (st.SignAb? ==> st.boot == Some(id(boots)))
    requires forall a, b :: 0 <= a < b <= boots ==> id(a) != id(b)
    ensures !Overruns(s, st)
  {
    if s.core.initialized {
      var k :| AnchoredIn(id, s, k, boots);
    }
  }

  /** Wherever a platform's clock starts again, it never overruns when every call reports the id
      of its boot and ids are never reused. */
  lemma ReportedBootsNeverOverrun(id: nat -> u64, now: nat, mono: Duration, steps: seq<Step>)
    requires TicksLawful(steps) && ReportsBoots(id, steps)
    ensures NeverOverruns(now, mono, steps)
  {
    hide Run, Overruns, AnchorKnown, TicksLawful, Boots;
    forall i | 0 <= i < |steps| ensures !OverrunsAt(now, mono, steps, i) {
      KnownRuns(id, now, mono, steps, i);
      BootsGrow(steps, i);
      KnownIsSound(id, Run(Start(now, mono), steps[..i]), steps[i], Boots(steps[..i]));
    }
  }

  // --- A clock that does neither -------------------------------------------

  /** Spend the whole allowance on one coin; the reading's clock is the system's. */
  function Spend(policy: SpendPolicy, reference: u64, coin: OutPoint, r: Reading): Step {
    SignAb(policy, reference, Ok(Allowance(policy, reference)), Ok([coin]), r.boot, r.height, r.wall, true)
  }

  /** Spend the whole allowance, reboot, and at the same moment try to spend it again. */
  function SpendTwice(policy: SpendPolicy, reference: u64, first: OutPoint, second: OutPoint, before: Reading,
                      after: Reading): seq<Step> {
    [SetPassphrase(true), Spend(policy, reference, first, before), Reboot(after.mono),
     Spend(policy, reference, second, after)]
  }

  lemma {:induction false} FourSteps(s: System, a: Step, b: Step, c: Step, d: Step)
    ensures Run(s, [a, b, c, d]) == Next(Next(Next(Next(s, a), b), c), d)
  {
    hide Next;
    assert [a, b, c, d][..3] == [a, b, c] && [a, b, c][..2] == [a, b] && [a, b][..1] == [a] && [a][..0] == [];
    assert Run(s, []) == s && Run(s, [a]) == Next(s, a);
    assert Run(s, [a, b]) == Next(Next(s, a), b);
    assert Run(s, [a, b, c]) == Next(Next(Next(s, a), b), c);
  }

  /** The counter once the allowance was booked at its first observation. */
  function SpentOnce(now: nat, amount: u64, coin: OutPoint, r: Reading): System {
    var rows := [BookedSpend([coin], amount, 0)];
    System(CoreState.CoreState(true, DurationAsNs(r.mono), r.height, r.boot, r.wall, 0, 0, true, rows),
           now, r.mono, now, [Entry(now, 0, [coin], amount, amount, true)])
  }

  lemma FirstSpend(now: nat, policy: SpendPolicy, reference: u64, coin: OutPoint, r: Reading)
    requires Validate(policy).Ok? && Allowance(policy, reference) > 0
    ensures Next(Next(Start(now, r.mono), SetPassphrase(true)), Spend(policy, reference, coin, r))
            == SpentOnce(now, Allowance(policy, reference), coin, r)
  {
    hide Validate, Allowance;
    var rows: seq<BookedSpend> := [];
    assert Live(rows, 0) == [] && BookedSat(rows) == 0 && FindRow(rows, [coin]) == None;
  }

  lemma {:induction false} OneRow(row: BookedSpend, start: u64, inputs: InputSet)
    ensures Live([row], start) == if row.elapsedAtNs >= start then [row] else []
    ensures BookedSat([row]) == row.amountSat
    ensures FindRow([row], inputs) == if SameInputs(row.inputs, inputs) then Some(0) else None
  {
    assert [row][..0] == [] && [row][1..] == [];
  }

  /** The reading after the reboot is believed and more than the window ahead of the one before. */
  predicate Jumps(before: Reading, after: Reading, window: Duration) {
    var delta := DurationAsNs(after.mono) - DurationAsNs(before.mono);
    && delta > window
    && (before.boot.Some? && after.boot.Some? ==> before.boot == after.boot)
    && (before.height.Some? && after.height.Some? ==>
          (after.height.value - before.height.value) * SECONDS_PER_BLOCK * NS_PER_SECOND > window)
    && (before.wall.Some? && after.wall.Some? ==> 0 <= after.wall.value - before.wall.value <= delta)
  }

  lemma JumpsIff(now: nat, amount: u64, coin: OutPoint, before: Reading, after: Reading, window: Duration)
    requires window < U64_MAX
    ensures RunsAhead(SpentOnce(now, amount, coin, before).core, after, window) <==> Jumps(before, after, window)
  {
  }

  lemma RowsUntouched(s: CoreState, r: Reading)
    ensures Advanced(s, r).bookings == s.bookings
    ensures Advanced(s, r).passphraseUsedSinceInstall == s.passphraseUsedSinceInstall
  {
    hide StepElapsed;
  }

  lemma JumpAges(now: nat, amount: u64, coin: OutPoint, before: Reading, after: Reading, window: Duration)
    requires window < U64_MAX
    ensures var s' := Advanced(SpentOnce(now, amount, coin, before).core, after);
            && s'.bookings == [BookedSpend([coin], amount, 0)] && s'.passphraseUsedSinceInstall
            && (s'.windowElapsedNs > window <==> Jumps(before, after, window))
  {
    hide StepElapsed, Advanced;
    AgesTooFastIff(SpentOnce(now, amount, coin, before).core, after, window);
    JumpsIff(now, amount, coin, before, after, window);
    RowsUntouched(SpentOnce(now, amount, coin, before).core, after);
  }

  /** The row of the first spend is still there exactly when the clock moved at most a window,
      and it leaves no room for a second. */
  lemma SecondSpend(s: System, policy: SpendPolicy, reference: u64, first: OutPoint, coin: OutPoint, r: Reading)
    requires Validate(policy).Ok? && Allowance(policy, reference) > 0 && policy.window < U64_MAX && first != coin
    requires s.log == [Entry(s.now, 0, [first], Allowance(policy, reference), Allowance(policy, reference), true)]
    requires s.mono == r.mono
    requires var s' := Advanced(s.core, r);
             && s'.bookings == [BookedSpend([first], Allowance(policy, reference), 0)] && s'.passphraseUsedSinceInstall
    ensures SpentBetween(Next(s, Spend(policy, reference, coin, r)).log, s.now, s.now)
            == if Advanced(s.core, r).windowElapsedNs > policy.window
               then 2 * Allowance(policy, reference) else Allowance(policy, reference)
  {
    var seen := Advanced(s.core, r);
    hide Validate, Allowance, Advanced;
    var row := BookedSpend([first], Allowance(policy, reference), 0);
    assert row.inputs[0] !in [coin] && !SameInputs(row.inputs, [coin]);
    OneRow(row, SatSub(seen.windowElapsedNs, DurationAsNs(policy.window)), [coin]);
    hide SameInputs, Live;
    var none: seq<BookedSpend> := [];
    assert BookedSat(none) == 0 && FindRow(none, [coin]) == None;
    var log := Next(s, Spend(policy, reference, coin, r)).log;
    assert if seen.windowElapsedNs > policy.window then |log| == 2 && log[..1] == s.log else log == s.log;
    assert s.log[..0] == [] && SpentBetween(s.log, s.now, s.now) == Allowance(policy, reference);
  }

  /** The second spend goes through at the same moment of true time, twice the limit in all,
      exactly when the reading jumps by more than the window and nothing gives it away: no pair of
      boot ids, no pair of tips too close together, no pair of wall times out of step. */
  lemma {:induction false} SpentTwiceIff(now: nat, policy: SpendPolicy, reference: u64, first: OutPoint,
                                         second: OutPoint, before: Reading, after: Reading)
    requires Validate(policy).Ok? && Allowance(policy, reference) > 0 && first != second
    ensures var steps := SpendTwice(policy, reference, first, second, before, after);
            SpentBetween(Run(Start(now, before.mono), steps).log, now, now)
            == if Jumps(before, after, policy.window) then 2 * Allowance(policy, reference)
               else Allowance(policy, reference)
  {
    var amount := Allowance(policy, reference);
    var spent := SpentOnce(now, amount, first, before);
    var rebooted := spent.(mono := after.mono);
    assert Next(spent, Reboot(after.mono)) == rebooted && spent.core == rebooted.core;
    assert policy.window <= MAX_WINDOW < U64_MAX;
    hide Validate, Allowance, Run, Advanced, Next, SpentBetween, Spend, Jumps;
    FourSteps(Start(now, before.mono), SetPassphrase(true), Spend(policy, reference, first, before), Reboot(after.mono),
              Spend(policy, reference, second, after));
    FirstSpend(now, policy, reference, first, before);
    JumpAges(now, amount, first, before, after, policy.window);
    SecondSpend(rebooted, policy, reference, first, second, after);
  }
}
