/** Whole runs of the spend window against true time: the clock never runs ahead, the pruned
    ledger agrees with the full history of bookings, and no window-long interval of true time
    sees more newly booked sats than the limit. */
module WindowRuns {
  import opened Machine
  import opened Bitcoin
  import opened Errors
  import opened InputSets
  import opened Limits
  import opened StateCodec
  import opened Window

  /** One booking as history sees it: when it happened in true time and on the window's own
      clock, the full charge, what it added, and whether it opened a new row. */
  datatype Entry = Entry(at: nat, elapsed: u64, inputs: InputSet, charge: u64, extra: u64, opensRow: bool)

  /** The counter together with the world around it: true time, the monotonic reading of the
      current boot, the true time of the last observation, and the history of bookings. */
  datatype System = System(core: CoreState, now: nat, mono: Duration, anchorAt: nat, log: seq<Entry>)

  /** Time passes and the monotonic clock moves on, the device reboots and the clock starts again
      from some reading of the platform's choice, the passphrase flag changes, the counter is
      sealed and reopened, or `sign_ab` is called with any policy, any transaction and any
      reported boot id, tip and wall time. */
  datatype Step =
    | Tick(dt: nat, clockDt: nat)
    | Reboot(origin: Duration)
    | SetPassphrase(used: bool)
    | Reopen
    | SignAb(policy: SpendPolicy, reference: u64, charge: Result<u64, SignError>,
             inputs: Result<InputSet, SignError>, boot: Option<u64>, height: Option<u32>,
             wall: Option<u64>, signed: bool)

  /** Every policy in force has at least this window and allows at most this limit. */
  predicate Admissible(st: Step, window: Duration, limit: nat) {
    match st
    case SignAb(policy, reference, _, inputs, _, _, _, _) =>
      && (inputs.Ok? ==> 1 <= |inputs.value| <= MAX_INPUTS)
      && (Validate(policy).Ok? ==> policy.window >= window && Allowance(policy, reference) <= limit)
    case _ => true
  }

  function Observed(s: System, policy: SpendPolicy, r: Reading): System {
    if Validate(policy).Err? then s
    else s.(core := Pruned(Advanced(s.core, r), policy.window), anchorAt := s.now)
  }

  function Booked(s: System, a: SpendApproval): System {
    s.(core := Committed(s.core, a),
       log := s.log + [Entry(s.now, s.core.windowElapsedNs, a.inputSet, a.chargeSat,
                             ExtraAgainst(s.core.bookings, a.inputSet, a.chargeSat),
                             FindRow(s.core.bookings, a.inputSet).None?)])
  }

  function Next(s: System, st: Step): System {
    match st
    case Tick(dt, clockDt) => s.(now := s.now + dt, mono := s.mono + clockDt)
    case Reboot(origin) => s.(mono := origin)
    case SetPassphrase(used) => s.(core := s.core.(passphraseUsedSinceInstall := used))
    case Reopen => s.(core := Normalise(s.core))
    case SignAb(policy, reference, charge, inputs, boot, height, wall, signed) =>
      var r := Reading(s.mono, boot, height, wall);
      var decision := Authorized(s.core, policy, reference, charge, inputs, r).1;
      var s' := Observed(s, policy, r);
      if decision.Ok? && signed then Booked(s', decision.value) else s'
  }

  function Start(now: nat, mono: Duration): System {
    System(Empty, now, mono, now, [])
  }

  function Run(s: System, steps: seq<Step>): System {
    if steps == [] then s else Next(Run(s, steps[..|steps| - 1]), steps[|steps| - 1])
  }

  // --- Reading the history -------------------------------------------------

  function Key(e: Entry): set<OutPoint> {
    Elements(e.inputs)
  }

  /** Where the current row of an input set was opened. */
  function Birth(log: seq<Entry>, key: set<OutPoint>): nat {
    if log == [] then 0
    else
      var n := |log| - 1;
      if log[n].opensRow && Key(log[n]) == key then n else Birth(log[..n], key)
  }

  /** Largest charge committed for the set from position `b` on. */
  function MaxFrom(log: seq<Entry>, key: set<OutPoint>, b: nat): nat {
    if |log| <= b then 0
    else
      var n := |log| - 1;
      Max(MaxFrom(log[..n], key, b), if Key(log[n]) == key then log[n].charge else 0)
  }

  /** Everything newly booked for the set from position `b` on. */
  function SumFrom(log: seq<Entry>, key: set<OutPoint>, b: nat): nat {
    if |log| <= b then 0
    else
      var n := |log| - 1;
      SumFrom(log[..n], key, b) + if Key(log[n]) == key then log[n].extra else 0
  }

  predicate Raises(e: Entry, key: set<OutPoint>) {
    Key(e) == key && (e.opensRow || e.extra > 0)
  }

  /** The window time of the last booking that opened or raised the set's row. */
  function StampFrom(log: seq<Entry>, key: set<OutPoint>, b: nat): nat {
    if |log| <= b then 0
    else
      var n := |log| - 1;
      if Raises(log[n], key) then log[n].elapsed else StampFrom(log[..n], key, b)
  }

  /** Sats newly booked at true times within `[from, to]`. */
  function SpentBetween(log: seq<Entry>, from: nat, to: nat): nat {
    if log == [] then 0
    else
      var n := |log| - 1;
      SpentBetween(log[..n], from, to) + if from <= log[n].at <= to then log[n].extra else 0
  }

  // --- What every step keeps -----------------------------------------------

  predicate RowsDistinct(rows: seq<BookedSpend>) {
    forall i, j :: 0 <= i < j < |rows| ==> Elements(rows[i].inputs) != Elements(rows[j].inputs)
  }

  predicate RowsWellFormed(rows: seq<BookedSpend>) {
    && |rows| <= MAX_BOOKINGS
    && RowsDistinct(rows)
    && forall i :: 0 <= i < |rows| ==> RowInLimits(rows[i]) && NoDuplicates(rows[i].inputs)
  }

  /** The row is exactly what history says: opened by a booking, holding the largest
      charge since, which is also the sum of what was added, stamped when it last rose. */
  predicate RowFromLog(log: seq<Entry>, row: BookedSpend) {
    var key := Elements(row.inputs);
    var b := Birth(log, key);
    && b < |log| && log[b].opensRow && Key(log[b]) == key
    && row.amountSat == MaxFrom(log, key, b)
    && row.amountSat == SumFrom(log, key, b)
    && row.elapsedAtNs == StampFrom(log, key, b)
  }

  predicate Covered(log: seq<Entry>, rows: seq<BookedSpend>, i: nat)
    requires i < |log|
  {
    Birth(log, Key(log[i])) <= i && exists j :: 0 <= j < |rows| && Elements(rows[j].inputs) == Key(log[i])
  }

  /** No increment younger than the window is missing from the rows. */
  predicate YoungKept(s: System, window: Duration) {
    forall i :: 0 <= i < |s.log| && s.log[i].extra > 0
                && s.log[i].elapsed + window >= s.core.windowElapsedNs ==>
                  Covered(s.log, s.core.bookings, i)
  }

  /** The window's clock never falls, and stands at zero until the first observation. */
  predicate ClockOrdered(s: System) {
    && s.anchorAt <= s.now
    && (!s.core.initialized ==> s.log == [] && s.core.windowElapsedNs == 0)
    && (forall i :: 0 <= i < |s.log| ==> s.log[i].elapsed <= s.core.windowElapsedNs && s.log[i].at <= s.anchorAt)
    && (forall i, j :: 0 <= i < j < |s.log| ==> s.log[i].elapsed <= s.log[j].elapsed)
  }

  /** The window's clock lags true time, back to every past booking. */
  predicate ClockLags(s: System) {
    forall i :: 0 <= i < |s.log| ==> s.core.windowElapsedNs - s.log[i].elapsed <= s.anchorAt - s.log[i].at
  }

  predicate LedgerAgrees(s: System) {
    && RowsWellFormed(s.core.bookings)
    && forall i :: 0 <= i < |s.core.bookings| ==>
         && RowFromLog(s.log, s.core.bookings[i])
         && s.core.windowStartElapsedNs <= s.core.bookings[i].elapsedAtNs <= s.core.windowElapsedNs
  }

  predicate Inv(s: System, window: Duration, limit: nat) {
    && ClockOrdered(s)
    && LedgerAgrees(s)
    && YoungKept(s, window)
    && Total(s.core.bookings) <= limit
  }

  // --- Clock ---------------------------------------------------------------

  /** One observation ages the window by at most the monotonic progress since the anchor. */
  lemma AdvancedAges(s: CoreState, r: Reading)
    ensures var s' := Advanced(s, r);
            && s'.initialized && s'.monotonicNsAtAnchor == DurationAsNs(r.mono)
            && s'.bookings == s.bookings
            && (!s.initialized ==> s'.windowElapsedNs == 0)
            && (s.initialized ==>
                  0 <= s'.windowElapsedNs - s.windowElapsedNs <= Max(DurationAsNs(r.mono) - s.monotonicNsAtAnchor, 0))
  {
    StepElapsedCases(s, DurationAsNs(r.mono), r.boot, r.height, r.wall);
    hide StepElapsed;
  }

  predicate SameClock(s: CoreState, s': CoreState) {
    && s'.initialized == s.initialized
    && s'.monotonicNsAtAnchor == s.monotonicNsAtAnchor
    && s'.windowElapsedNs == s.windowElapsedNs
  }

  lemma ClockUntouched(s: CoreState, window: Duration, a: SpendApproval)
    ensures SameClock(s, Pruned(s, window)) && SameClock(s, Committed(s, a)) && SameClock(s, Normalise(s))
  {
    hide Live, FindRow;
  }

  /** No step ever turns the window's clock back. */
  lemma StepAges(s: System, st: Step)
    requires ClockOrdered(s)
    ensures var s' := Next(s, st);
            && s.anchorAt <= s'.anchorAt <= s'.now
            && s.core.windowElapsedNs <= s'.core.windowElapsedNs
            && (s.core.initialized ==> s'.core.initialized)
            && (!Observes(st) ==> s'.anchorAt == s.anchorAt && SameClock(s.core, s'.core))
            && (Observes(st) ==>
                  && s'.anchorAt == s'.now == s.now && s'.mono == s.mono && s'.core.initialized
                  && s'.core.monotonicNsAtAnchor == DurationAsNs(s.mono)
                  && s'.core.windowElapsedNs == Advanced(s.core, ReadingOf(s, st)).windowElapsedNs)
  {
    hide Advanced, Pruned, Committed, Normalise, Decision, Validate;
    if Observes(st) {
      var r := ReadingOf(s, st);
      AdvancedAges(s.core, r);
      var decision := Authorized(s.core, st.policy, st.reference, st.charge, st.inputs, r).1;
      var seen := Observed(s, st.policy, r).core;
      var some := SpendApproval([], 0);
      ClockUntouched(Advanced(s.core, r), st.policy.window, some);
      ClockUntouched(seen, st.policy.window, if decision.Ok? then decision.value else some);
    } else {
      ClockUntouched(s.core, 0, SpendApproval([], 0));
    }
  }

  /** The clock and the ledger are looked at by a call whose policy is valid, and by no other step. */
  predicate Observes(st: Step) {
    st.SignAb? && Validate(st.policy).Ok?
  }

  function ReadingOf(s: System, st: Step): Reading
    requires st.SignAb?
  {
    Reading(s.mono, st.boot, st.height, st.wall)
  }

  /** The reading is believed and ahead of true time by the last observation: no boot id gives it
      away, no regression, no block count and no wall clock holds it back. */
  predicate Overruns(s: System, st: Step) {
    Observes(st) && s.core.initialized && RunsAhead(s.core, ReadingOf(s, st), s.now - s.anchorAt)
  }

  predicate RunsAhead(s: CoreState, r: Reading, since: int) {
    var delta := DurationAsNs(r.mono) - s.monotonicNsAtAnchor;
    && delta > since && delta >= 0
    && (s.bootIdAtAnchor.Some? && r.boot.Some? ==> s.bootIdAtAnchor == r.boot)
    && (s.blockHeightAtAnchor.Some? && r.height.Some? ==>
          Max(r.height.value - s.blockHeightAtAnchor.value, 0) * SECONDS_PER_BLOCK * NS_PER_SECOND > since)
    && (s.wallUnixNsAtAnchor.Some? && r.wall.Some? ==> 0 <= r.wall.value - s.wallUnixNsAtAnchor.value <= delta)
    && s.windowElapsedNs + since < U64_MAX
  }

  /** One observation ages the window by more than the time since the last exactly then. */
  lemma AgesTooFastIff(s: CoreState, r: Reading, since: nat)
    requires s.initialized
    ensures Advanced(s, r).windowElapsedNs - s.windowElapsedNs > since <==> RunsAhead(s, r, since)
  {
    StepElapsedCases(s, DurationAsNs(r.mono), r.boot, r.height, r.wall);
    hide StepElapsed;
  }

  /** A step outruns true time exactly when it overruns. */
  lemma OverrunsIff(s: System, st: Step)
    requires ClockOrdered(s)
    ensures var s' := Next(s, st);
            s'.core.windowElapsedNs - s.core.windowElapsedNs > s'.anchorAt - s.anchorAt <==> Overruns(s, st)
  {
    hide Advanced, RunsAhead, Next, Validate;
    StepAges(s, st);
    if Observes(st) {
      if s.core.initialized {
        AgesTooFastIff(s.core, ReadingOf(s, st), s.now - s.anchorAt);
      } else {
        AdvancedAges(s.core, ReadingOf(s, st));
      }
    }
  }

  // --- Pruning -------------------------------------------------------------

  lemma {:induction false} LiveDistinct(rows: seq<BookedSpend>, start: u64)
    requires RowsDistinct(rows)
    ensures RowsDistinct(Live(rows, start))
  {
    if rows != [] {
      var n := |rows| - 1;
      LiveDistinct(rows[..n], start);
      var front := Live(rows[..n], start);
      forall i | 0 <= i < |front| ensures Elements(front[i].inputs) != Elements(rows[n].inputs) {
        assert front[i] in rows[..n];
      }
    }
  }

  lemma {:induction false} StampAtLeast(log: seq<Entry>, key: set<OutPoint>, b: nat, i: nat)
    requires b <= i < |log| && Raises(log[i], key)
    requires forall i, j :: 0 <= i < j < |log| ==> log[i].elapsed <= log[j].elapsed
    ensures StampFrom(log, key, b) >= log[i].elapsed
  {
    var n := |log| - 1;
    if i < n && !Raises(log[n], key) {
      StampAtLeast(log[..n], key, b, i);
    }
  }

  lemma ObservedKeepsLedger(s: System, policy: SpendPolicy, r: Reading, window: Duration, limit: nat)
    requires Inv(s, window, limit) && Validate(policy).Ok? && policy.window >= window
    requires Observed(s, policy, r).core.windowElapsedNs >= s.core.windowElapsedNs
    requires s.log != [] ==> s.core.initialized
    ensures var s' := Observed(s, policy, r);
            LedgerAgrees(s') && YoungKept(s', window) && Total(s'.core.bookings) <= limit
  {
    var s' := Observed(s, policy, r);
    var rows, rows', start := s.core.bookings, s'.core.bookings, s'.core.windowStartElapsedNs;
    assert rows' == Live(rows, start);
    LiveDistinct(rows, start);
    LiveTotal(rows, start);
    forall i | 0 <= i < |rows'|
      ensures RowFromLog(s'.log, rows'[i]) && RowInLimits(rows'[i]) && NoDuplicates(rows'[i].inputs)
      ensures start <= rows'[i].elapsedAtNs <= s'.core.windowElapsedNs
    {
      assert rows'[i] in rows';
    }
    forall i | 0 <= i < |s'.log| && s'.log[i].extra > 0
               && s'.log[i].elapsed + window >= s'.core.windowElapsedNs
      ensures Covered(s'.log, rows', i)
    {
      assert Covered(s.log, rows, i);
      var key := Key(s.log[i]);
      var j :| 0 <= j < |rows| && Elements(rows[j].inputs) == key;
      StampAtLeast(s.log, key, Birth(s.log, key), i);
      assert rows[j] in rows && rows[j].elapsedAtNs >= start;
      assert rows[j] in rows';
    }
  }

  // --- Booking -------------------------------------------------------------

  /** A booking for another set leaves what history says of this one untouched. */
  lemma {:induction false} OtherKeyUnchanged(log: seq<Entry>, e: Entry, key: set<OutPoint>, b: nat)
    requires Key(e) != key
    ensures Birth(log + [e], key) == Birth(log, key)
    ensures MaxFrom(log + [e], key, b) == MaxFrom(log, key, b)
    ensures SumFrom(log + [e], key, b) == SumFrom(log, key, b)
    ensures StampFrom(log + [e], key, b) == StampFrom(log, key, b)
  {
    assert (log + [e])[..|log|] == log;
  }

  lemma {:induction false} SameKeyExtended(log: seq<Entry>, e: Entry, b: nat)
    requires b <= |log|
    ensures Birth(log + [e], Key(e)) == if e.opensRow then |log| else Birth(log, Key(e))
    ensures MaxFrom(log + [e], Key(e), b) == Max(MaxFrom(log, Key(e), b), e.charge)
    ensures SumFrom(log + [e], Key(e), b) == SumFrom(log, Key(e), b) + e.extra
    ensures StampFrom(log + [e], Key(e), b)
            == if e.opensRow || e.extra > 0 then e.elapsed else StampFrom(log, Key(e), b)
  {
    assert (log + [e])[..|log|] == log;
  }

  /** `FindRow` finds the row of exactly this set of outpoints, if there is one. */
  lemma {:induction false} FindRowByKey(rows: seq<BookedSpend>, inputs: InputSet)
    requires RowsWellFormed(rows)
    ensures forall i :: 0 <= i < |rows| ==>
              (Elements(rows[i].inputs) == Elements(inputs) <==> FindRow(rows, inputs) == Some(i))
  {
    forall i | 0 <= i < |rows|
      ensures SameInputs(rows[i].inputs, inputs) <==> Elements(rows[i].inputs) == Elements(inputs)
    {
      SameInputsIsSetEquality(rows[i].inputs, inputs);
    }
  }

  lemma KeptRowFromLog(log: seq<Entry>, e: Entry, row: BookedSpend, row': BookedSpend)
    requires RowFromLog(log, row) && row'.inputs == row.inputs
    requires Key(e) != Elements(row.inputs) ==> row' == row
    requires Key(e) == Elements(row.inputs) ==>
               && !e.opensRow && e.extra == SatSub(e.charge, row.amountSat)
               && row'.amountSat == Max(row.amountSat, e.charge)
               && row'.elapsedAtNs == if e.extra > 0 then e.elapsed else row.elapsedAtNs
    ensures RowFromLog(log + [e], row')
  {
    var key := Elements(row.inputs);
    if key != Key(e) {
      OtherKeyUnchanged(log, e, key, Birth(log, key));
    } else {
      SameKeyExtended(log, e, Birth(log, key));
    }
    hide Birth, MaxFrom, SumFrom, StampFrom;
  }

  lemma BookedRowFromLog(s: System, a: SpendApproval, i: nat)
    requires RowsWellFormed(s.core.bookings)
    requires forall j :: 0 <= j < |s.core.bookings| ==> RowFromLog(s.log, s.core.bookings[j])
    requires i < |Booked(s, a).core.bookings|
    ensures RowFromLog(Booked(s, a).log, Booked(s, a).core.bookings[i])
  {
    var s' := Booked(s, a);
    var rows, row', e := s.core.bookings, s'.core.bookings[i], s'.log[|s.log|];
    FindRowByKey(rows, a.inputSet);
    if i == |rows| {
      SameKeyExtended(s.log, e, |s.log|);
    } else {
      hide RowFromLog, RowsWellFormed;
      KeptRowFromLog(s.log, e, rows[i], row');
    }
  }

  lemma BookedRowsWellFormed(s: System, a: SpendApproval)
    requires RowsWellFormed(s.core.bookings) && 1 <= |a.inputSet| <= MAX_INPUTS
    ensures RowsWellFormed(Booked(s, a).core.bookings)
  {
    FindRowByKey(s.core.bookings, a.inputSet);
    SortedHasNoDuplicates(a.inputSet);
  }

  lemma BookedKeepsRows(s: System, a: SpendApproval)
    requires LedgerAgrees(s) && 1 <= |a.inputSet| <= MAX_INPUTS
    requires s.core.windowStartElapsedNs <= s.core.windowElapsedNs
    ensures LedgerAgrees(Booked(s, a))
  {
    hide RowFromLog, RowsWellFormed;
    BookedRowsWellFormed(s, a);
    forall i | 0 <= i < |Booked(s, a).core.bookings|
      ensures RowFromLog(Booked(s, a).log, Booked(s, a).core.bookings[i])
    {
      BookedRowFromLog(s, a, i);
    }
  }

  lemma {:induction false} BirthBound(log: seq<Entry>, key: set<OutPoint>)
    ensures Birth(log, key) <= |log|
  {
    if log != [] {
      BirthBound(log[..|log| - 1], key);
    }
  }

  lemma BookedRows(s: System, a: SpendApproval)
    requires RowsWellFormed(s.core.bookings)
    requires FindRow(s.core.bookings, a.inputSet).Some? || |s.core.bookings| < MAX_BOOKINGS
    ensures var rows, rows' := s.core.bookings, Booked(s, a).core.bookings;
            && |rows| <= |rows'|
            && (forall i :: 0 <= i < |rows| ==> rows'[i].inputs == rows[i].inputs)
            && exists j :: 0 <= j < |rows'| && Elements(rows'[j].inputs) == Elements(a.inputSet)
  {
    var rows, rows' := s.core.bookings, Booked(s, a).core.bookings;
    FindRowByKey(rows, a.inputSet);
    var j := FindRow(rows, a.inputSet).GetOr(|rows|);
    if FindRow(rows, a.inputSet).Some? {
      SameInputsIsSetEquality(rows[j].inputs, a.inputSet);
    }
    assert Elements(rows'[j].inputs) == Elements(a.inputSet);
  }

  lemma OldEntryCovered(s: System, a: SpendApproval, i: nat)
    requires RowsWellFormed(s.core.bookings) && i < |s.log|
    requires FindRow(s.core.bookings, a.inputSet).Some? || |s.core.bookings| < MAX_BOOKINGS
    requires Covered(s.log, s.core.bookings, i)
    ensures Covered(Booked(s, a).log, Booked(s, a).core.bookings, i)
  {
    var s' := Booked(s, a);
    var rows, e, key := s.core.bookings, s'.log[|s.log|], Key(s.log[i]);
    FindRowByKey(rows, a.inputSet);
    BookedRows(s, a);
    OtherOrSameBirth(s.log, e, key);
    hide RowsWellFormed, FindRow, Birth, Committed;
    var j :| 0 <= j < |rows| && Elements(rows[j].inputs) == key;
    assert Elements(s'.core.bookings[j].inputs) == key;
  }

  lemma {:induction false} OtherOrSameBirth(log: seq<Entry>, e: Entry, key: set<OutPoint>)
    ensures Key(e) != key || !e.opensRow ==> Birth(log + [e], key) == Birth(log, key)
    ensures Birth(log + [e], key) <= |log|
  {
    assert (log + [e])[..|log|] == log;
    BirthBound(log, key);
  }

  lemma BookedKeepsYoung(s: System, a: SpendApproval, window: Duration)
    requires RowsWellFormed(s.core.bookings) && YoungKept(s, window)
    requires FindRow(s.core.bookings, a.inputSet).Some? || |s.core.bookings| < MAX_BOOKINGS
    ensures YoungKept(Booked(s, a), window)
  {
    var s' := Booked(s, a);
    BookedRows(s, a);
    OtherOrSameBirth(s.log, s'.log[|s.log|], Elements(a.inputSet));
    ClockUntouched(s.core, window, a);
    hide Birth, RowsWellFormed, FindRow, Committed;
    forall i | 0 <= i < |s'.log| && s'.log[i].extra > 0
               && s'.log[i].elapsed + window >= s'.core.windowElapsedNs
      ensures Covered(s'.log, s'.core.bookings, i)
    {
      if i < |s.log| {
        OldEntryCovered(s, a, i);
      }
    }
  }

  // --- Every run -----------------------------------------------------------

  lemma ObservedClock(s: System, st: Step)
    requires ClockOrdered(s) && Observes(st)
    ensures ClockOrdered(Observed(s, st.policy, ReadingOf(s, st)))
  {
    hide Advanced, Pruned, Validate;
    StepAges(s, st.(signed := false));
  }

  lemma BookedClock(s: System, a: SpendApproval)
    requires ClockOrdered(s) && s.core.initialized && s.anchorAt == s.now
    ensures ClockOrdered(Booked(s, a))
  {
  }

  lemma NextKeepsInv(s: System, st: Step, window: Duration, limit: nat)
    requires Inv(s, window, limit) && Admissible(st, window, limit)
    ensures Inv(Next(s, st), window, limit)
  {
    hide Advanced, Live, Committed, RowsWellFormed, RowFromLog, Covered, Allowance;
    if Observes(st) {
      StepAges(s, st.(signed := false));
      ObservedClock(s, st);
      var r := ReadingOf(s, st);
      ObservedKeepsLedger(s, st.policy, r, window, limit);
      var s' := Observed(s, st.policy, r);
      var decision := Authorized(s.core, st.policy, st.reference, st.charge, st.inputs, r).1;
      if decision.Ok? && st.signed {
        CommitAddsExtra(s'.core, st.policy, st.reference, st.charge, st.inputs);
        BookedClock(s', decision.value);
        BookedKeepsRows(s', decision.value);
        BookedKeepsYoung(s', decision.value, window);
      }
    }
  }

  predicate AllAdmissible(steps: seq<Step>, window: Duration, limit: nat) {
    forall i :: 0 <= i < |steps| ==> Admissible(steps[i], window, limit)
  }

  lemma {:induction false} RunKeepsInv(now: nat, mono: Duration, steps: seq<Step>, window: Duration, limit: nat)
    requires AllAdmissible(steps, window, limit)
    ensures Inv(Run(Start(now, mono), steps), window, limit)
  {
    if steps != [] {
      var n := |steps| - 1;
      RunKeepsInv(now, mono, steps[..n], window, limit);
      NextKeepsInv(Run(Start(now, mono), steps[..n]), steps[n], window, limit);
    }
  }

  lemma NextKeepsOrder(s: System, st: Step)
    requires ClockOrdered(s)
    ensures ClockOrdered(Next(s, st))
  {
    hide Advanced, Pruned, Committed, Validate;
    if Observes(st) {
      ObservedClock(s, st);
      StepAges(s, st.(signed := false));
      var r := ReadingOf(s, st);
      var decision := Authorized(s.core, st.policy, st.reference, st.charge, st.inputs, r).1;
      if decision.Ok? && st.signed {
        BookedClock(Observed(s, st.policy, r), decision.value);
      }
    }
  }

  lemma {:induction false} RunKeepsOrder(now: nat, mono: Duration, steps: seq<Step>)
    ensures ClockOrdered(Run(Start(now, mono), steps))
  {
    hide ClockOrdered, Next;
    if steps != [] {
      var n := |steps| - 1;
      RunKeepsOrder(now, mono, steps[..n]);
      NextKeepsOrder(Run(Start(now, mono), steps[..n]), steps[n]);
    } else {
      StartOrdered(now, mono);
    }
  }

  lemma StartOrdered(now: nat, mono: Duration)
    ensures ClockOrdered(Start(now, mono))
  {
  }

  /** No observation of the run overruns true time. */
  ghost predicate NeverOverruns(now: nat, mono: Duration, steps: seq<Step>) {
    forall i :: 0 <= i < |steps| ==> !OverrunsAt(now, mono, steps, i)
  }

  predicate OverrunsAt(now: nat, mono: Duration, steps: seq<Step>, i: nat)
    requires i < |steps|
  {
    Overruns(Run(Start(now, mono), steps[..i]), steps[i])
  }

  lemma NeverBefore(now: nat, mono: Duration, steps: seq<Step>, n: nat)
    requires NeverOverruns(now, mono, steps) && n <= |steps|
    ensures NeverOverruns(now, mono, steps[..n])
    ensures n < |steps| ==> !Overruns(Run(Start(now, mono), steps[..n]), steps[n])
  {
    hide Run, Overruns;
    forall i | 0 <= i < n ensures !OverrunsAt(now, mono, steps[..n], i) {
      assert !OverrunsAt(now, mono, steps, i);
      assert steps[..n][..i] == steps[..i];
    }
    if n < |steps| {
      assert !OverrunsAt(now, mono, steps, n);
    }
  }

  lemma BookingsLag(s: System, st: Step)
    requires ClockOrdered(s) && ClockLags(s) && !Overruns(s, st)
    ensures ClockLags(Next(s, st))
  {
    OverrunsIff(s, st);
    StepAges(s, st);
    LogGrows(s, st);
    hide Next, Overruns, Observes;
  }

  /** A step appends at most one booking, made at the time and window time it leaves behind. */
  lemma LogGrows(s: System, st: Step)
    requires ClockOrdered(s)
    ensures var s' := Next(s, st);
            || s'.log == s.log
            || (&& s'.log == s.log + [s'.log[|s.log|]] && |s'.log| == |s.log| + 1
                && s'.log[|s.log|].at == s'.anchorAt && s'.log[|s.log|].elapsed == s'.core.windowElapsedNs)
  {
    hide Advanced, Pruned, Committed, Validate, Decision, ClockOrdered;
    if Observes(st) {
      var r := ReadingOf(s, st);
      var decision := Authorized(s.core, st.policy, st.reference, st.charge, st.inputs, r).1;
      if decision.Ok? {
        ClockUntouched(Observed(s, st.policy, r).core, st.policy.window, decision.value);
      }
    }
  }

  lemma {:induction false} RunLags(now: nat, mono: Duration, steps: seq<Step>)
    requires NeverOverruns(now, mono, steps)
    ensures ClockLags(Run(Start(now, mono), steps))
  {
    hide ClockLags, Next, Overruns, NeverOverruns;
    if steps != [] {
      var n := |steps| - 1;
      NeverBefore(now, mono, steps, n);
      RunLags(now, mono, steps[..n]);
      RunKeepsOrder(now, mono, steps[..n]);
      BookingsLag(Run(Start(now, mono), steps[..n]), steps[n]);
    } else {
      StartLags(now, mono);
    }
  }

  lemma StartLags(now: nat, mono: Duration)
    ensures ClockLags(Start(now, mono))
  {
  }

  /** The window never ages faster than reality in a run that never overruns: between any two
      moments its elapsed time grows by at most the true time between the observations they
      stand on. In any run at all it never falls. */
  lemma {:induction false} WindowNeverOutrunsTime(now: nat, mono: Duration, steps: seq<Step>, earlier: nat)
    requires earlier <= |steps|
    ensures var s, s' := Run(Start(now, mono), steps[..earlier]), Run(Start(now, mono), steps);
            && s.anchorAt <= s'.anchorAt
            && s.core.windowElapsedNs <= s'.core.windowElapsedNs
            && (NeverOverruns(now, mono, steps) ==>
                  s'.core.windowElapsedNs - s.core.windowElapsedNs <= s'.anchorAt - s.anchorAt)
    decreases |steps|
  {
    hide Next, Overruns, NeverOverruns;
    if earlier < |steps| {
      var n := |steps| - 1;
      WindowNeverOutrunsTime(now, mono, steps[..n], earlier);
      assert steps[..n][..earlier] == steps[..earlier];
      RunKeepsOrder(now, mono, steps[..n]);
      StepAges(Run(Start(now, mono), steps[..n]), steps[n]);
      OverrunsIff(Run(Start(now, mono), steps[..n]), steps[n]);
      if NeverOverruns(now, mono, steps) {
        NeverBefore(now, mono, steps, n);
      }
    } else {
      assert steps[..earlier] == steps;
    }
  }

  /** And exactly then: a run in which no step outruns true time is one that never overruns. */
  lemma NeverOverrunsIff(now: nat, mono: Duration, steps: seq<Step>)
    ensures NeverOverruns(now, mono, steps)
            <==> forall i :: 0 <= i < |steps| ==> !Outruns(now, mono, steps, i)
  {
    hide Run, Next, Overruns;
    forall i | 0 <= i < |steps| ensures OverrunsAt(now, mono, steps, i) <==> Outruns(now, mono, steps, i) {
      RunKeepsOrder(now, mono, steps[..i]);
      OverrunsIff(Run(Start(now, mono), steps[..i]), steps[i]);
    }
  }

  predicate Outruns(now: nat, mono: Duration, steps: seq<Step>, i: nat)
    requires i < |steps|
  {
    var s := Run(Start(now, mono), steps[..i]);
    var s' := Next(s, steps[i]);
    s'.core.windowElapsedNs - s.core.windowElapsedNs > s'.anchorAt - s.anchorAt
  }

  // --- The bound -----------------------------------------------------------

  function RowsSum(log: seq<Entry>, rows: seq<BookedSpend>, births: seq<nat>): nat
    requires |rows| == |births|
  {
    if rows == [] then 0
    else
      var n := |rows| - 1;
      RowsSum(log, rows[..n], births[..n]) + SumFrom(log, Elements(rows[n].inputs), births[n])
  }

  /** Each booking counts at least once towards a row that covers it. */
  lemma {:induction false} RowsSumGrows(log: seq<Entry>, rows: seq<BookedSpend>, births: seq<nat>)
    requires |rows| == |births| && log != []
    ensures var n := |log| - 1;
            && RowsSum(log[..n], rows, births) <= RowsSum(log, rows, births)
            && (forall j :: 0 <= j < |rows| && births[j] <= n && Elements(rows[j].inputs) == Key(log[n]) ==>
                  RowsSum(log[..n], rows, births) + log[n].extra <= RowsSum(log, rows, births))
  {
    if rows != [] {
      var k := |rows| - 1;
      RowsSumGrows(log, rows[..k], births[..k]);
    }
  }

  lemma {:induction false} SpentWithinRows(log: seq<Entry>, rows: seq<BookedSpend>, births: seq<nat>, from: nat,
                                           to: nat)
    requires |rows| == |births|
    requires forall i :: 0 <= i < |log| && from <= log[i].at <= to && log[i].extra > 0 ==>
               exists j :: 0 <= j < |rows| && births[j] <= i && Elements(rows[j].inputs) == Key(log[i])
    ensures SpentBetween(log, from, to) <= RowsSum(log, rows, births)
  {
    if log != [] {
      SpentWithinRows(log[..|log| - 1], rows, births, from, to);
      RowsSumGrows(log, rows, births);
    }
  }

  lemma {:induction false} TotalIsRowsSum(log: seq<Entry>, rows: seq<BookedSpend>, births: seq<nat>)
    requires |rows| == |births|
    requires forall j :: 0 <= j < |rows| ==> rows[j].amountSat == SumFrom(log, Elements(rows[j].inputs), births[j])
    ensures Total(rows) == RowsSum(log, rows, births)
  {
    if rows != [] {
      TotalIsRowsSum(log, rows[..|rows| - 1], births[..|rows| - 1]);
    }
  }

  /** Just after a booking, everything spent within the last window is still in the rows. */
  lemma RecentWithinTotal(s: System, window: Duration, limit: nat, from: nat)
    requires Inv(s, window, limit) && ClockLags(s) && s.anchorAt <= from + window
    ensures SpentBetween(s.log, from, from + window) <= Total(s.core.bookings)
  {
    hide Birth, MaxFrom, SumFrom, StampFrom, Total, RowsSum, SpentBetween;
    var rows := s.core.bookings;
    var births := seq(|rows|, j requires 0 <= j < |rows| => Birth(s.log, Elements(rows[j].inputs)));
    TotalIsRowsSum(s.log, rows, births);
    forall i | 0 <= i < |s.log| && from <= s.log[i].at <= from + window && s.log[i].extra > 0
      ensures exists j :: 0 <= j < |rows| && births[j] <= i && Elements(rows[j].inputs) == Key(s.log[i])
    {
      assert Covered(s.log, rows, i);
    }
    SpentWithinRows(s.log, rows, births, from, from + window);
  }

  lemma {:induction false} SpentBeforeAppend(log: seq<Entry>, e: Entry, from: nat, to: nat)
    ensures SpentBetween(log + [e], from, to)
            == SpentBetween(log, from, to) + if from <= e.at <= to then e.extra else 0
  {
    assert (log + [e])[..|log|] == log;
  }

  /** The limit holds over every window-long interval of true time, in every run of approved
      and rejected spends, reboots, passphrase changes and reopenings that never overruns. */
  lemma {:induction false} SpendingIsBounded(now: nat, mono: Duration, steps: seq<Step>,
                                             window: Duration, limit: nat, from: nat)
    requires AllAdmissible(steps, window, limit) && NeverOverruns(now, mono, steps)
    ensures SpentBetween(Run(Start(now, mono), steps).log, from, from + window) <= limit
    decreases |steps|
  {
    hide Next, NeverOverruns, ClockLags, Inv;
    if steps != [] {
      var n := |steps| - 1;
      var s, s' := Run(Start(now, mono), steps[..n]), Run(Start(now, mono), steps);
      NeverBefore(now, mono, steps, n);
      SpendingIsBounded(now, mono, steps[..n], window, limit, from);
      RunKeepsInv(now, mono, steps, window, limit);
      InvBounds(s', window, limit);
      RunLags(now, mono, steps);
      RunKeepsOrder(now, mono, steps[..n]);
      LogGrows(s, steps[n]);
      if s'.log != s.log {
        SpentBeforeAppend(s.log, s'.log[|s.log|], from, from + window);
        if from <= s'.log[|s.log|].at <= from + window {
          RecentWithinTotal(s', window, limit, from);
        }
      }
    }
  }

  lemma InvBounds(s: System, window: Duration, limit: nat)
    requires Inv(s, window, limit)
    ensures Total(s.core.bookings) <= limit
  {
  }

  lemma {:induction false} MaxFromMeaning(log: seq<Entry>, key: set<OutPoint>, b: nat)
    ensures forall i :: b <= i < |log| && Key(log[i]) == key ==> log[i].charge <= MaxFrom(log, key, b)
    ensures MaxFrom(log, key, b) > 0 || (exists i :: b <= i < |log| && Key(log[i]) == key) ==>
              exists i :: b <= i < |log| && Key(log[i]) == key && log[i].charge == MaxFrom(log, key, b)
  {
    if |log| > b {
      var n := |log| - 1;
      MaxFromMeaning(log[..n], key, b);
      if MaxFrom(log, key, b) == MaxFrom(log[..n], key, b) && (exists i :: b <= i < n && Key(log[..n][i]) == key) {
        var i :| b <= i < n && Key(log[..n][i]) == key && log[..n][i].charge == MaxFrom(log[..n], key, b);
        assert log[i].charge == MaxFrom(log, key, b);
      }
    }
  }

  lemma {:induction false} NoneOpensAfterBirth(log: seq<Entry>, key: set<OutPoint>)
    ensures forall i :: Birth(log, key) < i < |log| && Key(log[i]) == key ==> !log[i].opensRow
  {
    if log != [] {
      NoneOpensAfterBirth(log[..|log| - 1], key);
    }
  }

  /** The entry of history that opened the row, and the charges committed for its inputs since. */
  ghost predicate HoldsLargest(log: seq<Entry>, row: BookedSpend, b: nat) {
    var key := Elements(row.inputs);
    && b < |log| && log[b].opensRow && Key(log[b]) == key
    && (forall i :: b < i < |log| && Key(log[i]) == key ==> !log[i].opensRow)
    && (forall i :: b <= i < |log| && Key(log[i]) == key ==> log[i].charge <= row.amountSat)
    && (exists i :: b <= i < |log| && Key(log[i]) == key && log[i].charge == row.amountSat)
  }

  lemma {:induction false} RowHoldsLargest(log: seq<Entry>, row: BookedSpend)
    requires RowFromLog(log, row)
    ensures HoldsLargest(log, row, Birth(log, Elements(row.inputs)))
  {
    var key := Elements(row.inputs);
    MaxFromMeaning(log, key, Birth(log, key));
    NoneOpensAfterBirth(log, key);
    hide Birth, MaxFrom, SumFrom, StampFrom;
  }

  /** The pruned, merged ledger is the history it came from: rows have pairwise different input
      sets, each holds the largest charge committed for exactly its inputs since it was opened,
      and every increment younger than the window is on a row opened no later. */
  lemma {:induction false} LedgerIsHistory(now: nat, mono: Duration, steps: seq<Step>, window: Duration, limit: nat)
    requires AllAdmissible(steps, window, limit)
    ensures RowsDistinct(Run(Start(now, mono), steps).core.bookings)
    ensures var s := Run(Start(now, mono), steps);
            forall i :: 0 <= i < |s.core.bookings| ==>
              HoldsLargest(s.log, s.core.bookings[i], Birth(s.log, Elements(s.core.bookings[i].inputs)))
    ensures YoungKept(Run(Start(now, mono), steps), window)
  {
    hide Run, RowFromLog, HoldsLargest;
    RunKeepsInv(now, mono, steps, window, limit);
    var s := Run(Start(now, mono), steps);
    assert RowsDistinct(s.core.bookings) && YoungKept(s, window);
    forall i | 0 <= i < |s.core.bookings|
      ensures HoldsLargest(s.log, s.core.bookings[i], Birth(s.log, Elements(s.core.bookings[i].inputs)))
    {
      RowHoldsLargest(s.log, s.core.bookings[i]);
    }
  }

  /** Every reachable counter state is within the encoder's limits, so sealing it never fails
      and reopening it gives the state the run continues from. */
  lemma {:induction false} ReachableSealsAndReopens(now: nat, mono: Duration, steps: seq<Step>, c: Aead, kek: Bytes,
                                                    nonce: Bytes)
    requires AllAdmissible(steps, 0, U64_MAX)
    requires Lawful(c) && |nonce| == NONCE_LEN
    ensures var s := Run(Start(now, mono), steps).core;
            && InLimits(s)
            && Encrypted(c, kek, nonce, s).Ok?
            && Decrypted(c, kek, Encrypted(c, kek, nonce, s).value)
               == Ok(Next(Run(Start(now, mono), steps), Reopen).core)
  {
    hide Run, Inv, Encrypted, Decrypted, Lawful, InLimits, Normalise;
    RunKeepsInv(now, mono, steps, 0, U64_MAX);
    InvWithinLimits(Run(Start(now, mono), steps), 0, U64_MAX);
    OpenAfterSeal(c, kek, nonce, Run(Start(now, mono), steps).core);
  }

  lemma InvWithinLimits(s: System, window: Duration, limit: nat)
    requires Inv(s, window, limit)
    ensures InLimits(s.core)
  {
    forall b | b in s.core.bookings ensures RowInLimits(b) {
      var i :| 0 <= i < |s.core.bookings| && s.core.bookings[i] == b;
    }
  }
}
