/** What may be signed within one window, and not only newly booked: a replacement that charges no
    more than its row adds nothing and does not restamp it, so the row expires with its first
    booking. The largest charges signed for different input sets then total up to twice the limit,
    and never more. */
module WindowSigned {
  import opened Machine
  import opened Bitcoin
  import opened InputSets
  import opened Limits
  import opened StateCodec
  import opened Window
  import opened WindowRuns
  import opened WindowClock

  predicate Within(e: Entry, from: nat, to: nat) {
    from <= e.at <= to
  }

  /** The largest charge signed for the set at true times within `[from, to]`. */
  function Largest(log: seq<Entry>, key: set<OutPoint>, from: nat, to: nat): nat {
    if log == [] then 0
    else
      var n := |log| - 1;
      Max(Largest(log[..n], key, from, to), if Key(log[n]) == key && Within(log[n], from, to) then log[n].charge else 0)
  }

  function SumLargest(log: seq<Entry>, keys: seq<set<OutPoint>>, from: nat, to: nat): nat {
    if keys == [] then 0
    else SumLargest(log, keys[..|keys| - 1], from, to) + Largest(log, keys[|keys| - 1], from, to)
  }

  predicate Different(keys: seq<set<OutPoint>>) {
    forall i, j :: 0 <= i < j < |keys| ==> keys[i] != keys[j]
  }

  // --- What was added, set by set ------------------------------------------

  /** Sats newly booked for the set within `[from, to]`. */
  function Added(log: seq<Entry>, key: set<OutPoint>, from: nat, to: nat): nat {
    if log == [] then 0
    else
      var n := |log| - 1;
      Added(log[..n], key, from, to) + if Key(log[n]) == key && Within(log[n], from, to) then log[n].extra else 0
  }

  function SumAdded(log: seq<Entry>, keys: seq<set<OutPoint>>, from: nat, to: nat): nat {
    if keys == [] then 0
    else SumAdded(log, keys[..|keys| - 1], from, to) + Added(log, keys[|keys| - 1], from, to)
  }

  lemma {:induction false} SumAddedStep(log: seq<Entry>, keys: seq<set<OutPoint>>, from: nat, to: nat)
    requires log != [] && Different(keys)
    ensures var e := log[|log| - 1];
            SumAdded(log, keys, from, to)
            == SumAdded(log[..|log| - 1], keys, from, to) + if Key(e) in keys && Within(e, from, to) then e.extra else 0
    decreases |keys|
  {
    if keys != [] {
      var k := |keys| - 1;
      SumAddedStep(log, keys[..k], from, to);
      assert keys == keys[..k] + [keys[k]];
    }
  }

  lemma {:induction false} NothingAdded(keys: seq<set<OutPoint>>, from: nat, to: nat)
    ensures SumAdded([], keys, from, to) == 0
  {
    if keys != [] {
      NothingAdded(keys[..|keys| - 1], from, to);
    }
  }

  /** Every booking counts for at most one of the sets. */
  lemma {:induction false} AddedWithinSpent(log: seq<Entry>, keys: seq<set<OutPoint>>, from: nat, to: nat)
    requires Different(keys)
    ensures SumAdded(log, keys, from, to) <= SpentBetween(log, from, to)
    decreases |log|
  {
    if log == [] {
      NothingAdded(keys, from, to);
    } else {
      SumAddedStep(log, keys, from, to);
      AddedWithinSpent(log[..|log| - 1], keys, from, to);
    }
  }

  // --- What the rows hold, set by set --------------------------------------

  function AmountFor(rows: seq<BookedSpend>, key: set<OutPoint>): nat {
    if rows == [] then 0
    else
      var n := |rows| - 1;
      AmountFor(rows[..n], key) + if Elements(rows[n].inputs) == key then rows[n].amountSat else 0
  }

  function SumFor(rows: seq<BookedSpend>, keys: seq<set<OutPoint>>): nat {
    if keys == [] then 0 else SumFor(rows, keys[..|keys| - 1]) + AmountFor(rows, keys[|keys| - 1])
  }

  lemma {:induction false} SumForStep(rows: seq<BookedSpend>, keys: seq<set<OutPoint>>)
    requires rows != [] && Different(keys)
    ensures var row := rows[|rows| - 1];
            SumFor(rows, keys)
            == SumFor(rows[..|rows| - 1], keys) + if Elements(row.inputs) in keys then row.amountSat else 0
    decreases |keys|
  {
    if keys != [] {
      var k := |keys| - 1;
      SumForStep(rows, keys[..k]);
      assert keys == keys[..k] + [keys[k]];
    }
  }

  lemma {:induction false} NothingHeld(keys: seq<set<OutPoint>>)
    ensures SumFor([], keys) == 0
  {
    if keys != [] {
      NothingHeld(keys[..|keys| - 1]);
    }
  }

  lemma {:induction false} HeldWithinTotal(rows: seq<BookedSpend>, keys: seq<set<OutPoint>>)
    requires Different(keys)
    ensures SumFor(rows, keys) <= Total(rows)
    decreases |rows|
  {
    if rows == [] {
      NothingHeld(keys);
    } else {
      SumForStep(rows, keys);
      HeldWithinTotal(rows[..|rows| - 1], keys);
    }
  }

  lemma {:induction false} LiveAmount(rows: seq<BookedSpend>, start: u64, key: set<OutPoint>)
    ensures AmountFor(Live(rows, start), key) <= AmountFor(rows, key)
  {
    if rows != [] {
      var n := |rows| - 1;
      LiveAmount(rows[..n], start, key);
      var front := Live(rows[..n], start);
      assert (front + [rows[n]])[..|front|] == front;
    }
  }

  lemma {:induction false} AmountUpdate(rows: seq<BookedSpend>, i: nat, row: BookedSpend, key: set<OutPoint>)
    requires i < |rows| && row.inputs == rows[i].inputs
    ensures AmountFor(rows[i := row], key)
            == AmountFor(rows, key) + if Elements(row.inputs) == key then row.amountSat - rows[i].amountSat else 0
    ensures Elements(row.inputs) == key ==> row.amountSat <= AmountFor(rows[i := row], key)
  {
    var n := |rows| - 1;
    if i < n {
      assert rows[i := row][..n] == rows[..n][i := row];
      AmountUpdate(rows[..n], i, row, key);
    } else {
      assert rows[i := row][..n] == rows[..n];
    }
  }

  lemma {:induction false} AmountAppend(rows: seq<BookedSpend>, row: BookedSpend, key: set<OutPoint>)
    ensures AmountFor(rows + [row], key)
            == AmountFor(rows, key) + if Elements(row.inputs) == key then row.amountSat else 0
  {
    assert (rows + [row])[..|rows|] == rows;
  }

  /** A booking raises what is held for its set by at most what it adds, and covers its charge. */
  lemma {:induction false} CommittedAmounts(s: CoreState, a: SpendApproval, key: set<OutPoint>)
    requires RowsWellFormed(s.bookings)
    requires FindRow(s.bookings, a.inputSet).Some? || |s.bookings| < MAX_BOOKINGS
    ensures var rows, rows' := s.bookings, Committed(s, a).bookings;
            var extra := if Elements(a.inputSet) == key then ExtraAgainst(rows, a.inputSet, a.chargeSat) else 0;
            && AmountFor(rows', key) <= AmountFor(rows, key) + extra
            && (Elements(a.inputSet) == key ==> a.chargeSat <= AmountFor(rows', key))
  {
    var rows := s.bookings;
    FindRowByKey(rows, a.inputSet);
    hide AmountFor, Elements, RowsWellFormed;
    match FindRow(rows, a.inputSet)
    case Some(i) =>
      AmountUpdate(rows, i, rows[i], key);
      assert rows[i := rows[i]] == rows;
      AmountUpdate(rows, i, rows[i].(amountSat := a.chargeSat, elapsedAtNs := s.windowElapsedNs), key);
    case None =>
      AmountAppend(rows, BookedSpend(a.inputSet, a.chargeSat, s.windowElapsedNs), key);
  }

  // --- The ledger as the interval opens ------------------------------------

  /** The rows as they stood when true time reached `from`. */
  function Opening(now: nat, mono: Duration, steps: seq<Step>, from: nat): seq<BookedSpend> {
    if steps == [] then []
    else if Run(Start(now, mono), steps).now < from then Run(Start(now, mono), steps).core.bookings
    else Opening(now, mono, steps[..|steps| - 1], from)
  }

  lemma {:induction false} OpeningWithinLimit(now: nat, mono: Duration, steps: seq<Step>, window: Duration, limit: nat,
                                              from: nat)
    requires AllAdmissible(steps, window, limit)
    ensures Total(Opening(now, mono, steps, from)) <= limit
    decreases |steps|
  {
    hide Run, Inv;
    if steps != [] {
      RunKeepsInv(now, mono, steps, window, limit);
      InvBounds(Run(Start(now, mono), steps), window, limit);
      OpeningWithinLimit(now, mono, steps[..|steps| - 1], window, limit, from);
    }
  }

  /** While the interval lasts a set's row holds at most what it held as the interval opened and
      what was added since; and so the largest charge signed for it is at most that, for good. */
  predicate Accounted(s: System, opening: seq<BookedSpend>, key: set<OutPoint>, from: nat, to: nat) {
    var bound := AmountFor(opening, key) + Added(s.log, key, from, to);
    && (s.now <= to ==> AmountFor(s.core.bookings, key) <= bound)
    && Largest(s.log, key, from, to) <= bound
  }

  lemma {:induction false} LogAppend(log: seq<Entry>, e: Entry, key: set<OutPoint>, from: nat, to: nat)
    ensures Largest(log + [e], key, from, to)
            == Max(Largest(log, key, from, to), if Key(e) == key && Within(e, from, to) then e.charge else 0)
    ensures Added(log + [e], key, from, to)
            == Added(log, key, from, to) + if Key(e) == key && Within(e, from, to) then e.extra else 0
  {
    assert (log + [e])[..|log|] == log;
  }

  lemma {:induction false} NoneWithin(log: seq<Entry>, key: set<OutPoint>, from: nat, to: nat)
    requires forall i :: 0 <= i < |log| ==> log[i].at < from
    ensures Largest(log, key, from, to) == 0 && Added(log, key, from, to) == 0
  {
    if log != [] {
      NoneWithin(log[..|log| - 1], key, from, to);
    }
  }

  lemma ObservedAccounted(s: System, st: Step, opening: seq<BookedSpend>, key: set<OutPoint>, from: nat, to: nat)
    requires Accounted(s, opening, key, from, to) && Observes(st)
    ensures Accounted(Observed(s, st.policy, ReadingOf(s, st)), opening, key, from, to)
  {
    var r := ReadingOf(s, st);
    AdvancedAges(s.core, r);
    var seen := Advanced(s.core, r);
    LiveAmount(seen.bookings, SatSub(seen.windowElapsedNs, DurationAsNs(st.policy.window)), key);
    hide Advanced, AmountFor, Added, Largest, Live;
  }

  lemma BookedAccounted(s: System, a: SpendApproval, opening: seq<BookedSpend>, key: set<OutPoint>, from: nat, to: nat)
    requires Accounted(s, opening, key, from, to) && RowsWellFormed(s.core.bookings) && from <= s.now
    requires FindRow(s.core.bookings, a.inputSet).Some? || |s.core.bookings| < MAX_BOOKINGS
    ensures Accounted(Booked(s, a), opening, key, from, to)
  {
    CommittedAmounts(s.core, a, key);
    var s' := Booked(s, a);
    LogAppend(s.log, s'.log[|s.log|], key, from, to);
    hide AmountFor, Added, Largest, Committed, RowsWellFormed, FindRow, ExtraAgainst, Elements;
  }

  lemma NextAccounted(s: System, st: Step, opening: seq<BookedSpend>, key: set<OutPoint>, from: nat, to: nat,
                      window: Duration, limit: nat)
    requires Inv(s, window, limit) && Admissible(st, window, limit)
    requires Accounted(s, opening, key, from, to) && from <= s.now
    ensures Accounted(Next(s, st), opening, key, from, to)
  {
    hide Accounted, Inv, Advanced, Pruned, Committed, FindRow, Decision, RowsWellFormed, Allowance, Validate;
    if Observes(st) {
      ObservedAccounted(s, st, opening, key, from, to);
      var r := ReadingOf(s, st);
      var s' := Observed(s, st.policy, r);
      var decision := Authorized(s.core, st.policy, st.reference, st.charge, st.inputs, r).1;
      if decision.Ok? && st.signed {
        NextKeepsInv(s, st.(signed := false), window, limit);
        InvRows(s', window, limit);
        ApprovedRoom(s'.core, st);
        BookedAccounted(s', decision.value, opening, key, from, to);
      }
    } else {
      QuietAccounted(s, st, opening, key, from, to);
    }
  }

  lemma InvRows(s: System, window: Duration, limit: nat)
    requires Inv(s, window, limit)
    ensures RowsWellFormed(s.core.bookings)
  {
  }

  lemma ApprovedRoom(s: CoreState, st: Step)
    requires st.SignAb? && Decision(s, st.policy, st.reference, st.charge, st.inputs).Ok?
    ensures var a := Decision(s, st.policy, st.reference, st.charge, st.inputs).value;
            FindRow(s.bookings, a.inputSet).Some? || |s.bookings| < MAX_BOOKINGS
  {
    hide FindRow, BookedSat, Allowance;
  }

  /** A step that books nothing and prunes nothing. */
  lemma QuietAccounted(s: System, st: Step, opening: seq<BookedSpend>, key: set<OutPoint>, from: nat, to: nat)
    requires Accounted(s, opening, key, from, to) && !Observes(st)
    ensures Accounted(Next(s, st), opening, key, from, to)
  {
    hide AmountFor, Added, Largest, Validate, Advanced, Decision;
  }

  lemma {:induction false} RunAccounted(now: nat, mono: Duration, steps: seq<Step>, window: Duration, limit: nat,
                                        key: set<OutPoint>, from: nat, to: nat)
    requires AllAdmissible(steps, window, limit) && from <= to
    ensures Accounted(Run(Start(now, mono), steps), Opening(now, mono, steps, from), key, from, to)
    decreases |steps|
  {
    hide Next, Inv, ClockOrdered, AmountFor, Added, Largest;
    var s := Run(Start(now, mono), steps);
    RunKeepsOrder(now, mono, steps);
    if s.now < from {
      LogBefore(s);
      NoneWithin(s.log, key, from, to);
      if steps == [] {
        StartEmpty(now, mono, key, from, to);
      }
    } else if steps == [] {
      StartEmpty(now, mono, key, from, to);
    } else {
      var n := |steps| - 1;
      var before := Run(Start(now, mono), steps[..n]);
      RunAccounted(now, mono, steps[..n], window, limit, key, from, to);
      RunKeepsInv(now, mono, steps[..n], window, limit);
      if before.now < from {
        CrossesByTick(before, steps[n]);
        QuietAccounted(before, steps[n], Opening(now, mono, steps, from), key, from, to);
      } else {
        hide Accounted;
        NextAccounted(before, steps[n], Opening(now, mono, steps, from), key, from, to, window, limit);
      }
    }
  }

  lemma LogBefore(s: System)
    requires ClockOrdered(s)
    ensures forall i :: 0 <= i < |s.log| ==> s.log[i].at <= s.now
  {
  }

  lemma {:induction false} StartEmpty(now: nat, mono: Duration, key: set<OutPoint>, from: nat, to: nat)
    ensures AmountFor(Start(now, mono).core.bookings, key) == 0 && AmountFor([], key) == 0
    ensures Largest(Start(now, mono).log, key, from, to) == 0
  {
  }

  lemma CrossesByTick(s: System, st: Step)
    requires Next(s, st).now != s.now
    ensures !Observes(st)
  {
    hide Advanced, Pruned, Committed, Decision, Validate;
  }

  // --- The bound -----------------------------------------------------------

  lemma {:induction false} SumAccounted(log: seq<Entry>, opening: seq<BookedSpend>, keys: seq<set<OutPoint>>, from: nat,
                                        to: nat)
    requires forall i :: 0 <= i < |keys| ==>
               Largest(log, keys[i], from, to) <= AmountFor(opening, keys[i]) + Added(log, keys[i], from, to)
    ensures SumLargest(log, keys, from, to) <= SumFor(opening, keys) + SumAdded(log, keys, from, to)
    decreases |keys|
  {
    hide Largest, AmountFor, Added;
    if keys != [] {
      SumAccounted(log, opening, keys[..|keys| - 1], from, to);
    }
  }

  /** However many replacements a run signs, the largest charges it signs for different input sets
      within one window-long interval of true time total at most twice the limit. */
  lemma SignedWithinTwice(now: nat, mono: Duration, steps: seq<Step>, window: Duration, limit: nat, from: nat,
                          keys: seq<set<OutPoint>>)
    requires AllAdmissible(steps, window, limit) && NeverOverruns(now, mono, steps) && Different(keys)
    ensures SumLargest(Run(Start(now, mono), steps).log, keys, from, from + window) <= 2 * limit
  {
    hide Run, Opening, AllAdmissible, NeverOverruns, Largest, AmountFor, Added, SumLargest, SumFor, SumAdded, Total,
         SpentBetween, Different;
    var s, opening, to := Run(Start(now, mono), steps), Opening(now, mono, steps, from), from + window;
    forall i | 0 <= i < |keys|
      ensures Largest(s.log, keys[i], from, to) <= AmountFor(opening, keys[i]) + Added(s.log, keys[i], from, to)
    {
      RunAccounted(now, mono, steps, window, limit, keys[i], from, to);
    }
    SumAccounted(s.log, opening, keys, from, to);
    HeldWithinTotal(opening, keys);
    OpeningWithinLimit(now, mono, steps, window, limit, from);
    AddedWithinSpent(s.log, keys, from, to);
    SpendingIsBounded(now, mono, steps, window, limit, from);
  }

  // --- A run that attains it -----------------------------------------------

  /** A clock reading with nothing else reported. */
  function Bare(mono: Duration): Reading {
    Reading(mono, None, None, None)
  }

  /** Spend the whole allowance, sign it again just before the window ends, and spend it on another
      coin as soon as the first booking has expired. */
  function ReplaceThenSpend(policy: SpendPolicy, reference: u64, first: OutPoint, second: OutPoint): seq<Step> {
    [SetPassphrase(true), Spend(policy, reference, first, Bare(0)), Tick(policy.window, policy.window),
     Spend(policy, reference, first, Bare(0)), Tick(1, 1), Spend(policy, reference, second, Bare(0))]
  }

  lemma {:induction false} SixSteps(s: System, a: Step, b: Step, c: Step, d: Step, e: Step, f: Step)
    ensures Run(s, [a, b, c, d, e, f]) == Next(Next(Next(Next(Next(Next(s, a), b), c), d), e), f)
  {
    hide Next;
    FourSteps(s, a, b, c, d);
    assert [a, b, c, d, e][..4] == [a, b, c, d] && [a, b, c, d, e, f][..5] == [a, b, c, d, e];
    assert Run(s, [a, b, c, d, e]) == Next(Run(s, [a, b, c, d]), e);
  }

  /** A counter under bare readings. */
  function BareState(anchor: u64, elapsed: u64, start: u64, rows: seq<BookedSpend>): CoreState {
    CoreState.CoreState(true, anchor, None, None, None, elapsed, start, true, rows)
  }

  /** The counter after the replacement: its row is still stamped with the first booking. */
  function Replaced(now: nat, mono: Duration, amount: u64, coin: OutPoint, window: u64): System
    requires mono + window <= U64_MAX
  {
    System(BareState(mono + window, window, 0, [BookedSpend([coin], amount, 0)]),
           now + window, mono + window, now + window,
           [Entry(now, 0, [coin], amount, amount, true), Entry(now + window, window, [coin], amount, 0, false)])
  }

  /** An approved spend books on the observed counter. */
  lemma SpendBooks(s: System, policy: SpendPolicy, reference: u64, coin: OutPoint, seen: CoreState)
    requires Validate(policy).Ok?
    requires Pruned(Advanced(s.core, Reading(s.mono, None, None, None)), policy.window) == seen
    requires Decision(seen, policy, reference, Ok(Allowance(policy, reference)), Ok([coin]))
             == Ok(SpendApproval([coin], Allowance(policy, reference)))
    ensures Next(s, Spend(policy, reference, coin, Bare(0)))
            == Booked(s.(core := seen, anchorAt := s.now), SpendApproval([coin], Allowance(policy, reference)))
  {
    hide Validate, Allowance, Advanced, Pruned, Decision, Booked;
  }

  /** The one row of the ledger as a later observation finds it. */
  lemma SeenLater(amount: u64, coin: OutPoint, anchor: u64, elapsed: u64, start: u64, later: u64, window: Duration)
    requires anchor + later <= U64_MAX && elapsed + later <= U64_MAX && window <= U64_MAX
    ensures var s := BareState(anchor, elapsed, start, [BookedSpend([coin], amount, 0)]);
            Pruned(Advanced(s, Reading(anchor + later, None, None, None)), window)
            == BareState(anchor + later, elapsed + later, SatSub(elapsed + later, window),
                          if elapsed + later <= window then [BookedSpend([coin], amount, 0)] else [])
  {
    var row := BookedSpend([coin], amount, 0);
    OneRow(row, SatSub(elapsed + later, window), [coin]);
    hide Live, FindRow, BookedSat;
  }

  lemma Replacement(now: nat, mono: Duration, policy: SpendPolicy, reference: u64, coin: OutPoint)
    requires Validate(policy).Ok? && Allowance(policy, reference) > 0 && mono + policy.window <= U64_MAX
    ensures var spent := SpentOnce(now, Allowance(policy, reference), coin, Bare(mono));
            Next(Next(spent, Tick(policy.window, policy.window)), Spend(policy, reference, coin, Bare(0)))
            == Replaced(now, mono, Allowance(policy, reference), coin, policy.window)
  {
    hide Validate, Allowance, Advanced, Pruned, Decision, FindRow, ExtraAgainst, Committed, Authorized;
    var amount := Allowance(policy, reference);
    var spent, replaced := SpentOnce(now, amount, coin, Bare(mono)), Replaced(now, mono, amount, coin, policy.window);
    var s := spent.(now := now + policy.window, mono := mono + policy.window);
    assert Next(spent, Tick(policy.window, policy.window)) == s;
    hide Next;
    SeenLater(amount, coin, mono, 0, 0, policy.window, policy.window);
    RowFound(replaced.core, policy, reference, coin);
    SpendBooks(s, policy, reference, coin, replaced.core);
  }

  /** The row is found, so the same charge again is approved and books nothing. */
  lemma RowFound(s: CoreState, policy: SpendPolicy, reference: u64, coin: OutPoint)
    requires s.passphraseUsedSinceInstall && s.bookings == [BookedSpend([coin], Allowance(policy, reference), 0)]
    ensures var a := SpendApproval([coin], Allowance(policy, reference));
            && Decision(s, policy, reference, Ok(a.chargeSat), Ok([coin])) == Ok(a)
            && Committed(s, a) == s && FindRow(s.bookings, a.inputSet) == Some(0)
            && ExtraAgainst(s.bookings, a.inputSet, a.chargeSat) == 0
  {
    hide Allowance;
    var row := s.bookings[0];
    OneRow(row, 0, [coin]);
    assert SameInputs(row.inputs, [coin]);
    hide SameInputs, FindRow, BookedSat;
  }

  /** Nothing is booked, so the whole allowance is approved and booked. */
  lemma NothingBooked(s: CoreState, policy: SpendPolicy, reference: u64, coin: OutPoint)
    requires s.passphraseUsedSinceInstall && s.bookings == []
    ensures var a := SpendApproval([coin], Allowance(policy, reference));
            && Decision(s, policy, reference, Ok(a.chargeSat), Ok([coin])) == Ok(a)
            && FindRow(s.bookings, a.inputSet) == None
            && ExtraAgainst(s.bookings, a.inputSet, a.chargeSat) == a.chargeSat
  {
    hide Allowance;
  }

  lemma ExpiredThenSpent(now: nat, mono: Duration, policy: SpendPolicy, reference: u64, first: OutPoint,
                         second: OutPoint)
    requires Validate(policy).Ok? && Allowance(policy, reference) > 0 && mono + policy.window < U64_MAX
    ensures var amount := Allowance(policy, reference);
            var s := Replaced(now, mono, amount, first, policy.window);
            Next(Next(s, Tick(1, 1)), Spend(policy, reference, second, Bare(0))).log
            == s.log + [Entry(now + policy.window + 1, policy.window + 1, [second], amount, amount, true)]
  {
    var amount := Allowance(policy, reference);
    var replaced := Replaced(now, mono, amount, first, policy.window);
    var s := replaced.(now := now + policy.window + 1, mono := mono + policy.window + 1);
    assert Next(replaced, Tick(1, 1)) == s;
    hide Validate, Allowance, Next;
    SeenLater(amount, first, mono + policy.window, policy.window, 0, 1, policy.window);
    var seen := Pruned(Advanced(s.core, Reading(s.mono, None, None, None)), policy.window);
    hide Advanced, Pruned;
    NothingBooked(seen, policy, reference, second);
    hide Decision, FindRow, ExtraAgainst, Committed;
    SpendBooks(s, policy, reference, second, seen);
  }

  lemma {:induction false} LargestOfThree(a: Entry, b: Entry, c: Entry, key: set<OutPoint>, from: nat, to: nat)
    ensures Largest([a, b, c], key, from, to)
            == Max(Max(if Key(a) == key && Within(a, from, to) then a.charge else 0,
                       if Key(b) == key && Within(b, from, to) then b.charge else 0),
                   if Key(c) == key && Within(c, from, to) then c.charge else 0)
  {
    assert [a, b, c] == [a, b] + [c] && [a, b] == [a] + [b] && [a] == [] + [a];
    LogAppend([], a, key, from, to);
    LogAppend([a], b, key, from, to);
    LogAppend([a, b], c, key, from, to);
    assert Largest([], key, from, to) == 0;
    hide Largest, Added, Key, Within;
  }

  lemma {:induction false} SumOfTwo(log: seq<Entry>, k: set<OutPoint>, l: set<OutPoint>, from: nat, to: nat)
    ensures SumLargest(log, [k, l], from, to) == Largest(log, k, from, to) + Largest(log, l, from, to)
  {
    hide Largest;
    assert [k, l][..1] == [k] && [k][..0] == [];
    assert SumLargest(log, [k], from, to) == Largest(log, k, from, to);
  }

  lemma BothLargest(a: Entry, b: Entry, c: Entry, first: OutPoint, second: OutPoint, from: nat, to: nat)
    requires first != second && Key(a) == Key(b) == {first} && Key(c) == {second}
    requires Within(b, from, to) && Within(c, from, to) && a.charge <= b.charge
    ensures Different([{first}, {second}])
    ensures SumLargest([a, b, c], [{first}, {second}], from, to) == b.charge + c.charge
  {
    assert {first} != {second} by { assert first in {first} && first !in {second}; }
    LargestOfThree(a, b, c, {first}, from, to);
    LargestOfThree(a, b, c, {second}, from, to);
    SumOfTwo([a, b, c], {first}, {second}, from, to);
    hide Largest, SumLargest, Key, Within;
  }

  lemma ReplaceThenSpendLog(now: nat, mono: Duration, policy: SpendPolicy, reference: u64, first: OutPoint,
                            second: OutPoint)
    requires Validate(policy).Ok? && Allowance(policy, reference) > 0 && mono + policy.window < U64_MAX
    ensures var amount, w := Allowance(policy, reference), policy.window;
            Run(Start(now, mono), ReplaceThenSpend(policy, reference, first, second)).log
            == [Entry(now, 0, [first], amount, amount, true), Entry(now + w, w, [first], amount, 0, false),
                Entry(now + w + 1, w + 1, [second], amount, amount, true)]
  {
    hide Validate, Allowance, Run, Next;
    var w := policy.window;
    SixSteps(Start(now, mono), SetPassphrase(true), Spend(policy, reference, first, Bare(0)), Tick(w, w),
             Spend(policy, reference, first, Bare(0)), Tick(1, 1), Spend(policy, reference, second, Bare(0)));
    assert Spend(policy, reference, first, Bare(0)) == Spend(policy, reference, first, Bare(mono));
    hide Spend, SpentOnce;
    FirstSpend(now, policy, reference, first, Bare(mono));
    Replacement(now, mono, policy, reference, first);
    ExpiredThenSpent(now, mono, policy, reference, first, second);
  }

  lemma ReplaceThenSpendLawful(now: nat, mono: Duration, policy: SpendPolicy, reference: u64, first: OutPoint,
                               second: OutPoint)
    ensures var steps := ReplaceThenSpend(policy, reference, first, second);
            && AllAdmissible(steps, policy.window, Allowance(policy, reference))
            && TicksLawful(steps) && RestartsBehind(now, mono, steps)
  {
    hide Validate, Allowance, Run;
  }

  /** Twice the limit is attained, under a perfect clock: the replacement and the spend on the other
      coin are one nanosecond of true time apart. */
  lemma TwiceIsAttained(now: nat, mono: Duration, policy: SpendPolicy, reference: u64, first: OutPoint,
                        second: OutPoint)
    requires Validate(policy).Ok? && Allowance(policy, reference) > 0 && first != second
    requires mono + policy.window < U64_MAX
    ensures var steps, from := ReplaceThenSpend(policy, reference, first, second), now + policy.window;
            && AllAdmissible(steps, policy.window, Allowance(policy, reference)) && NeverOverruns(now, mono, steps)
            && Different([{first}, {second}])
            && SumLargest(Run(Start(now, mono), steps).log, [{first}, {second}], from, from + policy.window)
               == 2 * Allowance(policy, reference)
  {
    var steps := ReplaceThenSpend(policy, reference, first, second);
    var amount, w := Allowance(policy, reference), policy.window;
    assert w >= MIN_WINDOW;
    ReplaceThenSpendLawful(now, mono, policy, reference, first, second);
    ReplaceThenSpendLog(now, mono, policy, reference, first, second);
    var a, b, c := Entry(now, 0, [first], amount, amount, true), Entry(now + w, w, [first], amount, 0, false),
                   Entry(now + w + 1, w + 1, [second], amount, amount, true);
    assert Key(a) == Key(b) == {first} && Key(c) == {second};
    assert Within(b, now + w, now + w + w) && Within(c, now + w, now + w + w);
    hide *;
    RestartsBehindNeverOverrun(now, mono, steps);
    BothLargest(a, b, c, first, second, now + w, now + w + w);
  }
}
