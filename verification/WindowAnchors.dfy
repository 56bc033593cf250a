/** What an observation leaves behind for the next: the last tip, wall time and boot id reported. So
    the window ages by no more than the chain has grown between two observations, however the
    platform's clock behaves, and the limit holds over any stretch of blocks worth a window. */
module WindowAnchors {
  import opened Machine
  import opened Bitcoin
  import opened Errors
  import opened InputSets
  import opened Limits
  import opened StateCodec
  import opened Window
  import opened WindowRuns

  /** The time a number of blocks is worth, ten minutes each. */
  function BlocksNs(blocks: nat): nat {
    blocks * 600 * 1_000_000_000
  }

  function Grown(tip: u32, tip': u32): nat {
    Max(tip' - tip, 0)
  }

  // --- Two observations in a row -------------------------------------------

  /** An observation leaves its own reading, and the tip, boot id and wall time it reports; what it
      does not report stays as it was reported last. The first one starts the window at zero; none
      touches the ledger. */
  lemma AnchorsMove(s: CoreState, r: Reading)
    ensures var s' := Advanced(s, r);
            && s'.initialized && s'.monotonicNsAtAnchor == DurationAsNs(r.mono)
            && s'.bookings == s.bookings && s'.passphraseUsedSinceInstall == s.passphraseUsedSinceInstall
            && (s.initialized ==> s'.windowStartElapsedNs == s.windowStartElapsedNs)
            && (!s.initialized ==> s'.windowElapsedNs == s'.windowStartElapsedNs == 0)
            && (!s.initialized ==>
                  (s'.blockHeightAtAnchor, s'.bootIdAtAnchor, s'.wallUnixNsAtAnchor) == (r.height, r.boot, r.wall))
            && (r.height.Some? ==> s'.blockHeightAtAnchor == r.height)
            && (r.boot.Some? ==> s'.bootIdAtAnchor == r.boot)
            && (r.wall.Some? ==> s'.wallUnixNsAtAnchor == r.wall)
            && (s.initialized && r.height.None? ==> s'.blockHeightAtAnchor == s.blockHeightAtAnchor)
            && (s.initialized && r.boot.None? ==> s'.bootIdAtAnchor == s.bootIdAtAnchor)
            && (s.initialized && r.wall.None? ==> s'.wallUnixNsAtAnchor == s.wallUnixNsAtAnchor)
  {
    hide StepElapsed;
  }

  /** How far one observation ages a counter with these anchors. */
  lemma AgesWithin(s: CoreState, r: Reading)
    requires s.initialized
    ensures var grows := Advanced(s, r).windowElapsedNs - s.windowElapsedNs;
            var delta := DurationAsNs(r.mono) - s.monotonicNsAtAnchor;
            && 0 <= grows <= Max(delta, 0)
            && (s.blockHeightAtAnchor.Some? && r.height.Some? ==>
                  grows <= BlocksNs(Grown(s.blockHeightAtAnchor.value, r.height.value)))
            && (grows > 0 && s.wallUnixNsAtAnchor.Some? && r.wall.Some? ==>
                  0 <= r.wall.value - s.wallUnixNsAtAnchor.value <= delta)
            && (grows > 0 && s.bootIdAtAnchor.Some? && r.boot.Some? ==> s.bootIdAtAnchor == r.boot)
  {
    StepElapsedCases(s, DurationAsNs(r.mono), r.boot, r.height, r.wall);
    hide StepElapsed;
  }

  /** Between two observations in a row the window ages by at most ten minutes for every block the
      tip grew, by nothing unless the wall clock moved on and no further than the monotonic one, and
      by nothing across different boot ids. */
  lemma ConsecutiveReadings(s: CoreState, first: Reading, second: Reading)
    ensures var s1 := Advanced(s, first);
            var s2 := Advanced(s1, second);
            var grows := s2.windowElapsedNs - s1.windowElapsedNs;
            && 0 <= grows <= Max(DurationAsNs(second.mono) - DurationAsNs(first.mono), 0)
            && (first.height.Some? && second.height.Some? ==>
                  grows <= BlocksNs(Grown(first.height.value, second.height.value)))
            && (grows > 0 && first.wall.Some? && second.wall.Some? ==>
                  0 <= second.wall.value - first.wall.value <= DurationAsNs(second.mono) - DurationAsNs(first.mono))
            && (grows > 0 && first.boot.Some? && second.boot.Some? ==> first.boot == second.boot)
  {
    hide Advanced;
    AnchorsMove(s, first);
    AgesWithin(Advanced(s, first), second);
  }

  // --- Whole runs ----------------------------------------------------------

  /** The last tip reported to an observation of the run. Storage forgets the largest value. */
  function LastTip(steps: seq<Step>): Option<u32> {
    if steps == [] then None
    else
      var n := |steps| - 1;
      if Observes(steps[n]) && steps[n].height.Some? then steps[n].height
      else if steps[n].Reopen? && LastTip(steps[..n]) == Some(U32_MAX) then None
      else LastTip(steps[..n])
  }

  function LastWall(steps: seq<Step>): Option<u64> {
    if steps == [] then None
    else
      var n := |steps| - 1;
      if Observes(steps[n]) && steps[n].wall.Some? then steps[n].wall
      else if steps[n].Reopen? && LastWall(steps[..n]) == Some(U64_MAX) then None
      else LastWall(steps[..n])
  }

  /** The reading of the last observation of the run. */
  function LastMono(now: nat, mono: Duration, steps: seq<Step>): Option<u64> {
    if steps == [] then None
    else
      var n := |steps| - 1;
      if Observes(steps[n]) then Some(DurationAsNs(Run(Start(now, mono), steps[..n]).mono))
      else LastMono(now, mono, steps[..n])
  }

  lemma NextAnchors(s: System, st: Step)
    ensures var s' := Next(s, st).core;
            && (Observes(st) ==>
                  var seen := Advanced(s.core, ReadingOf(s, st));
                  && s'.initialized == seen.initialized && s'.monotonicNsAtAnchor == seen.monotonicNsAtAnchor
                  && s'.blockHeightAtAnchor == seen.blockHeightAtAnchor
                  && s'.wallUnixNsAtAnchor == seen.wallUnixNsAtAnchor)
            && (!Observes(st) && !st.Reopen? ==>
                  && s'.initialized == s.core.initialized && s'.monotonicNsAtAnchor == s.core.monotonicNsAtAnchor
                  && s'.blockHeightAtAnchor == s.core.blockHeightAtAnchor
                  && s'.wallUnixNsAtAnchor == s.core.wallUnixNsAtAnchor)
            && (st.Reopen? ==>
                  && s'.initialized == s.core.initialized && s'.monotonicNsAtAnchor == s.core.monotonicNsAtAnchor
                  && s'.blockHeightAtAnchor
                     == (if s.core.blockHeightAtAnchor == Some(U32_MAX) then None else s.core.blockHeightAtAnchor)
                  && s'.wallUnixNsAtAnchor
                     == (if s.core.wallUnixNsAtAnchor == Some(U64_MAX) then None else s.core.wallUnixNsAtAnchor))
  {
    hide Advanced, Live, FindRow, Validate, Decision;
  }

  /** In every run the counter's anchors are what was reported last. */
  lemma {:induction false} AnchorsAreLast(now: nat, mono: Duration, steps: seq<Step>)
    ensures var s := Run(Start(now, mono), steps).core;
            && s.blockHeightAtAnchor == LastTip(steps) && s.wallUnixNsAtAnchor == LastWall(steps)
            && (s.initialized <==> LastMono(now, mono, steps).Some?)
            && (s.initialized ==> Some(s.monotonicNsAtAnchor) == LastMono(now, mono, steps))
            && (!s.initialized ==> LastTip(steps) == None && LastWall(steps) == None)
    decreases |steps|
  {
    hide Next, Validate, Advanced;
    if steps != [] {
      var n := |steps| - 1;
      var s := Run(Start(now, mono), steps[..n]);
      AnchorsAreLast(now, mono, steps[..n]);
      NextAnchors(s, steps[n]);
      if Observes(steps[n]) {
        AnchorsMove(s.core, ReadingOf(s, steps[n]));
        FirstAnchors(s.core, ReadingOf(s, steps[n]));
      }
    }
  }

  lemma FirstAnchors(s: CoreState, r: Reading)
    requires !s.initialized ==> s.blockHeightAtAnchor == None && s.wallUnixNsAtAnchor == None
    ensures var s' := Advanced(s, r);
            && s'.blockHeightAtAnchor == (if r.height.Some? then r.height else s.blockHeightAtAnchor)
            && s'.wallUnixNsAtAnchor == (if r.wall.Some? then r.wall else s.wallUnixNsAtAnchor)
  {
    hide StepElapsed;
  }

  function ElapsedAt(now: nat, mono: Duration, steps: seq<Step>, n: nat): u64
    requires n <= |steps|
  {
    Run(Start(now, mono), steps[..n]).core.windowElapsedNs
  }

  /** In every run, each observation ages the window by at most ten minutes for every block its tip
      is above the last one reported, and by nothing unless its wall time moved on from the last one
      reported and no further than the monotonic reading did. */
  lemma {:induction false} RunAgesWithin(now: nat, mono: Duration, steps: seq<Step>, i: nat)
    requires i < |steps| && Observes(steps[i])
    ensures var grows := ElapsedAt(now, mono, steps, i + 1) - ElapsedAt(now, mono, steps, i);
            var before, reading := steps[..i], DurationAsNs(Run(Start(now, mono), steps[..i]).mono);
            && grows >= 0
            && (LastTip(before).Some? && steps[i].height.Some? ==>
                  grows <= BlocksNs(Grown(LastTip(before).value, steps[i].height.value)))
            && (grows > 0 ==> LastMono(now, mono, before).Some? && grows <= reading - LastMono(now, mono, before).value)
            && (grows > 0 && LastWall(before).Some? && steps[i].wall.Some? ==>
                  0 <= steps[i].wall.value - LastWall(before).value <= reading - LastMono(now, mono, before).value)
  {
    var s := Run(Start(now, mono), steps[..i]);
    assert steps[..i + 1][..i] == steps[..i];
    assert Run(Start(now, mono), steps[..i + 1]) == Next(s, steps[i]);
    hide Run, Next, Advanced, LastTip, LastWall, LastMono, Validate, Grown, BlocksNs;
    AnchorsAreLast(now, mono, steps[..i]);
    RunKeepsOrder(now, mono, steps[..i]);
    StepAges(s, steps[i]);
    if s.core.initialized {
      AgesWithin(s.core, ReadingOf(s, steps[i]));
    } else {
      FirstIsZero(s, ReadingOf(s, steps[i]));
    }
  }

  lemma FirstIsZero(s: System, r: Reading)
    requires ClockOrdered(s) && !s.core.initialized
    ensures Advanced(s.core, r).windowElapsedNs == s.core.windowElapsedNs == 0
  {
  }

  // --- Blocks --------------------------------------------------------------

  /** Every observation from `n` on reports a tip. */
  ghost predicate TipsReported(steps: seq<Step>, n: nat) {
    forall i :: n <= i < |steps| && Observes(steps[i]) ==> steps[i].height.Some? && steps[i].height != Some(U32_MAX)
  }

  /** The blocks the tip grew by, observation by observation from `n` on. */
  function Climb(steps: seq<Step>, n: nat): nat {
    if |steps| <= n then 0
    else
      var m := |steps| - 1;
      Climb(steps[..m], n)
      + if Observes(steps[m]) && steps[m].height.Some? && LastTip(steps[..m]).Some?
        then Grown(LastTip(steps[..m]).value, steps[m].height.value) else 0
  }

  lemma {:induction false} TipStays(steps: seq<Step>, n: nat)
    requires n <= |steps| && TipsReported(steps, n) && LastTip(steps[..n]).Some? && LastTip(steps[..n]) != Some(U32_MAX)
    ensures LastTip(steps).Some? && LastTip(steps) != Some(U32_MAX)
    decreases |steps|
  {
    hide Observes;
    if n < |steps| {
      var m := |steps| - 1;
      assert steps[..m][..n] == steps[..n];
      TipStays(steps[..m], n);
    } else {
      assert steps[..n] == steps;
    }
  }

  /** Over any part of any run in which every observation reports a tip, the window ages by at most
      ten minutes for every block, whatever the platform's clock does. */
  lemma {:induction false} AgesWithinBlocks(now: nat, mono: Duration, steps: seq<Step>, n: nat)
    requires n <= |steps| && TipsReported(steps, n) && LastTip(steps[..n]).Some? && LastTip(steps[..n]) != Some(U32_MAX)
    ensures ElapsedAt(now, mono, steps, |steps|) - ElapsedAt(now, mono, steps, n) <= BlocksNs(Climb(steps, n))
    decreases |steps|
  {
    hide Next, LastTip, Validate, Grown;
    if n < |steps| {
      var m := |steps| - 1;
      assert steps[..m][..n] == steps[..n] && steps[..|steps|] == steps && steps[..m][..m] == steps[..m];
      AgesWithinBlocks(now, mono, steps[..m], n);
      TipStays(steps[..m], n);
      if Observes(steps[m]) {
        RunAgesWithin(now, mono, steps, m);
      } else {
        RunKeepsOrder(now, mono, steps[..m]);
        StepAges(Run(Start(now, mono), steps[..m]), steps[m]);
      }
    }
  }

  /** Where tips never fall, the blocks climbed are the last tip minus the first. */
  ghost predicate TipsNeverFall(steps: seq<Step>, n: nat) {
    forall i :: n <= i < |steps| && Observes(steps[i]) && steps[i].height.Some? && LastTip(steps[..i]).Some? ==>
      LastTip(steps[..i]).value <= steps[i].height.value
  }

  lemma {:induction false} ClimbIsDifference(steps: seq<Step>, n: nat)
    requires n <= |steps| && TipsReported(steps, n) && LastTip(steps[..n]).Some? && LastTip(steps[..n]) != Some(U32_MAX)
    requires TipsNeverFall(steps, n)
    ensures LastTip(steps).Some? && Climb(steps, n) == LastTip(steps).value - LastTip(steps[..n]).value
    decreases |steps|
  {
    if n < |steps| {
      var m := |steps| - 1;
      assert steps[..m][..n] == steps[..n];
      forall i | n <= i < m ensures steps[..m][..i] == steps[..i] {
      }
      TipStays(steps[..m], n);
      ClimbIsDifference(steps[..m], n);
    } else {
      assert steps[..n] == steps;
    }
  }

  // --- The limit over blocks -----------------------------------------------

  /** Sats newly booked from position `b` of the history on. */
  function BookedFrom(log: seq<Entry>, b: nat): nat {
    if |log| <= b then 0 else BookedFrom(log[..|log| - 1], b) + log[|log| - 1].extra
  }

  lemma {:induction false} BookedWithinRows(log: seq<Entry>, rows: seq<BookedSpend>, births: seq<nat>, b: nat)
    requires |rows| == |births|
    requires forall i :: b <= i < |log| && log[i].extra > 0 ==>
               exists j :: 0 <= j < |rows| && births[j] <= i && Elements(rows[j].inputs) == Key(log[i])
    ensures BookedFrom(log, b) <= RowsSum(log, rows, births)
  {
    if |log| > b {
      BookedWithinRows(log[..|log| - 1], rows, births, b);
      RowsSumGrows(log, rows, births);
    }
  }

  /** While the window has aged by no more than its length since a moment, everything booked since
      is still in the rows. */
  lemma {:induction false} BookedWithinTotal(s: System, window: Duration, limit: nat, b: nat, elapsed: u64)
    requires Inv(s, window, limit) && b <= |s.log| && s.core.windowElapsedNs <= elapsed + window
    requires forall i :: b <= i < |s.log| ==> s.log[i].elapsed >= elapsed
    ensures BookedFrom(s.log, b) <= Total(s.core.bookings)
  {
    hide Birth, MaxFrom, SumFrom, StampFrom, Total, RowsSum, BookedFrom;
    var rows := s.core.bookings;
    var births := seq(|rows|, j requires 0 <= j < |rows| => Birth(s.log, Elements(rows[j].inputs)));
    TotalIsRowsSum(s.log, rows, births);
    forall i | b <= i < |s.log| && s.log[i].extra > 0
      ensures exists j :: 0 <= j < |rows| && births[j] <= i && Elements(rows[j].inputs) == Key(s.log[i])
    {
      assert Covered(s.log, rows, i);
    }
    BookedWithinRows(s.log, rows, births, b);
  }

  /** The history of an earlier moment is the beginning of a later one's, and what came since was
      booked at later window times. */
  lemma {:induction false} HistoryGrows(now: nat, mono: Duration, steps: seq<Step>, n: nat)
    requires n <= |steps|
    ensures var s, s' := Run(Start(now, mono), steps[..n]), Run(Start(now, mono), steps);
            && |s.log| <= |s'.log| && s'.log[..|s.log|] == s.log
            && s.core.windowElapsedNs <= s'.core.windowElapsedNs
            && forall i :: |s.log| <= i < |s'.log| ==> s'.log[i].elapsed >= s.core.windowElapsedNs
    decreases |steps|
  {
    hide Next;
    if n < |steps| {
      var m := |steps| - 1;
      assert steps[..m][..n] == steps[..n];
      HistoryGrows(now, mono, steps[..m], n);
      var before := Run(Start(now, mono), steps[..m]);
      RunKeepsOrder(now, mono, steps[..m]);
      StepAges(before, steps[m]);
      LogGrows(before, steps[m]);
    } else {
      assert steps[..n] == steps;
    }
  }

  /** In any run, under any clock: what is booked from a moment on stays within the limit as long as
      the window ages by no more than its length. */
  lemma {:induction false} BookedWithinLimit(now: nat, mono: Duration, steps: seq<Step>, window: Duration, limit: nat,
                                             n: nat)
    requires AllAdmissible(steps, window, limit) && n <= |steps|
    requires ElapsedAt(now, mono, steps, |steps|) - ElapsedAt(now, mono, steps, n) <= window
    ensures BookedFrom(Run(Start(now, mono), steps).log, |Run(Start(now, mono), steps[..n]).log|) <= limit
  {
    hide Run, Inv;
    assert steps[..|steps|] == steps;
    RunKeepsInv(now, mono, steps, window, limit);
    InvBounds(Run(Start(now, mono), steps), window, limit);
    HistoryGrows(now, mono, steps, n);
    BookedWithinTotal(Run(Start(now, mono), steps), window, limit, |Run(Start(now, mono), steps[..n]).log|,
                      ElapsedAt(now, mono, steps, n));
  }

  /** The limit over blocks: where every call reports a tip, the sats booked while the chain grows by
      no more than a window's worth of blocks stay within the limit, whatever readings, boot ids and
      wall times the platform gives. */
  lemma {:induction false} BookedWithinBlocks(now: nat, mono: Duration, steps: seq<Step>, window: Duration, limit: nat,
                                              n: nat)
    requires AllAdmissible(steps, window, limit) && n <= |steps| && TipsReported(steps, n)
    requires LastTip(steps[..n]).Some? && LastTip(steps[..n]) != Some(U32_MAX)
    requires BlocksNs(Climb(steps, n)) <= window
    ensures BookedFrom(Run(Start(now, mono), steps).log, |Run(Start(now, mono), steps[..n]).log|) <= limit
  {
    hide Run, LastTip, Climb, AllAdmissible, TipsReported, BookedFrom;
    AgesWithinBlocks(now, mono, steps, n);
    BookedWithinLimit(now, mono, steps, window, limit, n);
  }
}
