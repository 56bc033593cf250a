/** The sliding spend window as functions of its state: clock step, pruning, approval, booking. */
module Window {
  import opened Machine
  import opened Errors
  import opened InputSets
  import opened Limits
  import opened StateCodec

  const SECONDS_PER_BLOCK: nat := 24 * 60 * 60 / 144

  /** What one observation reports: the monotonic clock with an optional boot id, the chain
      tip if reachable, and the wall clock if supplied. */
  datatype Reading = Reading(mono: Duration, boot: Option<u64>, height: Option<u32>, wall: Option<u64>)

  datatype SpendApproval = SpendApproval(inputSet: InputSet, chargeSat: u64)

  // --- Elapsed time --------------------------------------------------------

  predicate MonoTrusted(prev: CoreState, nowMonoNs: u64, nowBoot: Option<u64>) {
    var sameBoot :=
      if prev.bootIdAtAnchor.Some? && nowBoot.Some?
      then prev.bootIdAtAnchor.value == nowBoot.value
      else nowMonoNs >= prev.monotonicNsAtAnchor;
    sameBoot && !(nowMonoNs < prev.monotonicNsAtAnchor)
  }

  function BlockProgress(prev: Option<u32>, now: Option<u32>): Option<Duration> {
    if prev.None? || now.None? then None
    else if now.value >= prev.value
    then Some(Min((now.value - prev.value) * SECONDS_PER_BLOCK, U64_MAX) * NS_PER_SECOND)
    else Some(0)
  }

  /** Combine monotonic time and block height; the wall clock is a veto only. */
  function StepElapsed(prev: CoreState, nowMonoNs: u64, nowBoot: Option<u64>,
                       nowHeight: Option<u32>, nowWall: Option<u64>): Duration {
    var trusted := MonoTrusted(prev, nowMonoNs, nowBoot);
    var mono: Option<Duration> := if trusted then Some(nowMonoNs - prev.monotonicNsAtAnchor) else None;
    var blocks := BlockProgress(prev.blockHeightAtAnchor, nowHeight);
    var fromSources :=
      match (mono, blocks)
      case (Some(m), Some(b)) => Min(m, b)
      case (Some(m), None) => m
      case (None, _) => 0;
    ApplyWallVeto(fromSources, trusted, mono, prev.wallUnixNsAtAnchor, nowWall)
  }

  function ApplyWallVeto(fromSources: Duration, monoTrusted: bool, mono: Option<Duration>,
                         prevWall: Option<u64>, nowWall: Option<u64>): Duration {
    if !monoTrusted || prevWall.None? || nowWall.None? then fromSources
    else if nowWall.value < prevWall.value then 0
    else if nowWall.value - prevWall.value > DurationAsNs(mono.GetOr(0)) then 0
    else fromSources
  }

  function Advanced(s: CoreState, r: Reading): CoreState {
    var nowMonoNs := DurationAsNs(r.mono);
    if !s.initialized then
      s.(initialized := true,
         monotonicNsAtAnchor := nowMonoNs,
         blockHeightAtAnchor := r.height,
         bootIdAtAnchor := r.boot,
         wallUnixNsAtAnchor := r.wall,
         windowElapsedNs := 0,
         windowStartElapsedNs := 0)
    else
      var step := StepElapsed(s, nowMonoNs, r.boot, r.height, r.wall);
      s.(windowElapsedNs := SatAdd(s.windowElapsedNs, DurationAsNs(step)),
         monotonicNsAtAnchor := nowMonoNs,
         blockHeightAtAnchor := if r.height.Some? then r.height else s.blockHeightAtAnchor,
         bootIdAtAnchor := if r.boot.Some? then r.boot else s.bootIdAtAnchor,
         wallUnixNsAtAnchor := if r.wall.Some? then r.wall else s.wallUnixNsAtAnchor)
  }

  /** An untrusted monotonic reading never ages the window, and neither does a wall clock that
      ran backwards or ahead of the monotonic one; otherwise the step is the monotonic
      progress, braked by the blocks seen when both tips are known. */
  lemma StepElapsedCases(prev: CoreState, nowMonoNs: u64, nowBoot: Option<u64>,
                         nowHeight: Option<u32>, nowWall: Option<u64>)
    ensures var step := StepElapsed(prev, nowMonoNs, nowBoot, nowHeight, nowWall);
            var delta := nowMonoNs - prev.monotonicNsAtAnchor;
            var wallDelta := nowWall.GetOr(0) - prev.wallUnixNsAtAnchor.GetOr(0);
            var bothBoots := prev.bootIdAtAnchor.Some? && nowBoot.Some?;
            var bothWalls := prev.wallUnixNsAtAnchor.Some? && nowWall.Some?;
            var bothTips := prev.blockHeightAtAnchor.Some? && nowHeight.Some?;
            && (step > 0 ==> delta >= step)
            && (bothBoots && prev.bootIdAtAnchor != nowBoot ==> step == 0)
            && (bothWalls && (wallDelta < 0 || wallDelta > delta) ==> step == 0)
            && (delta >= 0 && (bothBoots ==> prev.bootIdAtAnchor == nowBoot)
                && (bothWalls ==> 0 <= wallDelta <= delta) ==>
                  step == if bothTips
                          then Min(delta, Max(nowHeight.value - prev.blockHeightAtAnchor.value, 0)
                                          * SECONDS_PER_BLOCK * NS_PER_SECOND)
                          else delta)
  {
  }

  // --- The ledger ----------------------------------------------------------

  /** `retain`: the rows still inside the window, in order. */
  function Live(bookings: seq<BookedSpend>, start: u64): (r: seq<BookedSpend>)
    ensures forall b :: b in r <==> b in bookings && b.elapsedAtNs >= start
    ensures |r| <= |bookings|
  {
    if bookings == [] then []
    else
      var n := |bookings| - 1;
      var front := Live(bookings[..n], start);
      assert bookings == bookings[..n] + [bookings[n]];
      if bookings[n].elapsedAtNs >= start then front + [bookings[n]] else front
  }

  function Pruned(s: CoreState, window: Duration): CoreState {
    var start := SatSub(s.windowElapsedNs, DurationAsNs(window));
    s.(windowStartElapsedNs := start, bookings := Live(s.bookings, start))
  }

  function BookedSat(bookings: seq<BookedSpend>): u64 {
    if bookings == [] then 0
    else SatAdd(BookedSat(bookings[..|bookings| - 1]), bookings[|bookings| - 1].amountSat)
  }

  /** Index of the first row with exactly these inputs. */
  function FindRow(bookings: seq<BookedSpend>, inputs: InputSet): (r: Option<nat>)
    ensures r.Some? ==> r.value < |bookings| && SameInputs(bookings[r.value].inputs, inputs)
    ensures r.Some? ==> forall i :: 0 <= i < r.value ==> !SameInputs(bookings[i].inputs, inputs)
    ensures r.None? ==> forall i :: 0 <= i < |bookings| ==> !SameInputs(bookings[i].inputs, inputs)
  {
    if bookings == [] then None
    else if SameInputs(bookings[0].inputs, inputs) then Some(0)
    else match FindRow(bookings[1..], inputs)
         case None => None
         case Some(i) => Some(i + 1)
  }

  function ExtraAgainst(bookings: seq<BookedSpend>, inputs: InputSet, charge: u64): u64 {
    match FindRow(bookings, inputs)
    case Some(i) => SatSub(charge, bookings[i].amountSat)
    case None => charge
  }

  /** `authorize`: the clock advances and the ledger is pruned whatever is decided, except
      that an invalid policy is refused before anything moves. */
  function Authorized(s: CoreState, policy: SpendPolicy, reference: u64,
                      charge: Result<u64, SignError>, inputs: Result<InputSet, SignError>,
                      r: Reading): (CoreState, Result<SpendApproval, SignError>) {
    match Validate(policy)
    case Err(e) => (s, Err(e))
    case Ok(_) =>
      var s' := Pruned(Advanced(s, r), policy.window);
      (s', Decision(s', policy, reference, charge, inputs))
  }

  function Decision(s: CoreState, policy: SpendPolicy, reference: u64,
                    charge: Result<u64, SignError>, inputs: Result<InputSet, SignError>)
    : Result<SpendApproval, SignError>
  {
    if !s.passphraseUsedSinceInstall then Err(SpendLimitExceeded)
    else
      var chargeSat :- charge;
      var inputSet :- inputs;
      var remaining := SatSub(Allowance(policy, reference), BookedSat(s.bookings));
      if ExtraAgainst(s.bookings, inputSet, chargeSat) > remaining then Err(SpendLimitExceeded)
      else if FindRow(s.bookings, inputSet).None? && |s.bookings| >= MAX_BOOKINGS then Err(WindowLedgerFull)
      else Ok(SpendApproval(inputSet, chargeSat))
  }

  function Committed(s: CoreState, a: SpendApproval): CoreState {
    match FindRow(s.bookings, a.inputSet)
    case Some(i) =>
      if a.chargeSat > s.bookings[i].amountSat
      then s.(bookings := s.bookings[i := s.bookings[i].(amountSat := a.chargeSat,
                                                         elapsedAtNs := s.windowElapsedNs)])
      else s
    case None =>
      if |s.bookings| < MAX_BOOKINGS
      then s.(bookings := s.bookings + [BookedSpend(a.inputSet, a.chargeSat, s.windowElapsedNs)])
      else s
  }

  // --- Totals --------------------------------------------------------------

  /** The exact sum of the booked amounts. */
  function Total(bookings: seq<BookedSpend>): nat {
    if bookings == [] then 0
    else Total(bookings[..|bookings| - 1]) + bookings[|bookings| - 1].amountSat
  }

  lemma {:induction false} BookedIsTotal(bookings: seq<BookedSpend>)
    ensures BookedSat(bookings) == Min(Total(bookings), U64_MAX)
  {
    if bookings != [] {
      BookedIsTotal(bookings[..|bookings| - 1]);
    }
  }

  lemma {:induction false} TotalUpdate(bookings: seq<BookedSpend>, i: nat, b: BookedSpend)
    requires i < |bookings|
    ensures Total(bookings[i := b]) == Total(bookings) - bookings[i].amountSat + b.amountSat
  {
    var n := |bookings| - 1;
    if i < n {
      assert bookings[i := b][..n] == bookings[..n][i := b];
      TotalUpdate(bookings[..n], i, b);
    } else {
      assert bookings[i := b][..n] == bookings[..n];
    }
  }

  lemma {:induction false} LiveTotal(bookings: seq<BookedSpend>, start: u64)
    ensures Total(Live(bookings, start)) <= Total(bookings)
  {
    if bookings != [] {
      var n := |bookings| - 1;
      LiveTotal(bookings[..n], start);
      var front := Live(bookings[..n], start);
      assert (front + [bookings[n]])[..|front|] == front;
    }
  }

  /** A spend is approved exactly when the passphrase was used, its charge and inputs are known,
      what it adds fits under the allowance together with everything booked (or it adds nothing),
      and there is a row for its inputs or room for one. */
  lemma ApprovedIff(s: CoreState, policy: SpendPolicy, reference: u64,
                    charge: Result<u64, SignError>, inputs: Result<InputSet, SignError>)
    ensures Decision(s, policy, reference, charge, inputs).Ok?
            <==> && s.passphraseUsedSinceInstall && charge.Ok? && inputs.Ok?
                 && var extra := ExtraAgainst(s.bookings, inputs.value, charge.value);
                    && (extra == 0 || Total(s.bookings) + extra <= Allowance(policy, reference))
                    && (FindRow(s.bookings, inputs.value).Some? || |s.bookings| < MAX_BOOKINGS)
  {
    hide Total, BookedSat, Allowance, FindRow;
    BookedIsTotal(s.bookings);
  }

  /** Booking an approved spend raises the total by exactly its extra charge, which fitted
      under the allowance, and never falls into the branch that drops it. */
  lemma CommitAddsExtra(s: CoreState, policy: SpendPolicy, reference: u64,
                        charge: Result<u64, SignError>, inputs: Result<InputSet, SignError>)
    requires Decision(s, policy, reference, charge, inputs).Ok?
    ensures var a := Decision(s, policy, reference, charge, inputs).value;
            var extra := ExtraAgainst(s.bookings, a.inputSet, a.chargeSat);
            var s' := Committed(s, a);
            && Ok(a.chargeSat) == charge && Ok(a.inputSet) == inputs
            && Total(s'.bookings) == Total(s.bookings) + extra
            && (extra > 0 ==> Total(s'.bookings) <= Allowance(policy, reference))
            && FindRow(s'.bookings, a.inputSet).Some?
            && |s'.bookings| <= Max(|s.bookings|, MAX_BOOKINGS)
  {
    var a := Decision(s, policy, reference, charge, inputs).value;
    BookedIsTotal(s.bookings);
    match FindRow(s.bookings, a.inputSet)
    case Some(i) =>
      TotalUpdate(s.bookings, i, s.bookings[i].(amountSat := a.chargeSat, elapsedAtNs := s.windowElapsedNs));
      assert SameInputs(Committed(s, a).bookings[i].inputs, a.inputSet);
    case None =>
      var row := BookedSpend(a.inputSet, a.chargeSat, s.windowElapsedNs);
      assert (s.bookings + [row])[..|s.bookings|] == s.bookings;
      assert SameInputs(Committed(s, a).bookings[|s.bookings|].inputs, a.inputSet);
  }
}
