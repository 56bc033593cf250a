/** The spend policy and the clamp that turns a balance into a window allowance. */
module Limits {
  import opened Machine
  import opened Errors

  const U128_MAX: int := 0xFFFF_FFFF_FFFF_FFFF_FFFF_FFFF_FFFF_FFFF
  const MIN_WINDOW: Duration := 60 * 60 * NS_PER_SECOND
  const MAX_WINDOW: Duration := 7 * 24 * 60 * 60 * NS_PER_SECOND

  /** A fraction whose denominator is never zero. */
  datatype RatioRaw = Ratio(numer: u64, denom: u64)
  type Ratio = r: RatioRaw | r.denom != 0 witness Ratio(1, 5)

  datatype SpendPolicy = SpendPolicy(
    windowFraction: Option<Ratio>,
    windowFloorSat: Option<u64>,
    windowCapSat: Option<u64>,
    window: Duration,
    passphraseOnFirstUse: bool)

  /** `floor(value * numer / denom)` over a saturating 128-bit product, clipped to 64 bits. */
  function Of(r: Ratio, value: u64): u64 {
    Min(Quotient(Min(Product(value, r.numer), U128_MAX), r.denom), U64_MAX)
  }

  function Product(a: nat, b: nat): nat {
    a * b
  }

  function Quotient(n: nat, d: nat): nat
    requires d != 0
  {
    n / d
  }

  function Validate(p: SpendPolicy): Result<SpendPolicy, SignError> {
    if p.windowFloorSat.GetOr(0) > p.windowCapSat.GetOr(U64_MAX) then Err(FloorAboveCap)
    else if !p.passphraseOnFirstUse then Err(InvalidSpendPolicy)
    else if p.windowFraction.Some? && ShareOutOfRange(p.windowFraction.value) then Err(PolicyOutOfRange)
    else if p.window < MIN_WINDOW || p.window > MAX_WINDOW then Err(PolicyOutOfRange)
    else Ok(p)
  }

  predicate ShareOutOfRange(f: Ratio) {
    f.numer == 0 || f.numer > f.denom || Min(f.numer * 100, U64_MAX) < f.denom
  }

  function Allowance(p: SpendPolicy, balanceSat: u64): u64 {
    var byFraction := if p.windowFraction.Some? then Of(p.windowFraction.value, balanceSat) else U64_MAX;
    var floor := p.windowFloorSat.GetOr(0);
    var cap := p.windowCapSat.GetOr(U64_MAX);
    if floor > cap then 0 else Min(Max(floor, Min(byFraction, cap)), balanceSat)
  }

  /** The 128-bit product never saturates, so the share is the exact rounded-down quotient. */
  lemma OfIsFloor(r: Ratio, value: u64)
    ensures Of(r, value) == Min(Quotient(Product(value, r.numer), r.denom), U64_MAX)
    ensures Of(r, value) < U64_MAX ==>
              Of(r, value) * r.denom <= value * r.numer < (Of(r, value) + 1) * r.denom
  {
    MulBound(value, r.numer, U64_MAX, U64_MAX);
    QuotientIsFloor(Product(value, r.numer), r.denom);
  }

  lemma QuotientIsFloor(n: nat, d: nat)
    requires d != 0
    ensures Quotient(n, d) * d <= n < (Quotient(n, d) + 1) * d
  {
  }

  lemma MulBound(a: nat, b: nat, x: nat, y: nat)
    requires a <= x && b <= y
    ensures 0 <= a * b <= x * y
  {
    assert a * b <= x * b <= x * y;
  }

  lemma QuotientMonotone(a: nat, b: nat, d: nat)
    requires a <= b && d != 0
    ensures Quotient(a, d) <= Quotient(b, d)
  {
    QuotientIsFloor(a, d);
    QuotientIsFloor(b, d);
    if Quotient(b, d) < Quotient(a, d) {
      MulBound(Quotient(b, d) + 1, d, Quotient(a, d), d);
    }
  }

  /** A share of at most 100 % never exceeds the value it is taken of. */
  lemma ShareAtMostWhole(r: Ratio, value: u64)
    requires r.numer <= r.denom
    ensures Of(r, value) <= value
  {
    OfIsFloor(r, value);
    QuotientIsFloor(Product(value, r.numer), r.denom);
    if Of(r, value) > value {
      MulBound(value, r.numer, value, r.denom);
      MulBound(value + 1, r.denom, Of(r, value), r.denom);
    }
  }

  /** What the clamp promises: never above the cap nor the balance, at least the floor
      whenever the balance covers it, between floor and cap exactly the share. */
  lemma AllowanceBounds(p: SpendPolicy, balanceSat: u64)
    ensures Allowance(p, balanceSat) <= balanceSat
    ensures Allowance(p, balanceSat) <= p.windowCapSat.GetOr(U64_MAX)
    ensures Validate(p).Ok? ==> Allowance(p, balanceSat) >= Min(p.windowFloorSat.GetOr(0), balanceSat)
    ensures Validate(p).Ok? && p.windowFraction.Some?
            && p.windowFloorSat.GetOr(0) <= Of(p.windowFraction.value, balanceSat) <= p.windowCapSat.GetOr(U64_MAX)
            ==> Allowance(p, balanceSat) == Of(p.windowFraction.value, balanceSat)
  {
    if p.windowFraction.Some? && Validate(p).Ok? {
      ShareAtMostWhole(p.windowFraction.value, balanceSat);
    }
  }

  /** A larger balance never lowers the allowance. */
  lemma AllowanceMonotone(p: SpendPolicy, lesser: u64, greater: u64)
    requires lesser <= greater
    ensures Allowance(p, lesser) <= Allowance(p, greater)
  {
    if p.windowFraction.Some? {
      var f := p.windowFraction.value;
      OfIsFloor(f, lesser);
      OfIsFloor(f, greater);
      MulBound(lesser, f.numer, greater, f.numer);
      QuotientMonotone(Product(lesser, f.numer), Product(greater, f.numer), f.denom);
    }
  }

  /** Accepted policies: floor at most cap, the passphrase asked for on first use, a share from one
      to a hundred percent or none, a window from one hour to seven days. */
  lemma ValidateIff(p: SpendPolicy)
    ensures Validate(p).Ok? <==>
            && (p.windowFloorSat.Some? && p.windowCapSat.Some? ==> p.windowFloorSat.value <= p.windowCapSat.value)
            && p.passphraseOnFirstUse
            && (p.windowFraction.Some? ==> p.windowFraction.value.denom <= 100 * p.windowFraction.value.numer
                                           && p.windowFraction.value.numer <= p.windowFraction.value.denom)
            && 3600 * 1_000_000_000 <= p.window <= 604800 * 1_000_000_000
    ensures Validate(p).Ok? ==> Validate(p).value == p
  {
  }

  /** The order of the refusals: floor above cap, no passphrase, then what is out of range. */
  lemma ValidateRefuses(p: SpendPolicy)
    ensures var crossed := p.windowFloorSat.Some? && p.windowCapSat.Some?
                           && p.windowFloorSat.value > p.windowCapSat.value;
            && (Validate(p) == Err(FloorAboveCap) <==> crossed)
            && (Validate(p) == Err(InvalidSpendPolicy) <==> !crossed && !p.passphraseOnFirstUse)
            && (Validate(p).Err? && !crossed && p.passphraseOnFirstUse ==> Validate(p) == Err(PolicyOutOfRange))
  {
  }

  /** The allowance is the share held between floor and cap, never more than the balance; without a
      share it is the cap, and nothing when the floor is above the cap. */
  lemma AllowanceIs(p: SpendPolicy, balanceSat: u64, floor: u64, cap: u64)
    requires floor == p.windowFloorSat.GetOr(0) && cap == p.windowCapSat.GetOr(U64_MAX)
    ensures floor > cap ==> Allowance(p, balanceSat) == 0
    ensures floor <= cap && p.windowFraction.None? ==> Allowance(p, balanceSat) == Min(cap, balanceSat)
    ensures floor <= cap && p.windowFraction.Some? ==>
              var share := Of(p.windowFraction.value, balanceSat);
              && (share < floor ==> Allowance(p, balanceSat) == Min(floor, balanceSat))
              && (floor <= share <= cap ==> Allowance(p, balanceSat) == Min(share, balanceSat))
              && (cap < share ==> Allowance(p, balanceSat) == Min(cap, balanceSat))
  {
    hide Of;
  }
}
