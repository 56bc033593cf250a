/** Fixed-width integers, saturating arithmetic and the result types shared by every module. */
module Machine {

  const U16_MAX: int := 0xFFFF
  const U32_MAX: int := 0xFFFF_FFFF
  const U64_MAX: int := 0xFFFF_FFFF_FFFF_FFFF

  type u8 = x: int | 0 <= x < 0x100
  type u16 = x: int | 0 <= x <= U16_MAX
  type u32 = x: int | 0 <= x <= U32_MAX
  type u64 = x: int | 0 <= x <= U64_MAX

  datatype Option<+T> = None | Some(value: T) {
    predicate IsFailure() {
      None?
    }
    function PropagateFailure<U>(): Option<U>
      requires None?
    {
      None
    }
    function Extract(): T
      requires Some?
    {
      value
    }
    function GetOr(default: T): T {
      if Some? then value else default
    }
  }

  datatype Result<+T, +E> = Ok(value: T) | Err(error: E) {
    predicate IsFailure() {
      Err?
    }
    function PropagateFailure<U>(): Result<U, E>
      requires Err?
    {
      Err(error)
    }
    function Extract(): T
      requires Ok?
    {
      value
    }
    function MapErr<F>(f: E -> F): Result<T, F> {
      if Ok? then Ok(value) else Err(f(error))
    }
  }

  function Min(a: int, b: int): int {
    if a <= b then a else b
  }

  function Max(a: int, b: int): int {
    if a <= b then b else a
  }

  /** `u64::saturating_add`. */
  function SatAdd(a: u64, b: u64): u64 {
    Min(a + b, U64_MAX)
  }

  /** `u64::saturating_sub`. */
  function SatSub(a: u64, b: u64): u64 {
    Max(a - b, 0)
  }

  /** A `Duration` is a natural number of nanoseconds; `u64` fields hold it saturated. */
  type Duration = nat

  const NS_PER_SECOND: nat := 1_000_000_000

  function DurationAsNs(d: Duration): u64 {
    Min(d, U64_MAX)
  }
}
