/** Shared vocabulary of the CRM model: Java's null as Option, thrown
    exceptions as Result, and the clock values the entities store. */
module Base {

  /** A nullable field or argument: None is Java's null. */
  datatype Option<+T> = None | Some(value: T)

  /** The outcome of an operation that may throw: Err carries the exception. */
  datatype Result<+T, +E> = Ok(value: T) | Err(error: E)

  /** java.time.LocalDate, as a day number counted from an epoch. */
  type Date = int

  /** java.time.LocalDateTime, as a minute number counted from midnight of
      the epoch day; sub-minute precision is not modelled. */
  type DateTime = int

  const MinutesPerDay: int := 1440

  /** LocalDateTime.toLocalDate(): the calendar day a moment falls on. */
  function DateOf(t: DateTime): (d: Date)
    ensures d * MinutesPerDay <= t < (d + 1) * MinutesPerDay
  {
    t / MinutesPerDay
  }

  /** LocalDateTime.plusMinutes. */
  function PlusMinutes(t: DateTime, minutes: int): DateTime
  {
    t + minutes
  }

  /** LocalDateTime.plusDays. */
  function PlusDays(t: DateTime, days: int): DateTime
  {
    t + days * MinutesPerDay
  }

  /** BigDecimal products of non-negative amounts are non-negative. */
  lemma NonNegativeProduct(x: real, y: real)
    requires x >= 0.0 && y >= 0.0
    ensures x * y >= 0.0
  {
  }

  const Int32Min: int := -0x8000_0000
  const Int32Max: int := 0x7fff_ffff

  /** The values of a Java int or a non-null Integer. */
  type Int32 = x: int | Int32Min <= x <= Int32Max

  /** Java's `x++` on an int: wraps from the largest value to the smallest. */
  function Increment(x: Int32): (r: Int32)
    ensures x < Int32Max ==> r == x + 1
    ensures x == Int32Max ==> r == Int32Min
  {
    if x == Int32Max then Int32Min else x + 1
  }
}
