/**
 * .NET date and time arithmetic as the probation handler uses it. A DateTime
 * is its tick count (100-nanosecond units since 0001-01-01); subtracting two
 * gives a TimeSpan of ticks, and TimeSpan.Days is the whole-day part of that
 * span truncated toward zero. C# `int` is 32 bits and its multiplication wraps.
 */
module Time {

  const TicksPerDay: int := 864_000_000_000
  /** DateTime.MaxValue.Ticks (9999-12-31 23:59:59.9999999). */
  const MaxTicks: int := 3_155_378_975_999_999_999
  /** The largest whole-day count between two DateTime values. */
  const MaxDays: int := 3_652_058

  type DateTime = t: int | 0 <= t <= MaxTicks

  type Int32 = x: int | -0x8000_0000 <= x <= 0x7FFF_FFFF

  /** A C# int result of an unchecked computation whose mathematical value is `x`. */
  function Wrap32(x: int): (r: Int32)
    ensures (x - r) % 0x1_0000_0000 == 0
    ensures -0x8000_0000 <= x <= 0x7FFF_FFFF ==> r == x
  {
    (x + 0x8000_0000) % 0x1_0000_0000 - 0x8000_0000
  }

  /** TimeSpan.Days of a span of `ticks`: whole days, truncated toward zero. */
  function TimeSpanDays(ticks: int): (days: int)
    ensures ticks >= 0 ==> 0 <= days * 864_000_000_000 <= ticks < days * 864_000_000_000 + 864_000_000_000
    ensures ticks < 0 ==> days * 864_000_000_000 - 864_000_000_000 < ticks <= days * 864_000_000_000 <= 0
  {
    if ticks >= 0 then ticks / TicksPerDay else -((-ticks) / TicksPerDay)
  }

  /** The whole days of `later - earlier` (the `Days` of a DateTime difference). */
  function ElapsedDays(later: DateTime, earlier: DateTime): (days: Int32)
    ensures -MaxDays <= days <= MaxDays
    ensures later >= earlier ==> days >= 0
    ensures later <= earlier ==> days <= 0
  {
    TimeSpanDays(later - earlier)
  }

  /** Truncation, not floor: a span one tick into the past has 0 whole days, where Euclidean division gives -1. */
  lemma TruncatesTowardZero()
    ensures TimeSpanDays(-1) == 0 && -1 / TicksPerDay == -1
    ensures TimeSpanDays(-TicksPerDay - 1) == -1 && (-TicksPerDay - 1) / TicksPerDay == -2
  {
  }

  /** A longer span never has fewer whole days. */
  lemma TimeSpanDaysMonotone(a: int, b: int)
    requires a <= b
    ensures TimeSpanDays(a) <= TimeSpanDays(b)
  {
  }

  /** For a non-negative bound k, more than k whole days means at least k + 1 full days of ticks. */
  lemma MoreThanDaysIffTicks(ticks: int, k: int)
    requires k >= 0
    ensures TimeSpanDays(ticks) > k <==> ticks >= (k + 1) * TicksPerDay
  {
  }
}
