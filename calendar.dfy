/**
 * The naive `datetime` values handled by the tick aggregator: calendar fields, the
 * `timedelta` steps of one day, hour or minute, and truncation to a bucket.
 */
module Calendar {

  predicate IsLeap(year: int)
  {
    year % 4 == 0 && (year % 100 != 0 || year % 400 == 0)
  }

  /** Days in a month of the proleptic Gregorian calendar used by Python's `datetime`. */
  function DaysInMonth(year: int, month: int): (n: int)
    ensures 28 <= n <= 31
  {
    if month == 2 then (if IsLeap(year) then 29 else 28)
    else if month == 4 || month == 6 || month == 9 || month == 11 then 30
    else 31
  }

  /** The fields of a naive datetime. */
  datatype Fields = Fields(year: int, month: int, day: int, hour: int, minute: int, second: int, micro: int)

  predicate ValidFields(f: Fields)
  {
    && 1 <= f.month <= 12
    && 1 <= f.day <= DaysInMonth(f.year, f.month)
    && 0 <= f.hour < 24
    && 0 <= f.minute < 60
    && 0 <= f.second < 60
    && 0 <= f.micro < 1000000
  }

  /** A `datetime`: fields that name an existing instant. */
  type DateTime = f: Fields | ValidFields(f) witness Fields(1970, 1, 1, 0, 0, 0, 0)

  /** The Python `Interval` enum, plus any other value a caller might pass in its place. */
  datatype Interval = Day | Hour | Minute | Invalid(name: string)

  /** `dt + timedelta(days=1)`: the next calendar date, same time of day. */
  function NextDay(t: DateTime): (r: DateTime)
    ensures r.hour == t.hour && r.minute == t.minute && r.second == t.second && r.micro == t.micro
  {
    if t.day < DaysInMonth(t.year, t.month) then t.(day := t.day + 1)
    else if t.month < 12 then t.(month := t.month + 1, day := 1)
    else t.(year := t.year + 1, month := 1, day := 1)
  }

  /** `dt + timedelta(hours=1)`. */
  function NextHour(t: DateTime): DateTime
  {
    if t.hour < 23 then t.(hour := t.hour + 1) else NextDay(t.(hour := 0))
  }

  /** One `timedelta` of the interval (day, hour or minute). */
  function Advance(t: DateTime, iv: Interval): DateTime
    requires !iv.Invalid?
  {
    match iv
    case Day => NextDay(t)
    case Hour => NextHour(t)
    case Minute => if t.minute < 59 then t.(minute := t.minute + 1) else NextHour(t.(minute := 0))
  }

  /** `k` steps of the interval. */
  function AdvanceN(t: DateTime, iv: Interval, k: nat): DateTime
    requires !iv.Invalid?
  {
    if k == 0 then t else Advance(AdvanceN(t, iv, k - 1), iv)
  }

  lemma {:induction false} AdvanceNAdd(t: DateTime, iv: Interval, a: nat, b: nat)
    requires !iv.Invalid?
    ensures AdvanceN(AdvanceN(t, iv, a), iv, b) == AdvanceN(t, iv, a + b)
  {
    if b > 0 {
      AdvanceNAdd(t, iv, a, b - 1);
    }
  }

  /** Within a day, `k` hour steps only move the hour field. */
  lemma {:induction false} HourStepsWithinDay(t: DateTime, k: nat)
    requires t.hour + k <= 23
    ensures AdvanceN(t, Hour, k) == t.(hour := t.hour + k)
  {
    if k > 0 {
      HourStepsWithinDay(t, k - 1);
    }
  }

  /** Within an hour, `k` minute steps only move the minute field. */
  lemma {:induction false} MinuteStepsWithinHour(t: DateTime, k: nat)
    requires t.minute + k <= 59
    ensures AdvanceN(t, Minute, k) == t.(minute := t.minute + k)
  {
    if k > 0 {
      MinuteStepsWithinHour(t, k - 1);
    }
  }

  /** An hour step is exactly one hour: twenty-four of them are one day step. */
  lemma TwentyFourHoursMakeADay(t: DateTime)
    ensures AdvanceN(t, Hour, 24) == Advance(t, Day)
  {
    var h := t.hour;
    var last := t.(hour := 23);
    HourStepsWithinDay(t, 23 - h);
    var midnight := NextDay(t.(hour := 0));
    assert Advance(last, Hour) == midnight;
    assert AdvanceN(t, Hour, 24 - h) == midnight by {
      AdvanceNAdd(t, Hour, 23 - h, 1);
    }
    HourStepsWithinDay(midnight, h);
    AdvanceNAdd(t, Hour, 24 - h, h);
    assert midnight.(hour := h) == NextDay(t);
  }

  /** A minute step is exactly one minute: sixty of them are one hour step. */
  lemma SixtyMinutesMakeAnHour(t: DateTime)
    ensures AdvanceN(t, Minute, 60) == Advance(t, Hour)
  {
    var m := t.minute;
    var last := t.(minute := 59);
    MinuteStepsWithinHour(t, 59 - m);
    var top := NextHour(t.(minute := 0));
    assert Advance(last, Minute) == top;
    assert AdvanceN(t, Minute, 60 - m) == top by {
      AdvanceNAdd(t, Minute, 59 - m, 1);
    }
    MinuteStepsWithinHour(top, m);
    AdvanceNAdd(t, Minute, 60 - m, m);
  }

  /** The fields of `t` below the interval set to zero: `strptime(strftime(t, fmt), fmt)`. */
  function Truncate(t: DateTime, iv: Interval): (r: DateTime)
    requires !iv.Invalid?
    ensures r.year == t.year && r.month == t.month && r.day == t.day
    ensures r.second == 0 && r.micro == 0
    ensures iv.Day? ==> r.hour == 0 && r.minute == 0
    ensures !iv.Day? ==> r.hour == t.hour
    ensures iv.Minute? ==> r.minute == t.minute
    ensures iv.Hour? ==> r.minute == 0
  {
    match iv
    case Day => t.(hour := 0, minute := 0, second := 0, micro := 0)
    case Hour => t.(minute := 0, second := 0, micro := 0)
    case Minute => t.(second := 0, micro := 0)
  }

  lemma TruncateIdempotent(t: DateTime, iv: Interval)
    requires !iv.Invalid?
    ensures Truncate(Truncate(t, iv), iv) == Truncate(t, iv)
  {
  }

  /**
   * `is_same_interval`: compares ONE calendar field (day of month, hour or minute).
   * For any other interval the Python function falls off its end and returns None,
   * which both callers read as false.
   */
  predicate IsSameInterval(previous: DateTime, current: DateTime, iv: Interval)
    ensures IsSameInterval(previous, current, iv) ==> !iv.Invalid?
    ensures previous == current ==> (IsSameInterval(previous, current, iv) <==> !iv.Invalid?)
  {
    match iv
    case Day => previous.day == current.day
    case Hour => previous.hour == current.hour
    case Minute => previous.minute == current.minute
    case Invalid(_) => false
  }

  /** Two times one month apart on the same day of the month share a Day bucket. */
  lemma OneMonthApartSameDayBucket(t: DateTime)
    requires t.month < 12 && t.day <= DaysInMonth(t.year, t.month + 1)
    ensures IsSameInterval(t, t.(month := t.month + 1), Day)
    ensures t != t.(month := t.month + 1)
  {
  }

  /** Two times one day apart in the same hour share an Hour bucket. */
  lemma OneDayApartSameHourBucket(t: DateTime)
    ensures IsSameInterval(t, NextDay(t), Hour)
    ensures NextDay(t) != t
  {
  }

  // ----- how many steps until the compared field matches -----

  /** The month after (year, month). */
  function NextMonthDays(year: int, month: int): int
  {
    if month < 12 then DaysInMonth(year, month + 1) else DaysInMonth(year + 1, 1)
  }

  /** Every month shorter than 31 days is followed by a 31-day month. */
  lemma ShortMonthThenLong(year: int, month: int)
    requires 1 <= month <= 12 && DaysInMonth(year, month) < 31
    ensures NextMonthDays(year, month) == 31
  {
  }

  /** Day steps from `t` until the day of the month equals `d`. */
  function DaysUntil(t: DateTime, d: int): nat
    requires 1 <= d <= 31
  {
    var dim := DaysInMonth(t.year, t.month);
    var rest := dim - t.day + 1;
    var dim2 := NextMonthDays(t.year, t.month);
    if t.day == d then 0
    else if t.day < d <= dim then d - t.day
    else if d <= dim2 then rest + d - 1
    else rest + dim2 + d - 1
  }

  lemma DaysUntilStep(t: DateTime, d: int)
    requires 1 <= d <= 31 && t.day != d
    ensures DaysUntil(NextDay(t), d) == DaysUntil(t, d) - 1
  {
    var dim := DaysInMonth(t.year, t.month);
    var n := NextDay(t);
    if t.day == dim {
      if dim < 31 { ShortMonthThenLong(t.year, t.month); }
      var dim2 := NextMonthDays(t.year, t.month);
      assert n.day == 1 && DaysInMonth(n.year, n.month) == dim2;
      if d > dim2 {
        ShortMonthThenLong(n.year, n.month);
        assert NextMonthDays(n.year, n.month) == 31;
      }
    }
  }

  /** Each interval's field and the number of values it cycles through (a bound for day of month). */
  function Period(iv: Interval): nat
  {
    match iv
    case Day => 62
    case Hour => 24
    case Minute => 60
    case Invalid(_) => 0
  }

  /** Steps of the interval from `t` until `t` and `target` compare as the same bucket. */
  function Remaining(t: DateTime, target: DateTime, iv: Interval): nat
    requires !iv.Invalid?
  {
    match iv
    case Day => DaysUntil(t, target.day)
    case Hour => ClockDistance(t.hour, target.hour, 24)
    case Minute => ClockDistance(t.minute, target.minute, 60)
  }

  lemma RemainingZero(t: DateTime, target: DateTime, iv: Interval)
    requires !iv.Invalid?
    ensures Remaining(t, target, iv) == 0 <==> IsSameInterval(t, target, iv)
  {
  }

  lemma RemainingBelowPeriod(t: DateTime, target: DateTime, iv: Interval)
    requires !iv.Invalid?
    ensures Remaining(t, target, iv) < Period(iv)
  {
    if iv.Day? {
      var d := target.day;
      var dim := DaysInMonth(t.year, t.month);
      if dim < 31 { ShortMonthThenLong(t.year, t.month); }
    }
  }

  lemma RemainingStep(t: DateTime, target: DateTime, iv: Interval)
    requires !iv.Invalid? && !IsSameInterval(t, target, iv)
    ensures Remaining(Advance(t, iv), target, iv) == Remaining(t, target, iv) - 1
  {
    match iv
    case Day => DaysUntilStep(t, target.day);
    case Hour => CyclicStep(t.hour, target.hour, 24);
    case Minute => CyclicStep(t.minute, target.minute, 60);
  }

  /** Ticks of a clock of `n` values from `x` until it shows `y`. */
  function ClockDistance(x: int, y: int, n: int): int
  {
    if x <= y then y - x else y - x + n
  }

  /** On a clock of `n` values, one tick brings `x` one step closer to `y`. */
  lemma CyclicStep(x: int, y: int, n: int)
    requires 0 <= x < n && 0 <= y < n && x != y
    ensures ClockDistance(if x < n - 1 then x + 1 else 0, y, n) == ClockDistance(x, y, n) - 1
  {
  }

  /**
   * Stepping from `t` meets the target's bucket after exactly Remaining(t) steps,
   * and not before.
   */
  lemma {:induction false} RemainingAfter(t: DateTime, target: DateTime, iv: Interval, k: nat)
    requires !iv.Invalid? && k <= Remaining(t, target, iv)
    ensures Remaining(AdvanceN(t, iv, k), target, iv) == Remaining(t, target, iv) - k
  {
    if k > 0 {
      RemainingAfter(t, target, iv, k - 1);
      var u := AdvanceN(t, iv, k - 1);
      RemainingZero(u, target, iv);
      RemainingStep(u, target, iv);
    }
  }
}
