/**
 * The calendar arithmetic the widget obtains from dayjs, on epoch
 * milliseconds. The layout code never inspects how dayjs computes; it only
 * relies on a few facts (a step moves forward, a day contains its instant),
 * which are stated below as predicates and required where they are used.
 * `Utc` is one concrete clock (dayjs in UTC mode) that meets them.
 */
module Dates {
  import opened Base

  /** The dayjs units the widget adds; `stepDuration` is one of them. */
  datatype Unit = Hour | Day | Week | Month | Year

  /**
   * dayjs(t).add(n, u), .startOf("day"), .endOf("day"), .startOf("month"),
   * .month() (0..11), .day() (0 = Sunday) and dayjs(text), each followed by
   * .valueOf().
   */
  datatype Clock = Clock(
    add: (int, int, Unit) -> int,
    startOfDay: int -> int,
    endOfDay: int -> int,
    startOfMonth: int -> int,
    month: int -> int,
    weekday: int -> int,
    parse: string -> int)

  /** Adding one step and truncating to the day start lands after the instant. */
  ghost predicate StepAdvances(c: Clock, u: Unit)
  {
    forall t: int :: c.startOfDay(c.add(t, 1, u)) > t
  }

  /** Adding one day moves forward. */
  ghost predicate DayAdvances(c: Clock)
  {
    forall t: int :: c.add(t, 1, Day) > t
  }

  /** The start of the month after the one of an instant lies after the instant. */
  ghost predicate MonthAdvances(c: Clock)
  {
    forall t: int :: c.startOfMonth(c.add(t, 1, Month)) > t
  }

  /** A day's start and end enclose every instant of it. */
  ghost predicate DayEncloses(c: Clock)
  {
    forall t: int :: c.startOfDay(t) <= t <= c.endOfDay(t)
  }

  /** A start or end given to a task: epoch milliseconds or a date string. */
  datatype TimeValue = Millis(ms: int) | Text(text: string)

  /** JavaScript truthiness of a start or end: 0 and "" are falsy. */
  predicate TimeTruthy(v: TimeValue)
  {
    match v
    case Millis(ms) => ms != 0
    case Text(s) => s != ""
  }

  /** dayjs(v).valueOf(). */
  function ValueOf(c: Clock, v: TimeValue): (r: int)
    ensures v.Millis? ==> r == v.ms
    ensures v.Text? ==> r == c.parse(v.text)
  {
    match v
    case Millis(ms) => ms
    case Text(s) => c.parse(s)
  }

  // ---------------------------------------------------------------------
  // A concrete clock: the proleptic Gregorian calendar in UTC. Day numbers
  // count days since 1970-01-01; month k is month k % 12 (0 = January) of
  // year k / 12.

  const MsPerHour: int := 3600000
  const MsPerDay: int := 86400000

  function DayOf(t: int): int { t / MsPerDay }

  predicate LeapYear(y: int)
  {
    y % 4 == 0 && (y % 100 != 0 || y % 400 == 0)
  }

  function DaysInMonth(y: int, m: int): (r: int)
    ensures 28 <= r <= 31
  {
    if m == 2 then (if LeapYear(y) then 29 else 28)
    else if m == 4 || m == 6 || m == 9 || m == 11 then 30
    else 31
  }

  /** The number of days in month k. */
  function MonthLength(k: int): (r: int)
    ensures 28 <= r <= 31
  {
    DaysInMonth(k / 12, k % 12 + 1)
  }

  /** January 1970, which starts on day 0. */
  const EpochMonth: int := 1970 * 12

  /** The day number of the first day of month k, counted in whole months from the epoch. */
  function MonthStartDay(k: int): int
    decreases if k >= EpochMonth then k - EpochMonth else EpochMonth - k
  {
    if k == EpochMonth then 0
    else if k > EpochMonth then MonthStartDay(k - 1) + MonthLength(k - 1)
    else MonthStartDay(k + 1) - MonthLength(k)
  }

  /** Month k + 1 starts when month k's days are over. */
  lemma MonthStep(k: int)
    ensures MonthStartDay(k + 1) == MonthStartDay(k) + MonthLength(k)
  {
  }

  /** Later months start later. */
  lemma {:induction false} MonthStartsIncrease(a: int, b: int)
    requires a < b
    ensures MonthStartDay(a) < MonthStartDay(b)
    decreases b - a
  {
    MonthStep(a);
    if a + 1 < b {
      MonthStartsIncrease(a + 1, b);
    }
  }

  /** The month holding day z, searching upward from a month starting no later. */
  function MonthUp(z: int, k: int): (r: int)
    requires MonthStartDay(k) <= z
    ensures MonthStartDay(r) <= z < MonthStartDay(r + 1)
    decreases z - MonthStartDay(k)
  {
    MonthStep(k);
    if z < MonthStartDay(k + 1) then k else MonthUp(z, k + 1)
  }

  /** The month holding day z, searching downward from a month ending after it. */
  function MonthDown(z: int, k: int): (r: int)
    requires z < MonthStartDay(k + 1)
    ensures MonthStartDay(r) <= z < MonthStartDay(r + 1)
    decreases MonthStartDay(k + 1) - z
  {
    MonthStep(k);
    if MonthStartDay(k) <= z then k else MonthDown(z, k - 1)
  }

  /** The month holding day z. */
  function MonthOf(z: int): (r: int)
    ensures MonthStartDay(r) <= z < MonthStartDay(r + 1)
  {
    if z >= 0 then MonthUp(z, EpochMonth) else MonthDown(z, EpochMonth - 1)
  }

  /** A day lies in exactly one month. */
  lemma MonthOfUnique(z: int, k: int)
    requires MonthStartDay(k) <= z < MonthStartDay(k + 1)
    ensures MonthOf(z) == k
  {
    var r := MonthOf(z);
    if r < k {
      MonthStartsIncrease(r, k);
      if r + 1 < k {
        MonthStartsIncrease(r + 1, k);
      }
    } else if k < r {
      MonthStartsIncrease(k, r);
      if k + 1 < r {
        MonthStartsIncrease(k + 1, r);
      }
    }
  }

  /**
   * Adds n calendar months, keeping the day of the month but clamping it to
   * the target month's length, and keeping the time of day.
   */
  function AddMonths(t: int, n: int): int
  {
    var k := MonthOf(DayOf(t));
    var d := DayOf(t) - MonthStartDay(k);
    var target := k + n;
    var d' := if d < MonthLength(target) then d else MonthLength(target) - 1;
    (MonthStartDay(target) + d') * MsPerDay + (t - DayOf(t) * MsPerDay)
  }

  function UtcAdd(t: int, n: int, u: Unit): int
  {
    match u
    case Hour => t + n * MsPerHour
    case Day => t + n * MsPerDay
    case Week => t + 7 * n * MsPerDay
    case Month => AddMonths(t, n)
    case Year => AddMonths(t, 12 * n)
  }

  function UtcStartOfDay(t: int): int { DayOf(t) * MsPerDay }

  function UtcStartOfMonth(t: int): int
  {
    MonthStartDay(MonthOf(DayOf(t))) * MsPerDay
  }

  /** The UTC clock; parsing date strings is left to the given function. */
  function Utc(parse: string -> int): (c: Clock)
    ensures c.parse == parse
  {
    Clock(
      (t: int, n: int, u: Unit) => UtcAdd(t, n, u),
      (t: int) => UtcStartOfDay(t),
      (t: int) => UtcStartOfDay(t) + MsPerDay - 1,
      (t: int) => UtcStartOfMonth(t),
      (t: int) => MonthOf(DayOf(t)) % 12,
      (t: int) => (DayOf(t) + 4) % 7,
      parse)
  }

  /** The witness calendar agrees with the civil one: 1970-03-01 is day 59 and 1969-12-01 is day -31. */
  lemma UtcCivilDates()
    ensures MonthStartDay(EpochMonth + 2) == 59
    ensures MonthStartDay(EpochMonth - 1) == -31
  {
    assert MonthStartDay(EpochMonth + 1) == 31;
  }

  lemma UtcMeetsDayFacts(parse: string -> int)
    ensures DayAdvances(Utc(parse))
    ensures DayEncloses(Utc(parse))
    ensures StepAdvances(Utc(parse), Day)
    ensures StepAdvances(Utc(parse), Week)
  {
    var c := Utc(parse);
    forall t: int ensures c.startOfDay(t) <= t <= c.endOfDay(t) {
      assert c.startOfDay(t) == DayOf(t) * MsPerDay;
    }
    forall t: int ensures c.startOfDay(c.add(t, 1, Day)) > t {
      assert DayOf(t + MsPerDay) == DayOf(t) + 1;
    }
    forall t: int ensures c.startOfDay(c.add(t, 1, Week)) > t {
      assert DayOf(t + 7 * MsPerDay) == DayOf(t) + 7;
    }
  }

  /** One month on, truncated to its month's start, lies after the instant. */
  lemma UtcMonthAdvances(parse: string -> int)
    ensures MonthAdvances(Utc(parse))
  {
    var c := Utc(parse);
    forall t: int ensures c.startOfMonth(c.add(t, 1, Month)) > t {
      var z := DayOf(t);
      var k := MonthOf(z);
      MonthStep(k + 1);
      var d := z - MonthStartDay(k);
      var d' := if d < MonthLength(k + 1) then d else MonthLength(k + 1) - 1;
      var z' := MonthStartDay(k + 1) + d';
      var u := c.add(t, 1, Month);
      assert u == z' * MsPerDay + (t - z * MsPerDay);
      assert DayOf(u) == z';
      MonthOfUnique(z', k + 1);
      assert c.startOfMonth(u) == MonthStartDay(k + 1) * MsPerDay;
    }
  }

  /**
   * With an hourly step the day truncation undoes the step at midnight, so
   * the step generator would never advance: "hour" is not a usable step.
   */
  lemma UtcHourStepStalls(parse: string -> int)
    ensures !StepAdvances(Utc(parse), Hour)
    ensures Utc(parse).startOfDay(Utc(parse).add(0, 1, Hour)) == 0
  {
    var c := Utc(parse);
    assert c.add(0, 1, Hour) == MsPerHour;
    assert DayOf(MsPerHour) == 0;
  }
}
