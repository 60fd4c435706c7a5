/** UTC days and instants, and the cutoff of a retention counted in calendar months. */
module Calendar {
  /** A day in UTC, `YYYY-MM-DD`. */
  datatype Day = Day(year: int, month: int, date: int)

  /** An instant: its UTC day and the milliseconds since its midnight. */
  datatype Instant = Instant(day: Day, time: nat)

  predicate Leap(year: int) { year % 4 == 0 && (year % 100 != 0 || year % 400 == 0) }

  function DaysIn(year: int, month: int): (n: int)
    ensures 28 <= n <= 31
  {
    if month == 2 then if Leap(year) then 29 else 28
    else if month in {4, 6, 9, 11} then 30 else 31
  }

  /** The days before a month, since the March of year 0 of the Gregorian calendar, by years that begin in March. */
  function DaysUntil(year: int, month: int): int {
    var y, m := if month <= 2 then year - 1 else year, if month <= 2 then month + 9 else month - 3;
    365 * y + y / 4 - y / 100 + y / 400 + (153 * m + 2) / 5
  }

  /** Each month has the days that lie between its first day and that of the next month. */
  lemma {:induction false} MonthsAddUp(year: int, month: int)
    requires 1 <= month <= 12
    ensures DaysIn(year, month) ==
              (if month == 12 then DaysUntil(year + 1, 1) else DaysUntil(year, month + 1)) - DaysUntil(year, month)
  {
    if month == 2 {
      LeapDays(year);
    }
  }

  lemma {:induction false} LeapDays(year: int)
    ensures year / 4 - year / 100 + year / 400 - ((year - 1) / 4 - (year - 1) / 100 + (year - 1) / 400)
         == if Leap(year) then 1 else 0
  {
    Fourth(year);
    Hundredth(year);
    FourHundredth(year);
    Multiples(year);
  }

  lemma {:induction false} Fourth(n: int)
    ensures n / 4 - (n - 1) / 4 == if n % 4 == 0 then 1 else 0
  {
  }

  lemma {:induction false} Hundredth(n: int)
    ensures n / 100 - (n - 1) / 100 == if n % 100 == 0 then 1 else 0
  {
    var q, r := n / 100, n % 100;
    IsQuotient(n - 1, 100, if r == 0 then q - 1 else q, if r == 0 then 99 else r - 1);
  }

  lemma {:induction false} FourHundredth(n: int)
    ensures n / 400 - (n - 1) / 400 == if n % 400 == 0 then 1 else 0
  {
    var q, r := n / 400, n % 400;
    IsQuotient(n - 1, 400, if r == 0 then q - 1 else q, if r == 0 then 399 else r - 1);
  }

  lemma {:induction false} Multiples(n: int)
    ensures n % 400 == 0 ==> n % 100 == 0
    ensures n % 100 == 0 ==> n % 4 == 0
  {
    if n % 400 == 0 {
      IsQuotient(n, 100, 4 * (n / 400), 0);
    }
    if n % 100 == 0 {
      IsQuotient(n, 4, 25 * (n / 100), 0);
    }
  }

  lemma {:induction false} IsQuotient(n: int, k: int, q: int, r: int)
    requires k in {4, 100, 400} && n == k * q + r && 0 <= r < k
    ensures n / k == q && n % k == r
  {
    if k == 4 {
      assert (4 * q + r) / 4 == q;
    } else if k == 100 {
      assert (100 * q + r) / 100 == q;
    } else {
      assert (400 * q + r) / 400 == q;
    }
  }

  predicate Exists(d: Day) { 1 <= d.month <= 12 && 1 <= d.date <= DaysIn(d.year, d.month) }

  /** The order of the names of the days. */
  predicate Before(a: Day, b: Day) {
    || a.year < b.year
    || (a.year == b.year && a.month < b.month)
    || (a.year == b.year && a.month == b.month && a.date < b.date)
  }

  predicate Earlier(a: Instant, b: Instant) { Before(a.day, b.day) || (a.day == b.day && a.time < b.time) }

  /** The days of the calendar, counted. */
  function DayNumber(d: Day): int { DaysUntil(d.year, d.month) + d.date }

  /** The milliseconds of an instant, counted. */
  function Millis(i: Instant): int { DayNumber(i.day) * 86400000 + i.time }

  /** The month that is so many months after January of year 0. */
  function UntilMonth(months: int): int { DaysUntil(months / 12, months % 12 + 1) }

  lemma {:induction false} MonthAfter(months: int)
    ensures months % 12 < 11 ==> (months + 1) / 12 == months / 12 && (months + 1) % 12 == months % 12 + 1
    ensures months % 12 == 11 ==> (months + 1) / 12 == months / 12 + 1 && (months + 1) % 12 == 0
  {
  }

  lemma {:induction false} NextMonth(months: int)
    ensures UntilMonth(months + 1) == UntilMonth(months) + DaysIn(months / 12, months % 12 + 1)
  {
    MonthAfter(months);
    MonthsAddUp(months / 12, months % 12 + 1);
  }

  lemma {:induction false} MonthOfDay(d: Day)
    requires Exists(d)
    ensures Months(d) / 12 == d.year && Months(d) % 12 + 1 == d.month
  {
  }

  lemma {:induction false} LaterMonth(a: int, b: int)
    requires a < b
    ensures UntilMonth(b) >= UntilMonth(a) + DaysIn(a / 12, a % 12 + 1)
    decreases b - a
  {
    if b == a + 1 {
      NextMonth(a);
    } else {
      LaterMonth(a, b - 1);
      NextMonth(b - 1);
    }
  }

  lemma {:induction false} LaterDay(a: Day, b: Day)
    requires Exists(a) && Exists(b) && Before(a, b)
    ensures DayNumber(a) < DayNumber(b)
  {
    MonthOfDay(a);
    MonthOfDay(b);
    LaterThan(a, b, UntilMonth(Months(a)), UntilMonth(Months(b)));
  }

  lemma {:induction false} LaterThan(a: Day, b: Day, untilA: int, untilB: int)
    requires Exists(a) && Exists(b) && Before(a, b)
    requires untilA == UntilMonth(Months(a)) == DaysUntil(a.year, a.month)
    requires untilB == UntilMonth(Months(b)) == DaysUntil(b.year, b.month)
    requires DaysIn(a.year, a.month) == DaysIn(Months(a) / 12, Months(a) % 12 + 1)
    ensures untilA + a.date < untilB + b.date
  {
    if Months(a) < Months(b) {
      LaterMonth(Months(a), Months(b));
    }
  }

  /** One instant is earlier than another exactly when fewer milliseconds lead to it. */
  lemma {:induction false} EarlierCounts(a: Instant, b: Instant)
    requires Exists(a.day) && Exists(b.day) && a.time < 86400000 && b.time < 86400000
    ensures Before(a.day, b.day) <==> DayNumber(a.day) < DayNumber(b.day)
    ensures Earlier(a, b) <==> Millis(a) < Millis(b)
  {
    if Before(a.day, b.day) {
      LaterDay(a.day, b.day);
    } else if Before(b.day, a.day) {
      LaterDay(b.day, a.day);
    }
  }

  /** The first instant of a day. */
  function StartOf(day: Day): Instant { Instant(day, 0) }

  /** The months since year 0. */
  function Months(d: Day): int { d.year * 12 + d.month - 1 }

  /** The same time of day, some months back: the date of the month stays, unless that month ends before it. */
  function MonthsBefore(now: Instant, months: nat): Instant
    requires Exists(now.day)
  {
    var first := Months(now.day) - months;
    var year, month := first / 12, first % 12 + 1;
    var lastDay := DaysIn(year, month);
    Instant(Day(year, month, if now.day.date <= lastDay then now.day.date else lastDay), now.time)
  }

  /** The day where a retention of that many months ends. */
  function Cutoff(now: Instant, months: nat): Day
    requires Exists(now.day)
  {
    MonthsBefore(now, months).day
  }

  /** The cutoff is the last day of its month that is not past the date of now. */
  lemma {:induction false} CutoffIsTheLastFit(now: Instant, months: nat)
    requires Exists(now.day)
    ensures var cutoff := Cutoff(now, months);
            Exists(cutoff) && Months(cutoff) == Months(now.day) - months && cutoff.date <= now.day.date
    ensures forall d: Day | Exists(d) && Months(d) == Months(now.day) - months && d.date <= now.day.date ::
              !Before(Cutoff(now, months), d)
  {
  }

  /** A longer retention never ends later. */
  lemma {:induction false} LongerEndsEarlier(now: Instant, shorter: nat, longer: nat)
    requires Exists(now.day) && shorter <= longer
    ensures !Before(Cutoff(now, shorter), Cutoff(now, longer))
  {
    CutoffIsTheLastFit(now, shorter);
    CutoffIsTheLastFit(now, longer);
  }

  /** As time passes, the cutoff never goes back. */
  lemma {:induction false} CutoffAdvances(a: Instant, b: Instant, months: nat)
    requires Exists(a.day) && Exists(b.day) && !Earlier(b, a)
    ensures !Before(Cutoff(b, months), Cutoff(a, months))
  {
    CutoffIsTheLastFit(a, months);
    CutoffIsTheLastFit(b, months);
  }

  /** The instant itself goes back when two days fall on one, and only then. */
  lemma {:induction false} WhenTheInstantGoesBack(a: Instant, b: Instant, months: nat)
    requires Exists(a.day) && Exists(b.day) && Earlier(a, b)
    ensures Earlier(MonthsBefore(b, months), MonthsBefore(a, months))
       <==> Cutoff(a, months) == Cutoff(b, months) && b.time < a.time
  {
    CutoffAdvances(a, b, months);
  }

  lemma {:induction false} TheInstantMayGoBack()
    ensures var a, b := Instant(Day(2026, 3, 30), 2), Instant(Day(2026, 3, 31), 1);
            Earlier(a, b) && Earlier(MonthsBefore(b, 1), MonthsBefore(a, 1))
  {
  }
}
