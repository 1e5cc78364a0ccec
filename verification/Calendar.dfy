/** Month and day intervals of contract requests, over the proleptic Gregorian
    calendar of years 1 to 9999. */
module Calendar {
  import opened Options

  const MAX_YEAR := 9999

  datatype Date = Date(year: int, month: int, day: int)

  predicate Leap(y: int) {
    y % 4 == 0 && (y % 100 != 0 || y % 400 == 0)
  }

  /** calendar.monthrange(y, m)[1]. */
  function DaysIn(y: int, m: int): int {
    if m == 2 then (if Leap(y) then 29 else 28)
    else if m == 4 || m == 6 || m == 9 || m == 11 then 30
    else 31
  }

  predicate Valid(d: Date) {
    1 <= d.year <= MAX_YEAR && 1 <= d.month <= 12 && 1 <= d.day <= DaysIn(d.year, d.month)
  }

  /** The date constructor: None is ValueError. */
  function Make(y: int, m: int, day: int): Option<Date> {
    if Valid(Date(y, m, day)) then Some(Date(y, m, day)) else None
  }

  predicate Before(d: Date, e: Date) {
    d.year < e.year || (d.year == e.year && (d.month < e.month || (d.month == e.month && d.day < e.day)))
  }

  // ---------- day numbers ----------

  function DaysBeforeYear(y: int): int {
    365 * (y - 1) + (y - 1) / 4 - (y - 1) / 100 + (y - 1) / 400
  }

  function DaysBeforeMonth(y: int, m: int): int
    requires 1 <= m <= 13
  {
    if m == 1 then 0 else DaysBeforeMonth(y, m - 1) + DaysIn(y, m - 1)
  }

  /** date.toordinal. */
  function Ordinal(d: Date): int
    requires 1 <= d.month <= 12
  {
    DaysBeforeYear(d.year) + DaysBeforeMonth(d.year, d.month) + d.day
  }

  /** The calendar's day after `d`; None past the last representable day. */
  function NextDay(d: Date): Option<Date>
    requires Valid(d)
  {
    if d.day < DaysIn(d.year, d.month) then Some(Date(d.year, d.month, d.day + 1))
    else if d.month < 12 then Some(Date(d.year, d.month + 1, 1))
    else Make(d.year + 1, 1, 1)
  }

  function PreviousDay(d: Date): Option<Date>
    requires Valid(d)
  {
    if d.day > 1 then Some(Date(d.year, d.month, d.day - 1))
    else if d.month > 1 then Some(Date(d.year, d.month - 1, DaysIn(d.year, d.month - 1)))
    else Make(d.year - 1, 12, 31)
  }

  /** date + timedelta(days=n). */
  function AddDays(d: Date, n: nat): (r: Option<Date>)
    requires Valid(d)
    ensures r.Some? ==> Valid(r.value)
  {
    if n == 0 then Some(d)
    else
      match AddDays(d, n - 1)
      case None => None
      case Some(e) => NextDay(e)
  }

  lemma Quarter(y: int, m: int)
    requires 1 <= m <= 10
    ensures DaysBeforeMonth(y, m + 3) == DaysBeforeMonth(y, m) + DaysIn(y, m) + DaysIn(y, m + 1) + DaysIn(y, m + 2)
  {
    assert DaysBeforeMonth(y, m + 2) == DaysBeforeMonth(y, m + 1) + DaysIn(y, m + 1);
  }

  /** A year has 365 days, or 366 when it leaps. */
  lemma YearLength(y: int)
    ensures DaysBeforeYear(y + 1) == DaysBeforeYear(y) + DaysBeforeMonth(y, 13)
  {
    Quarter(y, 1);
    Quarter(y, 4);
    Quarter(y, 7);
    Quarter(y, 10);
    LeapStep(y);
  }

  lemma LeapStep(y: int)
    ensures y / 4 - (y - 1) / 4 == if y % 4 == 0 then 1 else 0
    ensures y / 100 - (y - 1) / 100 == if y % 100 == 0 then 1 else 0
    ensures y / 400 - (y - 1) / 400 == if y % 400 == 0 then 1 else 0
    ensures y % 400 == 0 ==> y % 100 == 0
    ensures y % 100 == 0 ==> y % 4 == 0
  {
  }

  lemma NextDayIsOneMore(d: Date)
    requires Valid(d) && NextDay(d).Some?
    ensures Valid(NextDay(d).value) && Ordinal(NextDay(d).value) == Ordinal(d) + 1
  {
    if d.month == 12 && d.day == 31 {
      YearLength(d.year);
    }
  }

  lemma PreviousDayIsOneLess(d: Date)
    requires Valid(d) && PreviousDay(d).Some?
    ensures Valid(PreviousDay(d).value) && NextDay(PreviousDay(d).value) == Some(d)
    ensures Ordinal(PreviousDay(d).value) == Ordinal(d) - 1
  {
    NextDayIsOneMore(PreviousDay(d).value);
  }

  lemma {:induction false} AddDaysOrdinal(d: Date, n: nat)
    requires Valid(d) && AddDays(d, n).Some?
    ensures Ordinal(AddDays(d, n).value) == Ordinal(d) + n
  {
    if n > 0 {
      AddDaysOrdinal(d, n - 1);
      NextDayIsOneMore(AddDays(d, n - 1).value);
    }
  }

  lemma {:induction false} MonthsAccumulate(y: int, m: int, k: int)
    requires 1 <= m < k <= 13
    ensures DaysBeforeMonth(y, m) + DaysIn(y, m) <= DaysBeforeMonth(y, k)
  {
    if m + 1 < k {
      MonthsAccumulate(y, m, k - 1);
    }
  }

  lemma {:induction false} YearsAccumulate(y: int, z: int)
    requires y < z
    ensures DaysBeforeYear(y) + DaysBeforeMonth(y, 13) <= DaysBeforeYear(z)
    decreases z - y
  {
    YearLength(z - 1);
    if y + 1 < z {
      YearsAccumulate(y, z - 1);
      MonthsPositive(z - 1);
    }
  }

  lemma MonthsPositive(y: int)
    ensures 0 <= DaysBeforeMonth(y, 13)
  {
    MonthsAccumulate(y, 1, 13);
  }

  /** The order of dates is the order of their day numbers. */
  lemma OrdinalOrders(d: Date, e: Date)
    requires Valid(d) && Valid(e) && Before(d, e)
    ensures Ordinal(d) < Ordinal(e)
  {
    if d.year < e.year {
      YearsAccumulate(d.year, e.year);
      MonthsAccumulate(d.year, d.month, 13);
      if e.month > 1 {
        MonthsAccumulate(e.year, 1, e.month);
      }
    } else if d.month < e.month {
      MonthsAccumulate(d.year, d.month, e.month);
    }
  }

  lemma BeforeIsOrdinal(d: Date, e: Date)
    requires Valid(d) && Valid(e)
    ensures Before(d, e) <==> Ordinal(d) < Ordinal(e)
    ensures d == e <==> Ordinal(d) == Ordinal(e)
  {
    if Before(d, e) {
      OrdinalOrders(d, e);
    } else if Before(e, d) {
      OrdinalOrders(e, d);
    }
  }

  // ---------- intervals ----------

  datatype Interval = Interval(first: Date, last: Date)

  predicate Holds(i: Interval, d: Date) {
    !Before(d, i.first) && !Before(i.last, d)
  }

  function MonthInterval(y: int, m: int): Option<Interval> {
    match (Make(y, m, 1), Make(y, m, DaysIn(y, m)))
    case (Some(first), Some(last)) => Some(Interval(first, last))
    case _ => None
  }

  function NextMonthInterval(today: Date): Option<Interval> {
    var year := today.year + if today.month == 12 then 1 else 0;
    var month := if today.month == 12 then 1 else today.month + 1;
    MonthInterval(year, month)
  }

  /** The default payroll period: the month of the day before the first. */
  function PreviousMonth(today: Date): Option<(int, int)>
    requires Valid(today)
  {
    match PreviousDay(Date(today.year, today.month, 1))
    case None => None
    case Some(d) => Some((d.year, d.month))
  }

  /** Adding months, the day clamped to the target month. */
  function AddMonths(today: Date, months: nat): Option<Date> {
    var index := today.month - 1 + months;
    var year, month := today.year + index / 12, index % 12 + 1;
    var day := if today.day < DaysIn(year, month) then today.day else DaysIn(year, month);
    Make(year, month, day)
  }

  /** What the expressions found in the text, in the order they are tried. */
  datatype Request = NextMonth | ThisMonth | Months(months: nat) | Days(days: nat) | Nothing

  /** An interval, no supported interval, or an exception of the date library. */
  datatype Answer = Found(interval: Interval) | Unsupported | Raised

  function Answered(i: Option<Interval>): Answer {
    match i case None => Raised case Some(interval) => Found(interval)
  }

  function SupportedInterval(r: Request, today: Date): Answer
    requires Valid(today)
  {
    match r
    case NextMonth => Answered(NextMonthInterval(today))
    case ThisMonth => Answered(MonthInterval(today.year, today.month))
    case Months(n) =>
      (match AddMonths(today, n) case None => Raised case Some(last) => Found(Interval(today, last)))
    case Days(n) =>
      if !(1 <= n <= 366) then Unsupported
      else (match AddDays(today, n) case None => Raised case Some(last) => Found(Interval(today, last)))
    case Nothing => Unsupported
  }

  // ---------- months ----------

  /** A month's interval holds exactly its days, as many as the month has. */
  lemma MonthIntervalIsTheMonth(y: int, m: int, d: Date)
    requires 1 <= y <= MAX_YEAR && 1 <= m <= 12 && Valid(d)
    ensures MonthInterval(y, m).Some?
    ensures Holds(MonthInterval(y, m).value, d) <==> d.year == y && d.month == m
    ensures var i := MonthInterval(y, m).value; Ordinal(i.last) - Ordinal(i.first) + 1 == DaysIn(y, m)
  {
  }

  /** The next month starts the day after this month ends; only December 9999 has none. */
  lemma NextMonthFollows(today: Date)
    requires Valid(today)
    ensures NextMonthInterval(today).None? <==> today.year == MAX_YEAR && today.month == 12
    ensures NextMonthInterval(today).Some? ==>
              var thisMonth, next := MonthInterval(today.year, today.month).value, NextMonthInterval(today).value;
              && NextDay(thisMonth.last) == Some(next.first)
              && Ordinal(next.first) == Ordinal(thisMonth.last) + 1
              && Holds(thisMonth, today)
  {
    if NextMonthInterval(today).Some? {
      NextDayIsOneMore(MonthInterval(today.year, today.month).value.last);
    }
  }

  /** Previous month inverts next month, from any day of either. */
  lemma PreviousInvertsNext(today: Date, d: Date)
    requires Valid(today) && Valid(d) && NextMonthInterval(today).Some?
    ensures Holds(NextMonthInterval(today).value, d) <==> PreviousMonth(d) == Some((today.year, today.month))
  {
  }

  lemma NextInvertsPrevious(today: Date, d: Date)
    requires Valid(today) && Valid(d) && PreviousMonth(today) == Some((d.year, d.month))
    ensures NextMonthInterval(d) == MonthInterval(today.year, today.month)
  {
  }

  /** Only January of year 1 has no previous month. */
  lemma PreviousExists(today: Date)
    requires Valid(today)
    ensures PreviousMonth(today).None? <==> today.year == 1 && today.month == 1
  {
  }

  // ---------- adding months ----------

  function MonthIndex(d: Date): int { d.year * 12 + d.month - 1 }

  /** Lands on the month `n` after today's, on today's day or that month's last;
      raises exactly when that month is past the last year. */
  lemma AddMonthsLands(today: Date, n: nat)
    requires Valid(today)
    ensures AddMonths(today, n).None? <==> MonthIndex(today) + n >= (MAX_YEAR + 1) * 12
    ensures AddMonths(today, n).Some? ==>
              var d := AddMonths(today, n).value;
              && Valid(d) && MonthIndex(d) == MonthIndex(today) + n
              && d.day <= today.day && (d.day == today.day || d.day == DaysIn(d.year, d.month))
  {
    var index := today.month - 1 + n;
    assert index == 12 * (index / 12) + index % 12;
  }

  lemma IndexOrders(d: Date, e: Date)
    requires Valid(d) && Valid(e) && MonthIndex(d) < MonthIndex(e)
    ensures Before(d, e)
  {
  }

  /** Strictly later for more months. */
  lemma AddMonthsIncreases(today: Date, m: nat, n: nat)
    requires Valid(today) && m < n && AddMonths(today, n).Some?
    ensures AddMonths(today, m).Some? && Before(AddMonths(today, m).value, AddMonths(today, n).value)
  {
    AddMonthsLands(today, m);
    AddMonthsLands(today, n);
    IndexOrders(AddMonths(today, m).value, AddMonths(today, n).value);
  }

  /** Never before today, and today itself for no months. */
  lemma AddMonthsNotEarlier(today: Date, n: nat)
    requires Valid(today) && AddMonths(today, n).Some?
    ensures !Before(AddMonths(today, n).value, today)
    ensures n == 0 <==> AddMonths(today, n).value == today
  {
    AddMonthsLands(today, n);
    if n > 0 {
      IndexOrders(today, AddMonths(today, n).value);
    }
  }

  /** One month ahead is a day of the next month's interval. */
  lemma OneMonthIsNextMonth(today: Date)
    requires Valid(today) && AddMonths(today, 1).Some?
    ensures NextMonthInterval(today).Some? && Holds(NextMonthInterval(today).value, AddMonths(today, 1).value)
  {
    AddMonthsLands(today, 1);
    NextMonthFollows(today);
  }

  /** Adding in two steps never lands later than in one, and lands on the same day
      exactly when the stop in between clamps no more than the end does. */
  lemma AddMonthsInSteps(today: Date, m: nat, n: nat)
    requires Valid(today) && AddMonths(today, m + n).Some?
    ensures AddMonths(today, m).Some? && AddMonths(AddMonths(today, m).value, n).Some?
    ensures var once, twice := AddMonths(today, m + n).value, AddMonths(AddMonths(today, m).value, n).value;
            && !Before(once, twice)
            && (once == twice <==> once.day <= DaysIn(AddMonths(today, m).value.year, AddMonths(today, m).value.month))
  {
    AddMonthsLands(today, m);
    AddMonthsLands(today, m + n);
    var stop := AddMonths(today, m).value;
    AddMonthsLands(stop, n);
    SameIndex(AddMonths(today, m + n).value, AddMonths(stop, n).value);
  }

  /** 31 January, a month and a month: 28 March instead of 31 March. */
  lemma StepsCanClamp()
    ensures var today := Date(2023, 1, 31);
            && Valid(today)
            && AddMonths(today, 1) == Some(Date(2023, 2, 28))
            && AddMonths(Date(2023, 2, 28), 1) == Some(Date(2023, 3, 28))
            && AddMonths(today, 2) == Some(Date(2023, 3, 31))
  {
  }

  lemma SameIndex(d: Date, e: Date)
    requires Valid(d) && Valid(e) && MonthIndex(d) == MonthIndex(e)
    ensures d.year == e.year && d.month == e.month
  {
  }

  /** Every interval that is found is in order, starts no earlier than this month, and
      a day count spans exactly that many days. */
  lemma IntervalsAreOrdered(r: Request, today: Date)
    requires Valid(today) && SupportedInterval(r, today).Found?
    ensures var i := SupportedInterval(r, today).interval;
            && Valid(i.first) && Valid(i.last) && !Before(i.last, i.first)
            && !Before(i.first, Date(today.year, today.month, 1))
            && (r.Days? ==> 1 <= r.days <= 366 && Ordinal(i.last) - Ordinal(i.first) == r.days)
            && (r.Days? || r.Months? ==> i.first == today)
  {
    match r
    case Months(n) => AddMonthsNotEarlier(today, n);
    case Days(n) =>
      AddDaysOrdinal(today, n);
      BeforeIsOrdinal(AddDays(today, n).value, today);
    case _ =>
  }

  // ---------- requests ----------

  function LastDay(): Date { Date(MAX_YEAR, 12, 31) }

  lemma OrdinalsEnd(d: Date)
    requires Valid(d)
    ensures Ordinal(d) <= Ordinal(LastDay())
    ensures NextDay(d).None? <==> Ordinal(d) == Ordinal(LastDay())
  {
    BeforeIsOrdinal(d, LastDay());
    BeforeIsOrdinal(LastDay(), d);
  }

  /** A day count raises exactly past the last day of year 9999. */
  lemma {:induction false} AddDaysRaises(d: Date, n: nat)
    requires Valid(d)
    ensures AddDays(d, n).Some? <==> Ordinal(d) + n <= Ordinal(LastDay())
  {
    if n == 0 {
      OrdinalsEnd(d);
    } else {
      AddDaysRaises(d, n - 1);
      if AddDays(d, n - 1).Some? {
        AddDaysOrdinal(d, n - 1);
        OrdinalsEnd(AddDays(d, n - 1).value);
      }
    }
  }

  lemma MonthsByIndex(y: int, m: int, d: Date)
    requires 1 <= y <= MAX_YEAR && 1 <= m <= 12 && Valid(d)
    ensures Holds(MonthInterval(y, m).value, d) <==> MonthIndex(d) == 12 * y + m - 1
  {
    MonthIntervalIsTheMonth(y, m, d);
  }

  /** This month is exactly the days of today's month. */
  lemma ThisMonthExactly(today: Date, d: Date)
    requires Valid(today) && Valid(d)
    ensures SupportedInterval(ThisMonth, today).Found?
    ensures Holds(SupportedInterval(ThisMonth, today).interval, d) <==> MonthIndex(d) == MonthIndex(today)
  {
    MonthsByIndex(today.year, today.month, d);
  }

  /** Next month is exactly the days of the month after, and raises after the last one. */
  lemma NextMonthExactly(today: Date, d: Date)
    requires Valid(today) && Valid(d)
    ensures var answer := SupportedInterval(NextMonth, today);
            if today.year == MAX_YEAR && today.month == 12 then answer == Raised
            else answer.Found? && (Holds(answer.interval, d) <==> MonthIndex(d) == MonthIndex(today) + 1)
  {
    if today.month == 12 {
      if today.year < MAX_YEAR {
        MonthsByIndex(today.year + 1, 1, d);
      }
    } else {
      MonthsByIndex(today.year, today.month + 1, d);
    }
  }

  /** The next `n` months run from today to today's day, or the last, of the month `n` later. */
  lemma NextMonthsExactly(today: Date, n: nat)
    requires Valid(today)
    ensures var answer := SupportedInterval(Months(n), today);
            if MonthIndex(today) + n > MonthIndex(LastDay()) then answer == Raised
            else
              && answer.Found? && answer.interval.first == today
              && var last := answer.interval.last;
                 && Valid(last) && MonthIndex(last) == MonthIndex(today) + n
                 && last.day == if today.day <= DaysIn(last.year, last.month) then today.day else DaysIn(last.year, last.month)
  {
    AddMonthsLands(today, n);
  }

  /** The next `n` days, one to 366, run from today to the day `n` later. */
  lemma NextDaysExactly(today: Date, n: nat)
    requires Valid(today)
    ensures var answer := SupportedInterval(Days(n), today);
            if n < 1 || n > 366 then answer == Unsupported
            else if Ordinal(today) + n > Ordinal(LastDay()) then answer == Raised
            else answer.Found? && answer.interval.first == today && Ordinal(answer.interval.last) == Ordinal(today) + n
  {
    AddDaysRaises(today, n);
    if AddDays(today, n).Some? {
      AddDaysOrdinal(today, n);
    }
  }

  /** Nothing else is unsupported. */
  lemma UnsupportedExactly(r: Request, today: Date)
    requires Valid(today)
    ensures SupportedInterval(r, today) == Unsupported <==> r == Nothing || (r.Days? && !(1 <= r.days <= 366))
  {
    match r
    case NextMonth => NextMonthExactly(today, today);
    case ThisMonth => ThisMonthExactly(today, today);
    case Months(n) => NextMonthsExactly(today, n);
    case Days(n) => NextDaysExactly(today, n);
    case Nothing =>
  }

  /** The default payroll period is the month before today's. */
  lemma PreviousMonthExactly(today: Date)
    requires Valid(today)
    ensures match PreviousMonth(today)
            case None => today.year == 1 && today.month == 1
            case Some((y, m)) => 1 <= m <= 12 && 12 * y + m - 1 == MonthIndex(today) - 1
  {
  }
}
