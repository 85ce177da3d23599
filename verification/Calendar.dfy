/** The generated corpus' calendar: days, weeks and months in the proleptic Gregorian calendar, the
    periods a corpus visits, and when each of its records is filed. */
module Calendar {
  import opened Common

  datatype Date = Date(year: int, month: int, day: int)

  predicate IsLeap(year: int) {
    year % 4 == 0 && (year % 100 != 0 || year % 400 == 0)
  }

  function DaysIn(year: int, month: int): int {
    if month == 2 then if IsLeap(year) then 29 else 28
    else if month == 4 || month == 6 || month == 9 || month == 11 then 30
    else 31
  }

  predicate IsDate(d: Date) {
    d.year >= 1 && 1 <= d.month <= 12 && 1 <= d.day <= DaysIn(d.year, d.month)
  }

  /** Dates compare by year, then month, then day. */
  predicate Before(a: Date, b: Date) {
    a.year < b.year || (a.year == b.year && (a.month < b.month || (a.month == b.month && a.day < b.day)))
  }

  // ---------------------------------------------------------------- days as ordinals

  function DaysBeforeYear(year: int): int
    decreases year
  {
    if year <= 1 then 0 else DaysBeforeYear(year - 1) + YearLength(year - 1)
  }

  function DaysBeforeMonth(year: int, month: int): int
    decreases month
  {
    if month <= 1 then 0 else DaysBeforeMonth(year, month - 1) + DaysIn(year, month - 1)
  }

  /** Day 1 is the first of January of year 1. */
  function Ordinal(d: Date): int {
    DaysBeforeYear(d.year) + DaysBeforeMonth(d.year, d.month) + d.day
  }

  function YearLength(year: int): int {
    if IsLeap(year) then 366 else 365
  }

  lemma MonthsFillTheYear(year: int)
    ensures DaysBeforeMonth(year, 12) + 31 == YearLength(year)
  {
    assert DaysBeforeMonth(year, 2) == 31;
    assert DaysBeforeMonth(year, 4) == DaysBeforeMonth(year, 3) + 31;
    assert DaysBeforeMonth(year, 6) == DaysBeforeMonth(year, 5) + 31;
    assert DaysBeforeMonth(year, 8) == DaysBeforeMonth(year, 7) + 31;
    assert DaysBeforeMonth(year, 10) == DaysBeforeMonth(year, 9) + 30;
    assert DaysBeforeMonth(year, 12) == DaysBeforeMonth(year, 11) + 30;
  }

  lemma YearsFollow(year: int)
    requires year >= 1
    ensures DaysBeforeYear(year + 1) == DaysBeforeYear(year) + YearLength(year)
  {
  }

  function Quotients(y: int): int {
    y / 4 - y / 100 + y / 400
  }

  lemma OneMoreYear(y: int)
    ensures Quotients(y) - Quotients(y - 1) == if IsLeap(y) then 1 else 0
  {
    assert y / 4 - (y - 1) / 4 == if y % 4 == 0 then 1 else 0;
    assert y / 100 - (y - 1) / 100 == if y % 100 == 0 then 1 else 0;
    assert y / 400 - (y - 1) / 400 == if y % 400 == 0 then 1 else 0;
    MultiplesNest(y);
  }

  lemma MultiplesNest(y: int)
    ensures y % 400 == 0 ==> y % 100 == 0
    ensures y % 100 == 0 ==> y % 4 == 0
  {
  }

  /** The closed form of the Gregorian rule. */
  lemma {:induction false} DaysBeforeYearInClosedForm(year: int)
    requires year >= 1
    ensures DaysBeforeYear(year) == (year - 1) * 365 + Quotients(year - 1)
    decreases year
  {
    if year > 1 {
      DaysBeforeYearInClosedForm(year - 1);
      OneMoreYear(year - 1);
    }
  }

  /** The days before a month in closed form. */
  lemma MonthsInClosedForm(year: int, month: int)
    requires 1 <= month <= 12
    ensures DaysBeforeMonth(year, month) ==
            (367 * month - 362) / 12 - if month <= 2 then 0 else if IsLeap(year) then 1 else 2
  {
    assert DaysBeforeMonth(year, 2) == 31;
    assert DaysBeforeMonth(year, 4) == DaysBeforeMonth(year, 2) + DaysIn(year, 2) + 31;
    assert DaysBeforeMonth(year, 6) == DaysBeforeMonth(year, 4) + 61;
    assert DaysBeforeMonth(year, 8) == DaysBeforeMonth(year, 6) + 61;
    assert DaysBeforeMonth(year, 10) == DaysBeforeMonth(year, 8) + 61;
    assert DaysBeforeMonth(year, 12) == DaysBeforeMonth(year, 10) + 61;
  }

  lemma {:induction false} MonthsGrow(year: int, m: int, n: int)
    requires 1 <= m <= n
    ensures DaysBeforeMonth(year, m) <= DaysBeforeMonth(year, n)
    ensures m < n ==> DaysBeforeMonth(year, m) + DaysIn(year, m) <= DaysBeforeMonth(year, n)
    decreases n
  {
    if m < n {
      MonthsGrow(year, m, n - 1);
    }
  }

  lemma {:induction false} YearsGrow(a: int, b: int)
    requires 1 <= a <= b
    ensures DaysBeforeYear(a) <= DaysBeforeYear(b)
    decreases b - a
  {
    if a < b {
      YearsFollow(a);
      YearsGrow(a + 1, b);
    }
  }

  lemma DayWithinItsYear(d: Date)
    requires IsDate(d)
    ensures DaysBeforeYear(d.year) < Ordinal(d) <= DaysBeforeYear(d.year + 1)
  {
    MonthsGrow(d.year, 1, d.month);
    MonthsGrow(d.year, d.month, 12);
    MonthsFillTheYear(d.year);
    YearsFollow(d.year);
  }

  lemma EarlierDateLesserOrdinal(a: Date, b: Date)
    requires IsDate(a) && IsDate(b) && Before(a, b)
    ensures Ordinal(a) < Ordinal(b)
  {
    if a.year < b.year {
      DayWithinItsYear(a);
      DayWithinItsYear(b);
      YearsGrow(a.year + 1, b.year);
    } else if a.month < b.month {
      MonthsGrow(a.year, a.month, b.month);
    }
  }

  /** Comparing dates is comparing ordinals, so a date is determined by its ordinal. */
  lemma OrdinalsOrderDates(a: Date, b: Date)
    requires IsDate(a) && IsDate(b)
    ensures Before(a, b) <==> Ordinal(a) < Ordinal(b)
    ensures a == b <==> Ordinal(a) == Ordinal(b)
  {
    if Before(a, b) {
      EarlierDateLesserOrdinal(a, b);
    } else if a != b {
      EarlierDateLesserOrdinal(b, a);
    }
  }

  // ---------------------------------------------------------------- adding days

  function NextDay(d: Date): Date {
    if d.day < DaysIn(d.year, d.month) then d.(day := d.day + 1)
    else FirstOfNextMonth(d)
  }

  function FirstOfNextMonth(d: Date): Date {
    if d.month < 12 then Date(d.year, d.month + 1, 1) else Date(d.year + 1, 1, 1)
  }

  function PreviousDay(d: Date): Date {
    if d.day > 1 then d.(day := d.day - 1)
    else if d.month > 1 then Date(d.year, d.month - 1, DaysIn(d.year, d.month - 1))
    else Date(d.year - 1, 12, 31)
  }

  lemma NextDayIsOneLater(d: Date)
    requires IsDate(d)
    ensures IsDate(NextDay(d)) && Ordinal(NextDay(d)) == Ordinal(d) + 1
  {
    if d.day == DaysIn(d.year, d.month) && d.month == 12 {
      NewYearsEve(d.year);
    }
  }

  lemma PreviousDayIsOneEarlier(d: Date)
    requires IsDate(d) && Ordinal(d) > 1
    ensures IsDate(PreviousDay(d)) && Ordinal(PreviousDay(d)) == Ordinal(d) - 1
  {
    if d.day == 1 && d.month == 1 {
      assert d.year > 1;
      NewYearsEve(d.year - 1);
    }
  }

  lemma NewYearsEve(year: int)
    requires year >= 1
    ensures Ordinal(Date(year, 12, 31)) + 1 == Ordinal(Date(year + 1, 1, 1))
  {
    MonthsFillTheYear(year);
    YearsFollow(year);
  }

  /** `date + timedelta(days=n)`. */
  function AddDays(d: Date, n: nat): (r: Date)
    requires IsDate(d)
    ensures IsDate(r) && Ordinal(r) == Ordinal(d) + n
    decreases n
  {
    if n == 0 then d
    else
      NextDayIsOneLater(d);
      AddDays(NextDay(d), n - 1)
  }

  /** `date - timedelta(days=n)`; there is no day before day 1. */
  function SubtractDays(d: Date, n: nat): (r: Date)
    requires IsDate(d) && n < Ordinal(d)
    ensures IsDate(r) && Ordinal(r) == Ordinal(d) - n
    decreases n
  {
    if n == 0 then d
    else
      PreviousDayIsOneEarlier(d);
      SubtractDays(PreviousDay(d), n - 1)
  }

  // ---------------------------------------------------------------- periods

  datatype Every = Day | Week | Month

  /** Monday is 0; day 1 was a Monday. */
  function Weekday(d: Date): nat {
    (Ordinal(d) + 6) % 7
  }

  /** Weekdays follow each other ... */
  lemma WeekdaysFollow(d: Date)
    requires IsDate(d)
    ensures Weekday(NextDay(d)) == (Weekday(d) + 1) % 7
  {
    NextDayIsOneLater(d);
    RemainderOfOneMore(Ordinal(d) + 6);
  }

  lemma RemainderOfOneMore(n: int)
    ensures (n + 1) % 7 == (n % 7 + 1) % 7
  {
  }

  /** ... from the first of January 2000, a Saturday. */
  lemma TheYear2000BeganOnASaturday(year: int)
    requires year == 2000
    ensures Weekday(Date(year, 1, 1)) == 5
  {
    DaysBeforeYearInClosedForm(year);
    assert Quotients(year - 1) == 484;
    assert DaysBeforeYear(year) == 730119;
    assert Ordinal(Date(year, 1, 1)) == 730120;
  }

  lemma OrdinalsArePositive(d: Date)
    requires IsDate(d)
    ensures Ordinal(d) >= 1 && Weekday(d) < Ordinal(d)
  {
    YearsGrow(1, d.year);
    DayWithinItsYear(d);
  }

  function PeriodStart(day: Date, every: Every): (r: Date)
    requires IsDate(day)
    ensures IsDate(r)
  {
    match every
    case Day => day
    case Week => OrdinalsArePositive(day); SubtractDays(day, Weekday(day))
    case Month => day.(day := 1)
  }

  function Next(day: Date, every: Every): (r: Date)
    requires IsDate(day)
    ensures IsDate(r)
  {
    match every
    case Day => AddDays(day, 1)
    case Week => AddDays(day, 7)
    case Month => AddDays(day.(day := 28), 4).(day := 1)
  }

  /** Going to the 28th and four days on always lands in the following month. */
  lemma NextMonthIsTheFollowingMonth(day: Date)
    requires IsDate(day)
    ensures Next(day, Month) == FirstOfNextMonth(day)
  {
    var d28 := day.(day := 28);
    var d29 := NextDay(d28);
    var d30 := NextDay(d29);
    var d31 := NextDay(d30);
    NextDayIsOneLater(d28);
    NextDayIsOneLater(d29);
    NextDayIsOneLater(d30);
    assert AddDays(d28, 4) == AddDays(d29, 3) == AddDays(d30, 2) == AddDays(d31, 1) == NextDay(d31) by {
      NextDayIsOneLater(d31);
    }
  }

  predicate IsStart(p: Date, every: Every)
    requires IsDate(p)
  {
    PeriodStart(p, every) == p
  }

  predicate Within(p: Date, x: Date, every: Every)
    requires IsDate(p)
  {
    !Before(x, p) && Before(x, Next(p, every))
  }

  function MondayOf(ordinal: int): int {
    ordinal - (ordinal + 6) % 7
  }

  lemma WeekStartsOnItsMonday(day: Date)
    requires IsDate(day)
    ensures Ordinal(PeriodStart(day, Week)) == MondayOf(Ordinal(day))
  {
    OrdinalsArePositive(day);
  }

  lemma WeeksHoldTheirOwnDays(monday: int, x: int)
    requires MondayOf(monday) == monday
    ensures monday <= x < monday + 7 <==> MondayOf(x) == monday
    ensures MondayOf(monday + 7) == monday + 7
  {
  }

  lemma MondaysAreTheirOwn(x: int)
    ensures MondayOf(MondayOf(x)) == MondayOf(x)
  {
  }

  lemma IsMonday(p: Date)
    requires IsDate(p)
    ensures IsStart(p, Week) <==> MondayOf(Ordinal(p)) == Ordinal(p)
  {
    WeekStartsOnItsMonday(p);
    OrdinalsOrderDates(PeriodStart(p, Week), p);
  }

  lemma StartsStart(day: Date, every: Every)
    requires IsDate(day)
    ensures IsStart(PeriodStart(day, every), every)
  {
    if every == Week {
      WeekStartsOnItsMonday(day);
      MondaysAreTheirOwn(Ordinal(day));
      IsMonday(PeriodStart(day, Week));
    }
  }

  lemma NextMondayStarts(p: Date)
    requires IsDate(p) && IsStart(p, Week)
    ensures IsStart(Next(p, Week), Week)
  {
    IsMonday(p);
    IsMonday(Next(p, Week));
    WeeksHoldTheirOwnDays(Ordinal(p), Ordinal(p));
  }

  lemma NextIsLater(p: Date, every: Every)
    requires IsDate(p) && IsStart(p, every)
    ensures Before(p, Next(p, every))
  {
    if every == Month {
      NextMonthIsTheFollowingMonth(p);
    } else {
      OrdinalsOrderDates(p, Next(p, every));
    }
  }

  lemma NextOfAStart(p: Date, every: Every)
    requires IsDate(p) && IsStart(p, every)
    ensures IsStart(Next(p, every), every)
    ensures Before(p, Next(p, every)) && Ordinal(p) + 1 <= Ordinal(Next(p, every))
  {
    if every == Week {
      NextMondayStarts(p);
    }
    NextIsLater(p, every);
    EarlierDateLesserOrdinal(p, Next(p, every));
  }

  /** A period is exactly the days that start in it. */
  lemma PeriodsHoldTheirOwnDays(p: Date, x: Date, every: Every)
    requires IsDate(p) && IsStart(p, every) && IsDate(x)
    ensures Within(p, x, every) <==> PeriodStart(x, every) == p
  {
    match every {
      case Day =>
        OrdinalsOrderDates(x, p);
        OrdinalsOrderDates(x, Next(p, Day));
      case Week =>
        OrdinalsOrderDates(x, p);
        OrdinalsOrderDates(x, Next(p, Week));
        IsMonday(p);
        WeekStartsOnItsMonday(x);
        WeeksHoldTheirOwnDays(Ordinal(p), Ordinal(x));
        OrdinalsOrderDates(PeriodStart(x, Week), p);
      case Month =>
        NextMonthIsTheFollowingMonth(p);
    }
  }

  // ---------------------------------------------------------------- the periods a corpus visits

  /** A record: its period, the hour it is filed (24 to a day), and its session's month. */
  datatype Filing = Filing(period: Date, hour: int, session: (int, int))

  datatype Visit = NoSuchDate | Visited(filings: seq<Filing>)

  function Hour(d: Date): int {
    Ordinal(d) * 24
  }

  const LAST_YEAR := 9999

  /** Whether there is a `date` of this year, month and day. */
  predicate Exists(d: Date) {
    IsDate(d) && d.year <= LAST_YEAR
  }

  /** The same day some years before. */
  function YearsBefore(today: Date, years: int): Date {
    today.(year := today.year - years)
  }

  /** There is such a day, in the years there are, unless it is a leap day and that year has none. */
  lemma TheFirstDayExistsExactlyWhen(today: Date, years: int, first: Date)
    requires IsDate(today) && first == YearsBefore(today, years)
    ensures first.year + years == today.year && first.month == today.month && first.day == today.day
    ensures Exists(first) <==>
              && 1 <= today.year - years <= 9999
              && (today.month == 2 && today.day == 29 ==>
                    first.year % 4 == 0 && (first.year % 100 != 0 || first.year % 400 == 0))
  {
  }

  function FilingOf(day: Date, every: Every, today: Date): Filing
    requires IsDate(day)
  {
    Filing(day, Min(Hour(Next(day, every)), Hour(today)) - 6, (day.year, day.month))
  }

  /** Consecutive periods from `start`, all before today. */
  ghost predicate Follow(filings: seq<Filing>, start: Date, today: Date, every: Every) {
    && (forall i :: 0 <= i < |filings| ==>
          && IsDate(filings[i].period) && IsStart(filings[i].period, every)
          && Before(filings[i].period, today))
    && (forall i :: 0 <= i < |filings| - 1 ==> filings[i + 1].period == Next(filings[i].period, every))
    && (filings != [] ==> filings[0].period == start)
  }

  /** Where the loop stands: the next period to visit. */
  ghost predicate Reaches(filings: seq<Filing>, start: Date, day: Date, today: Date, every: Every) {
    && Follow(filings, start, today, every)
    && day == if filings == [] then start else Next(filings[|filings| - 1].period, every)
  }

  /** ... and the last of them reaches today. */
  ghost predicate Tiles(filings: seq<Filing>, start: Date, today: Date, every: Every) {
    && Follow(filings, start, today, every)
    && (if filings == [] then !Before(start, today)
        else !Before(Next(filings[|filings| - 1].period, every), today))
  }

  ghost predicate AreFiled(filings: seq<Filing>, today: Date, every: Every) {
    forall filing :: filing in filings ==> IsDate(filing.period) && filing == FilingOf(filing.period, every, today)
  }

  lemma VisitOneMore(filings: seq<Filing>, filing: Filing, start: Date, day: Date, today: Date, every: Every)
    requires Reaches(filings, start, day, today, every)
    requires filing.period == day && IsDate(day) && IsStart(day, every) && Before(day, today)
    ensures Reaches(filings + [filing], start, Next(day, every), today, every)
  {
    var all := filings + [filing];
    forall i | 0 <= i < |all|
      ensures IsDate(all[i].period) && IsStart(all[i].period, every) && Before(all[i].period, today)
    {
      assert i < |filings| ==> all[i] == filings[i];
    }
    forall i | 0 <= i < |all| - 1
      ensures all[i + 1].period == Next(all[i].period, every)
    {
      assert i + 1 < |filings| ==> filings[i + 1].period == Next(filings[i].period, every);
    }
  }

  /** One kind's records, period by period, until the next period would start today or later. */
  method VisitPeriods(today: Date, years: int, every: Every) returns (r: Visit)
    requires IsDate(today)
    ensures r.NoSuchDate? <==> !Exists(YearsBefore(today, years))
    ensures r.Visited? ==>
              && Tiles(r.filings, PeriodStart(YearsBefore(today, years), every), today, every)
              && AreFiled(r.filings, today, every)
  {
    var first := YearsBefore(today, years);
    if !Exists(first) {
      return NoSuchDate;
    }
    var day := PeriodStart(first, every);
    ghost var start := day;
    StartsStart(first, every);
    var filings: seq<Filing> := [];
    while Before(day, today)
      invariant IsDate(day) && IsStart(day, every)
      invariant Reaches(filings, start, day, today, every)
      invariant AreFiled(filings, today, every)
      decreases Ordinal(today) - Ordinal(day)
    {
      var filing := FilingOf(day, every, today);
      VisitOneMore(filings, filing, start, day, today, every);
      NextOfAStart(day, every);
      EarlierDateLesserOrdinal(day, today);
      filings := filings + [filing];
      day := Next(day, every);
    }
    r := Visited(filings);
  }

  lemma ConsecutivePeriods(filings: seq<Filing>, start: Date, today: Date, every: Every, i: nat)
    requires Follow(filings, start, today, every) && i + 1 < |filings|
    ensures Ordinal(filings[i].period) < Ordinal(filings[i + 1].period) == Ordinal(Next(filings[i].period, every))
  {
    NextOfAStart(filings[i].period, every);
  }

  /** Periods laid end to end: a later one starts no sooner than an earlier one ends. */
  lemma {:induction false} EndToEnd(starts: seq<int>, ends: seq<int>, i: nat, j: nat)
    requires |starts| == |ends| && i < j < |starts|
    requires forall n :: 0 <= n < |starts| - 1 ==> starts[n] < starts[n + 1] == ends[n]
    ensures ends[i] <= starts[j]
    decreases j
  {
    if i + 1 < j {
      EndToEnd(starts, ends, i, j - 1);
    }
  }

  lemma LaterFilingsStartLater(filings: seq<Filing>, start: Date, today: Date, every: Every, i: nat, j: nat)
    requires Follow(filings, start, today, every)
    requires i < j < |filings|
    ensures Ordinal(Next(filings[i].period, every)) <= Ordinal(filings[j].period)
  {
    var starts := seq(|filings|, n requires 0 <= n < |filings| => Ordinal(filings[n].period));
    var ends := seq(|filings|, n requires 0 <= n < |filings| && IsDate(filings[n].period) =>
      Ordinal(Next(filings[n].period, every)));
    forall n | 0 <= n < |filings| - 1
      ensures starts[n] < starts[n + 1] == ends[n]
    {
      ConsecutivePeriods(filings, start, today, every, n);
    }
    EndToEnd(starts, ends, i, j);
  }

  /** Every day from the first period up to yesterday lies in exactly one visited period: the one it
      starts in. */
  lemma VisitedPeriodsTileTheTimeline(filings: seq<Filing>, start: Date, today: Date, every: Every, x: Date)
    requires IsDate(start) && IsDate(today) && IsDate(x)
    requires Tiles(filings, start, today, every)
    requires !Before(x, start) && Before(x, today)
    ensures exists i :: 0 <= i < |filings| && Within(filings[i].period, x, every)
                        && forall j :: 0 <= j < |filings| && Within(filings[j].period, x, every) ==> j == i
  {
    OrdinalsOrderDates(x, start);
    OrdinalsOrderDates(start, today);
    OrdinalsOrderDates(x, today);
    var i := PeriodHolding(filings, start, today, every, x);
    forall j | 0 <= j < |filings| && Within(filings[j].period, x, every)
      ensures j == i
    {
      PeriodsHoldTheirOwnDays(filings[i].period, x, every);
      PeriodsHoldTheirOwnDays(filings[j].period, x, every);
      var low, high := if i < j then i else j, if i < j then j else i;
      if low < high {
        LaterFilingsStartLater(filings, start, today, every, low, high);
        NextOfAStart(filings[low].period, every);
        assert false;
      }
    }
  }

  lemma PeriodHolding(filings: seq<Filing>, start: Date, today: Date, every: Every, x: Date) returns (i: nat)
    requires IsDate(start) && IsDate(today) && IsDate(x)
    requires Tiles(filings, start, today, every) && filings != []
    requires !Before(x, start) && Before(x, today)
    ensures i < |filings| && Within(filings[i].period, x, every)
  {
    i := 0;
    while !Before(x, Next(filings[i].period, every))
      invariant i < |filings| && !Before(x, filings[i].period)
      decreases |filings| - i
    {
      if i == |filings| - 1 {
        var end := Next(filings[i].period, every);
        OrdinalsOrderDates(end, today);
        OrdinalsOrderDates(x, today);
        OrdinalsOrderDates(x, end);
        assert false;
      }
      assert filings[i + 1].period == Next(filings[i].period, every);
      i := i + 1;
    }
  }

  /** Each record is filed inside its own period and before today, six hours before whichever ends first. */
  lemma RecordsAreFiledInTheirPeriod(day: Date, every: Every, today: Date)
    requires IsDate(day) && IsDate(today) && IsStart(day, every) && Before(day, today)
    ensures Hour(day) <= FilingOf(day, every, today).hour < Hour(Next(day, every))
    ensures FilingOf(day, every, today).hour < Hour(today)
    ensures var hour := FilingOf(day, every, today).hour + 6; hour == Hour(Next(day, every)) || hour == Hour(today)
    ensures FilingOf(day, every, today).period == day
  {
    NextOfAStart(day, every);
    OrdinalsOrderDates(day, today);
  }

  /** A session holds exactly the records whose period starts in its calendar month. */
  lemma SessionsHoldTheirMonthsPeriods(day: Date, every: Every, today: Date, month: Date)
    requires IsDate(day) && IsDate(month) && IsStart(month, Month)
    ensures FilingOf(day, every, today).session == (month.year, month.month) <==> Within(month, day, Month)
  {
    PeriodsHoldTheirOwnDays(month, day, Month);
  }

  // ---------------------------------------------------------------- periods relative to the run's date

  datatype Period = Period(monthsAgo: Option<int>, yearOffset: Option<int>, quarter: Option<int>, month: Option<int>)

  function MonthIndex(d: Date): int {
    d.year * 12 + d.month - 1
  }

  /** The month some months before today's, borrowing a year at a time. */
  method MonthsBefore(today: Date, monthsAgo: int) returns (year: int, month: int)
    requires IsDate(today)
    ensures year * 12 + month - 1 == MonthIndex(today) - monthsAgo
    ensures if today.month - monthsAgo > 12 then year == today.year && month == today.month - monthsAgo
            else 1 <= month <= 12
  {
    year, month := today.year, today.month - monthsAgo;
    while month < 1
      invariant year * 12 + month - 1 == MonthIndex(today) - monthsAgo
      invariant month <= 12 || (year == today.year && month == today.month - monthsAgo)
      decreases -month
    {
      year, month := year - 1, month + 12;
    }
  }

  predicate InYearPart(day: Date, period: Period, today: Date) {
    && day.year == today.year + (if period.yearOffset.Some? then period.yearOffset.value else 0)
    && (if period.quarter.Some? then 3 * period.quarter.value - 2 <= day.month <= 3 * period.quarter.value
        else if period.month.Some? then day.month == period.month.value
        else true)
  }

  method InPeriod(day: Date, period: Period, today: Date) returns (inside: bool)
    requires IsDate(day) && IsDate(today)
    ensures period.monthsAgo.None? ==> (inside <==> InYearPart(day, period, today))
    ensures period.monthsAgo.Some? ==> inside == IsMonthsAgo(day, period.monthsAgo.value, today)
  {
    if period.monthsAgo.Some? {
      var y, m := MonthsBefore(today, period.monthsAgo.value);
      return day.year == y && day.month == m;
    }
    if day.year != today.year + (if period.yearOffset.Some? then period.yearOffset.value else 0) {
      return false;
    }
    if period.quarter.Some? {
      return (day.month - 1) / 3 + 1 == period.quarter.value;
    }
    if period.month.Some? {
      return day.month == period.month.value;
    }
    return true;
  }

  /** A quarter is three months, the first from January; a year has four, and a month is one of twelve. */
  lemma YearPartsAreMonths(day: Date, period: Period, today: Date)
    requires IsDate(day) && period.yearOffset.Some?
    ensures InYearPart(day, period, today) ==> day.year - today.year == period.yearOffset.value
    ensures day.year - today.year == period.yearOffset.value ==>
              && (period.quarter.None? && period.month.None? ==> InYearPart(day, period, today))
              && (period.quarter.None? && period.month.Some? ==>
                    (InYearPart(day, period, today) <==> period.month.value == day.month))
              && (period.quarter == Some(1) ==> (InYearPart(day, period, today) <==> day.month in {1, 2, 3}))
              && (period.quarter == Some(2) ==> (InYearPart(day, period, today) <==> day.month in {4, 5, 6}))
              && (period.quarter == Some(3) ==> (InYearPart(day, period, today) <==> day.month in {7, 8, 9}))
              && (period.quarter == Some(4) ==> (InYearPart(day, period, today) <==> day.month in {10, 11, 12}))
              && (period.quarter.Some? && !(1 <= period.quarter.value <= 4) ==> !InYearPart(day, period, today))
    ensures InYearPart(day, period.(yearOffset := None), today) <==>
              InYearPart(day, period.(yearOffset := Some(0)), today)
  {
  }

  predicate IsMonthsAgo(day: Date, monthsAgo: int, today: Date) {
    today.month - monthsAgo <= 12 && MonthIndex(day) == MonthIndex(today) - monthsAgo
  }

  /** The borrowing loop is subtraction on a month index exactly when it is not asked for a month
      beyond this year's December: such a future month holds no day at all. */
  lemma MonthsAgoIsMonthSubtractionExactlyWhen(monthsAgo: int, today: Date)
    requires IsDate(today)
    ensures (forall day :: IsDate(day) ==>
               (IsMonthsAgo(day, monthsAgo, today) <==> MonthIndex(day) == MonthIndex(today) - monthsAgo))
            <==> today.month - monthsAgo <= 12
  {
    if today.month - monthsAgo > 12 {
      var index := MonthIndex(today) - monthsAgo;
      var day := Date(index / 12, index % 12 + 1, 1);
      assert IsDate(day) && MonthIndex(day) == index;
      assert !IsMonthsAgo(day, monthsAgo, today);
    }
  }
}
