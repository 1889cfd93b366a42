/** UTC calendar time to the second, and the units it is grouped by (crates/utils/src/grouping.rs). */
module Calendar {
  datatype Group = Year | Month | Day | Hour {
    /** The order the groups are declared in: the most granular is the greatest. */
    function Rank(): nat {
      match this
      case Year => 0
      case Month => 1
      case Day => 2
      case Hour => 3
    }
  }

  predicate Leap(year: int) {
    year % 4 == 0 && (year % 100 != 0 || year % 400 == 0)
  }

  function MonthLength(year: int, month: int): int {
    if month == 2 then (if Leap(year) then 29 else 28)
    else if month == 4 || month == 6 || month == 9 || month == 11 then 30
    else 31
  }

  /** A date and time of day in the proleptic Gregorian calendar. */
  datatype Civil = Civil(year: int, month: int, day: int, hour: int, minute: int, second: int) {
    predicate Valid() {
      && 1 <= month <= 12 && 1 <= day <= MonthLength(year, month)
      && 0 <= hour < 24 && 0 <= minute < 60 && 0 <= second < 60
    }
  }

  type Time = c: Civil | c.Valid() witness Civil(1970, 1, 1, 0, 0, 0)

  // ---------- Seconds ----------

  function DaysBeforeYear(year: int): int {
    365 * (year - 1) + (year - 1) / 4 - (year - 1) / 100 + (year - 1) / 400
  }

  function DaysBeforeMonth(year: int, month: int): int {
    if month <= 1 then 0 else DaysBeforeMonth(year, month - 1) + MonthLength(year, month - 1)
  }

  function DayNumber(c: Time): int {
    DaysBeforeYear(c.year) + DaysBeforeMonth(c.year, c.month) + c.day - 1
  }

  function SecondOfDay(c: Time): int {
    c.hour * 3600 + c.minute * 60 + c.second
  }

  /** Where the instant lies on the line of whole seconds. */
  function Seconds(c: Time): int {
    DayNumber(c) * 86400 + SecondOfDay(c)
  }

  function YearLength(year: int): int {
    if Leap(year) then 366 else 365
  }

  lemma QuarterSteps(n: int)
    ensures (n + 1) / 4 == n / 4 + if (n + 1) % 4 == 0 then 1 else 0
  {
  }

  lemma CenturySteps(n: int)
    ensures (n + 1) / 100 == n / 100 + if (n + 1) % 100 == 0 then 1 else 0
    ensures (n + 1) % 100 == 0 ==> (n + 1) % 4 == 0
  {
  }

  lemma CycleSteps(n: int)
    ensures (n + 1) / 400 == n / 400 + if (n + 1) % 400 == 0 then 1 else 0
    ensures (n + 1) % 400 == 0 ==> (n + 1) % 100 == 0
  {
  }

  lemma NextYearStarts(year: int)
    ensures DaysBeforeYear(year + 1) == DaysBeforeYear(year) + YearLength(year)
  {
    QuarterSteps(year - 1);
    CenturySteps(year - 1);
    CycleSteps(year - 1);
  }

  /** The days of the months before each month, with the leap day from March on. */
  lemma MonthsAre(year: int)
    ensures var leapDay := if Leap(year) then 1 else 0;
            && DaysBeforeMonth(year, 1) == 0 && DaysBeforeMonth(year, 2) == 31
            && DaysBeforeMonth(year, 3) == 59 + leapDay && DaysBeforeMonth(year, 4) == 90 + leapDay
            && DaysBeforeMonth(year, 5) == 120 + leapDay && DaysBeforeMonth(year, 6) == 151 + leapDay
            && DaysBeforeMonth(year, 7) == 181 + leapDay && DaysBeforeMonth(year, 8) == 212 + leapDay
            && DaysBeforeMonth(year, 9) == 243 + leapDay && DaysBeforeMonth(year, 10) == 273 + leapDay
            && DaysBeforeMonth(year, 11) == 304 + leapDay && DaysBeforeMonth(year, 12) == 334 + leapDay
  {
    assert DaysBeforeMonth(year, 3) == 31 + MonthLength(year, 2);
    assert DaysBeforeMonth(year, 5) == DaysBeforeMonth(year, 3) + 61;
    assert DaysBeforeMonth(year, 7) == DaysBeforeMonth(year, 5) + 61;
    assert DaysBeforeMonth(year, 9) == DaysBeforeMonth(year, 7) + 62;
    assert DaysBeforeMonth(year, 11) == DaysBeforeMonth(year, 9) + 61;
  }

  lemma MonthsFillYear(year: int)
    ensures DaysBeforeMonth(year, 12) + 31 == YearLength(year)
  {
    MonthsAre(year);
  }

  /** The days before a month in a common year. */
  function CommonDays(month: int): int {
    match month
    case 1 => 0   case 2 => 31  case 3 => 59  case 4 => 90   case 5 => 120  case 6 => 151
    case 7 => 181 case 8 => 212 case 9 => 243 case 10 => 273 case 11 => 304 case _ => 334
  }

  /** The months of a year start where the Gregorian calendar has them. */
  lemma MonthsStart(year: int, month: int)
    requires 1 <= month <= 12
    ensures var leapDay := if year % 400 == 0 || (year % 4 == 0 && year % 100 != 0) then 1 else 0;
            && Seconds(FirstOfMonth(year, month)) ==
               Seconds(FirstOfMonth(year, 1)) + 86400 * (CommonDays(month) + if month > 2 then leapDay else 0)
            && Seconds(FirstOfMonth(year + 1, 1)) == Seconds(FirstOfMonth(year, 1)) + 86400 * (365 + leapDay)
  {
    hide DaysBeforeMonth, DaysBeforeYear;
    MonthsAre(year);
    MonthsAre(year + 1);
    NextYearStarts(year);
    LeapCycle(year);
  }

  lemma LeapCycle(year: int)
    ensures year % 400 == 0 ==> year % 4 == 0
  {}

  lemma {:induction false} YearsApart(year: int, later: int)
    requires year < later
    ensures DaysBeforeYear(year) + YearLength(year) <= DaysBeforeYear(later)
    decreases later - year
  {
    NextYearStarts(later - 1);
    if year < later - 1 {
      YearsApart(year, later - 1);
    }
  }

  lemma {:induction false} MonthsApart(year: int, month: int, later: int)
    requires 1 <= month < later
    ensures 0 <= DaysBeforeMonth(year, month)
    ensures DaysBeforeMonth(year, month) + MonthLength(year, month) <= DaysBeforeMonth(year, later)
    decreases later
  {
    if month < later - 1 {
      MonthsApart(year, month, later - 1);
    } else if month > 1 {
      MonthsApart(year, 1, month);
    }
  }

  /** A day lies inside its year. */
  lemma DayInYear(c: Time)
    ensures DaysBeforeYear(c.year) <= DayNumber(c) < DaysBeforeYear(c.year) + YearLength(c.year)
  {
    MonthsFillYear(c.year);
    if c.month > 1 { MonthsApart(c.year, 1, c.month); }
    if c.month < 12 { MonthsApart(c.year, c.month, 12); }
  }

  /** Field by field, the most significant first. */
  predicate Before(a: Civil, b: Civil) {
    a.year < b.year || (a.year == b.year &&
    (a.month < b.month || (a.month == b.month &&
    (a.day < b.day || (a.day == b.day &&
    (a.hour < b.hour || (a.hour == b.hour &&
    (a.minute < b.minute || (a.minute == b.minute && a.second < b.second)))))))))
  }

  lemma DaysInOrder(a: Time, b: Time)
    requires a.year < b.year || (a.year == b.year && (a.month < b.month || (a.month == b.month && a.day < b.day)))
    ensures DayNumber(a) < DayNumber(b)
  {
    if a.year < b.year {
      DayInYear(a);
      DayInYear(b);
      YearsApart(a.year, b.year);
    } else if a.month < b.month {
      MonthsApart(a.year, a.month, b.month);
    }
  }

  lemma BeforeIsLess(a: Time, b: Time)
    requires Before(a, b)
    ensures Seconds(a) < Seconds(b)
  {
    hide DayNumber;
    if (a.year, a.month, a.day) != (b.year, b.month, b.day) {
      DaysInOrder(a, b);
    } else {
      assert DayNumber(a) == DayNumber(b) by { SameDay(a, b); }
    }
  }

  lemma SameDay(a: Time, b: Time)
    requires a.year == b.year && a.month == b.month && a.day == b.day
    ensures DayNumber(a) == DayNumber(b)
  {
  }

  /** Calendar order is the order of seconds, and no two civil times are the same second. */
  lemma SecondsOrder(a: Time, b: Time)
    ensures Before(a, b) <==> Seconds(a) < Seconds(b)
    ensures a == b <==> Seconds(a) == Seconds(b)
  {
    hide Seconds;
    if Before(a, b) {
      BeforeIsLess(a, b);
    } else if a != b {
      BeforeIsLess(b, a);
    }
  }

  /** Every whole second is some civil time. */
  lemma EverySecond(t: int) returns (c: Time)
    ensures Seconds(c) == t
  {
    var day, rest := t / 86400, t % 86400;
    var year := YearOfDay(day);
    var month := MonthOfDay(year, day - DaysBeforeYear(year));
    var hour, minute, second := ClockAt(rest);
    c := Civil(year, month, day - DaysBeforeYear(year) - DaysBeforeMonth(year, month) + 1, hour, minute, second);
  }

  lemma ClockAt(rest: int) returns (hour: int, minute: int, second: int)
    requires 0 <= rest < 86400
    ensures 0 <= hour < 24 && 0 <= minute < 60 && 0 <= second < 60 && hour * 3600 + minute * 60 + second == rest
  {
    hour, minute, second := rest / 3600, rest % 3600 / 60, rest % 60;
  }

  lemma YearOfDay(day: int) returns (year: int)
    ensures DaysBeforeYear(year) <= day < DaysBeforeYear(year) + YearLength(year)
  {
    year := 1;
    while day >= DaysBeforeYear(year) + YearLength(year)
      invariant DaysBeforeYear(year) <= day || year == 1
      decreases day - DaysBeforeYear(year)
    {
      NextYearStarts(year);
      year := year + 1;
    }
    while day < DaysBeforeYear(year)
      invariant day < DaysBeforeYear(year) + YearLength(year)
      decreases DaysBeforeYear(year) - day
    {
      NextYearStarts(year - 1);
      year := year - 1;
    }
  }

  lemma MonthOfDay(year: int, day: int) returns (month: int)
    requires 0 <= day < YearLength(year)
    ensures 1 <= month <= 12 && DaysBeforeMonth(year, month) <= day < DaysBeforeMonth(year, month) + MonthLength(year, month)
  {
    MonthsFillYear(year);
    month := 12;
    while day < DaysBeforeMonth(year, month)
      invariant 1 <= month <= 12 && day < DaysBeforeMonth(year, month) + MonthLength(year, month)
    {
      month := month - 1;
    }
  }

  // ---------- Steps ----------

  function FirstOfMonth(year: int, month: int): Time
    requires 1 <= month <= 12
  {
    Civil(year, month, 1, 0, 0, 0)
  }

  function NextMonth(c: Time): Time {
    if c.month == 12 then FirstOfMonth(c.year + 1, 1) else FirstOfMonth(c.year, c.month + 1)
  }

  function NextDay(c: Time): Time {
    if c.day < MonthLength(c.year, c.month) then c.(day := c.day + 1)
    else
      var first := NextMonth(c);
      first.(hour := c.hour, minute := c.minute, second := c.second)
  }

  function PreviousDay(c: Time): Time {
    if c.day > 1 then c.(day := c.day - 1)
    else if c.month > 1 then c.(month := c.month - 1, day := MonthLength(c.year, c.month - 1))
    else c.(year := c.year - 1, month := 12, day := 31)
  }

  function NextHour(c: Time): Time {
    if c.hour < 23 then c.(hour := c.hour + 1) else NextDay(c.(hour := 0))
  }

  /** The cursor's next position, by the most granular level grouped by. */
  function Step(c: Time, g: Group): Time {
    match g
    case Hour => NextHour(c)
    case Day => NextDay(c)
    case Month => NextMonth(c)
    case Year => FirstOfMonth(c.year + 1, 1)
  }

  lemma NextMonthStarts(c: Time)
    ensures DayNumber(NextMonth(c)) == DayNumber(c) - c.day + 1 + MonthLength(c.year, c.month)
  {
    if c.month == 12 {
      MonthsFillYear(c.year);
      NextYearStarts(c.year);
    }
  }

  lemma NextDayAdds(c: Time)
    ensures Seconds(NextDay(c)) == Seconds(c) + 86400
  {
    NextMonthStarts(c);
  }

  /** The carrying steps add what they say. */
  lemma StepsAdd(c: Time)
    ensures Seconds(NextDay(c)) == Seconds(c) + 86400
    ensures Seconds(NextHour(c)) == Seconds(c) + 3600
    ensures Seconds(PreviousDay(c)) == Seconds(c) - 86400
  {
    hide Seconds;
    NextDayAdds(c);
    NextHourAdds(c);
    NextDayAdds(PreviousDay(c));
    assert NextDay(PreviousDay(c)) == c;
  }

  lemma NextHourAdds(c: Time)
    ensures Seconds(NextHour(c)) == Seconds(c) + 3600
  {
    hide DayNumber;
    if c.hour == 23 {
      NextDayAdds(c.(hour := 0));
      SameDay(c, c.(hour := 0));
    } else {
      SameDay(c, NextHour(c));
    }
  }

  // ---------- Units ----------

  function StartOf(c: Time, g: Group): Time {
    match g
    case Year => FirstOfMonth(c.year, 1)
    case Month => FirstOfMonth(c.year, c.month)
    case Day => Civil(c.year, c.month, c.day, 0, 0, 0)
    case Hour => Civil(c.year, c.month, c.day, c.hour, 0, 0)
  }

  function EndOf(c: Time, g: Group): Time {
    match g
    case Year => Civil(c.year, 12, 31, 23, 59, 59)
    case Month =>
      var lastDay := PreviousDay(NextMonth(c));
      Civil(lastDay.year, lastDay.month, lastDay.day, 23, 59, 59)
    case Day => Civil(c.year, c.month, c.day, 23, 59, 59)
    case Hour => Civil(c.year, c.month, c.day, c.hour, 59, 59)
  }

  /** The fields down to `g` agree. */
  predicate SameUnit(a: Time, b: Time, g: Group) {
    && a.year == b.year && (g.Rank() >= 1 ==> a.month == b.month)
    && (g.Rank() >= 2 ==> a.day == b.day) && (g.Rank() >= 3 ==> a.hour == b.hour)
  }

  /** A unit is exactly the whole seconds from its start to its end. */
  lemma UnitIsInterval(c: Time, x: Time, g: Group)
    ensures SameUnit(c, x, g) <==> Seconds(StartOf(c, g)) <= Seconds(x) <= Seconds(EndOf(c, g))
    ensures SameUnit(c, x, g) <==> StartOf(c, g) == StartOf(x, g)
  {
    hide Seconds;
    SecondsOrder(x, StartOf(c, g));
    SecondsOrder(EndOf(c, g), x);
  }

  lemma YearsAbut(c: Time)
    ensures Seconds(FirstOfMonth(c.year + 1, 1)) == Seconds(EndOf(c, Year)) + 1
  {
    MonthsFillYear(c.year);
    NextYearStarts(c.year);
  }

  lemma EndOfMonth(c: Time)
    ensures EndOf(c, Month) == Civil(c.year, c.month, MonthLength(c.year, c.month), 23, 59, 59)
  {
  }

  lemma MonthsAbut(c: Time)
    ensures Seconds(NextMonth(c)) == Seconds(EndOf(c, Month)) + 1
  {
    EndOfMonth(c);
    NextMonthStarts(c);
  }

  lemma EndsAreLast(c: Time)
    ensures Seconds(EndOf(c, Day)) == Seconds(StartOf(c, Day)) + 86399
    ensures Seconds(EndOf(c, Hour)) == Seconds(StartOf(c, Hour)) + 3599
  {
  }

  lemma StartOfStep(c: Time)
    ensures StartOf(NextDay(c), Day) == NextDay(StartOf(c, Day))
    ensures StartOf(NextHour(c), Hour) == NextHour(StartOf(c, Hour))
  {
  }

  /** The next unit starts the second after this one ends: with `UnitIsInterval`, units tile time. */
  lemma UnitsAbut(c: Time, g: Group)
    ensures Seconds(StartOf(Step(c, g), g)) == Seconds(EndOf(c, g)) + 1
  {
    hide Seconds;
    EndsAreLast(c);
    StartOfStep(c);
    match g
    case Year => YearsAbut(c);
    case Month => MonthsAbut(c);
    case Day => NextDayAdds(StartOf(c, Day));
    case Hour => StepsAdd(StartOf(c, Hour));
  }

  /** How far into its unit a time lies. */
  function Offset(c: Time, g: Group): int {
    Seconds(c) - Seconds(StartOf(c, g))
  }

  /** Hours and days are added to the cursor, so it stays as far into its unit as it was; the next month or year
      is taken from its start. */
  lemma StepKeepsOffset(c: Time, g: Group)
    ensures Offset(Step(c, g), g) == if g.Day? || g.Hour? then Offset(c, g) else 0
    ensures Seconds(c) < Seconds(Step(c, g))
  {
    hide Seconds;
    StepsAdd(c);
    StepsAdd(StartOf(c, g));
    UnitIsInterval(c, c, g);
    UnitIsInterval(Step(c, g), Step(c, g), g);
    UnitsAbut(c, g);
  }
}
