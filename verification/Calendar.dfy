/** Civil dates as day numbers of the proleptic Gregorian calendar (day 1 is Monday,
    1 January of year 1), with the parts of the JavaScript Date interface that the numbering
    code uses, on one clock without daylight saving. */
module Calendar {

  type Day = d: int | 1 <= d witness 1

  function Jan1(year: nat): int {
    var y := year - 1;
    365 * y + y / 4 - y / 100 + y / 400 + 1
  }

  predicate Leap(year: nat) { year % 4 == 0 && (year % 100 != 0 || year % 400 == 0) }

  function YearLength(year: nat): nat { if Leap(year) then 366 else 365 }

  lemma NextFourth(year: nat)
    requires year >= 1
    ensures year / 4 == (year - 1) / 4 + if year % 4 == 0 then 1 else 0
  {
  }

  lemma NextHundredth(year: nat)
    requires year >= 1
    ensures year / 100 == (year - 1) / 100 + if year % 100 == 0 then 1 else 0
    ensures year % 100 == 0 ==> year % 4 == 0
  {
  }

  lemma NextFourHundredth(year: nat)
    requires year >= 1
    ensures year / 400 == (year - 1) / 400 + if year % 400 == 0 then 1 else 0
    ensures year % 400 == 0 ==> year % 100 == 0
  {
  }

  lemma NextYear(year: nat)
    requires year >= 1
    ensures Jan1(year + 1) == Jan1(year) + YearLength(year)
  {
    NextFourth(year);
    NextHundredth(year);
    NextFourHundredth(year);
  }

  lemma {:induction false} YearsAscend(a: nat, b: nat)
    requires 1 <= a <= b
    ensures Jan1(a) + 365 * (b - a) <= Jan1(b)
    decreases b - a
  {
    hide Jan1;
    if a < b {
      NextYear(a);
      YearsAscend(a + 1, b);
    }
  }

  /** getFullYear(). */
  function YearOf(d: Day): (y: nat)
    ensures 1 <= y && Jan1(y) <= d < Jan1(y + 1)
  {
    YearFrom(d, 1)
  }

  function YearFrom(d: Day, y: nat): (r: nat)
    requires 1 <= y && Jan1(y) <= d
    ensures y <= r && Jan1(r) <= d < Jan1(r + 1)
    decreases d - Jan1(y)
  {
    NextYear(y);
    if d < Jan1(y + 1) then y else YearFrom(d, y + 1)
  }

  lemma YearIsUnique(d: Day, y: nat)
    requires 1 <= y && Jan1(y) <= d < Jan1(y + 1)
    ensures YearOf(d) == y
  {
    hide Jan1;
    if YearOf(d) < y {
      YearsAscend(YearOf(d) + 1, y);
    } else if y < YearOf(d) {
      YearsAscend(y + 1, YearOf(d));
    }
  }

  lemma YearMonotone(a: Day, b: Day)
    requires a <= b
    ensures YearOf(a) <= YearOf(b)
  {
    hide Jan1;
    if YearOf(b) < YearOf(a) {
      YearsAscend(YearOf(b) + 1, YearOf(a));
    }
  }

  // ------------------------------------------------------------------ months

  /** Days before month `m`, counted from 0 as in getMonth(). */
  function DaysBefore(leap: bool, m: nat): nat
    requires m <= 12
  {
    var extra := if leap then 1 else 0;
    match m
    case 0 => 0
    case 1 => 31
    case 2 => 59 + extra
    case 3 => 90 + extra
    case 4 => 120 + extra
    case 5 => 151 + extra
    case 6 => 181 + extra
    case 7 => 212 + extra
    case 8 => 243 + extra
    case 9 => 273 + extra
    case 10 => 304 + extra
    case 11 => 334 + extra
    case 12 => 365 + extra
  }

  function MonthStart(year: nat, m: nat): int
    requires m <= 12
  {
    Jan1(year) + DaysBefore(Leap(year), m)
  }

  /** getMonth(). */
  function MonthOf(d: Day): (m: nat)
    ensures m < 12 && MonthStart(YearOf(d), m) <= d < MonthStart(YearOf(d), m + 1)
  {
    NextYear(YearOf(d));
    MonthFrom(Leap(YearOf(d)), d - Jan1(YearOf(d)), 0)
  }

  /** The month, from `m` on, of the day `offset` days after 1 January. */
  function MonthFrom(leap: bool, offset: nat, m: nat): (r: nat)
    requires m < 12 && DaysBefore(leap, m) <= offset < DaysBefore(leap, 12)
    ensures m <= r < 12 && DaysBefore(leap, r) <= offset < DaysBefore(leap, r + 1)
    decreases 12 - m, offset
  {
    if offset < DaysBefore(leap, m + 1) then m else MonthFrom(leap, offset, m + 1)
  }

  /** getDate(). */
  function DateOf(d: Day): (n: nat)
    ensures 1 <= n <= 31
  {
    d - MonthStart(YearOf(d), MonthOf(d)) + 1
  }

  lemma MonthMonotone(a: Day, b: Day)
    requires a <= b && YearOf(a) == YearOf(b)
    ensures MonthOf(a) <= MonthOf(b)
  {
    hide MonthOf, YearOf, Jan1, DaysBefore;
    if MonthOf(b) < MonthOf(a) {
      MonthsAscend(Leap(YearOf(a)), MonthOf(b) + 1, MonthOf(a));
    }
  }

  lemma MonthsAscend(leap: bool, i: nat, j: nat)
    requires i <= j <= 12
    ensures DaysBefore(leap, i) <= DaysBefore(leap, j)
  {
  }

  /** getDay(): 0 is Sunday. */
  function WeekdayOf(d: Day): nat { d % 7 }

  /** The year that `new Date(year, ...)` means: years 0 to 99 stand for 1900 to 1999. */
  function ConstructorYear(year: nat): nat { if year <= 99 then 1900 + year else year }

  /** new Date(year, month, date). */
  function NewDate(year: nat, month: nat, date: nat): int
    requires month < 12
  {
    MonthStart(ConstructorYear(year), month) + date - 1
  }

  predicate SameDayLocal(a: Day, b: Day) {
    YearOf(a) == YearOf(b) && MonthOf(a) == MonthOf(b) && DateOf(a) == DateOf(b)
  }

  /** Year, month and date together determine the day. */
  lemma SameDayIff(a: Day, b: Day)
    ensures SameDayLocal(a, b) <==> a == b
  {
  }

  /** The number of days of a month, counted from 0. */
  function MonthLength(year: nat, m: nat): nat
    requires m < 12
  {
    if m == 1 then YearLength(year) - 337 else if m in {3, 5, 8, 10} then 30 else 31
  }

  lemma MonthsAddUp(year: nat, m: nat)
    requires m < 12
    ensures DaysBefore(Leap(year), m) + MonthLength(year, m) == DaysBefore(Leap(year), m + 1)
    ensures DaysBefore(Leap(year), 0) == 0 && DaysBefore(Leap(year), 12) == YearLength(year)
  {
  }

  lemma CivilDayIsUnique(d: Day, y: nat, m: nat, n: nat)
    requires y >= 1 && m < 12 && 1 <= n <= MonthLength(y, m) && d == MonthStart(y, m) + n - 1
    ensures YearOf(d) == y && MonthOf(d) == m && DateOf(d) == n
  {
    hide Jan1, DaysBefore, MonthLength, Leap, YearLength, YearOf, MonthOf;
    MonthsAddUp(y, m);
    NextYear(y);
    MonthsAscend(Leap(y), 0, m);
    MonthsAscend(Leap(y), m + 1, 12);
    YearIsUnique(d, y);
    if MonthOf(d) < m {
      MonthsAscend(Leap(y), MonthOf(d) + 1, m);
    } else if MonthOf(d) > m {
      MonthsAscend(Leap(y), m + 1, MonthOf(d));
    }
  }

  /** The day after the civil date (y, m, n). */
  function NextDate(y: nat, m: nat, n: nat): (nat, nat, nat) {
    var february := if y % 4 == 0 && (y % 100 != 0 || y % 400 == 0) then 29 else 28;
    var length := if m == 1 then february else if m == 3 || m == 5 || m == 8 || m == 10 then 30 else 31;
    if n < length then (y, m, n + 1) else if m < 11 then (y, m + 1, 1) else (y + 1, 0, 1)
  }

  /** The Gregorian calendar one day after another: with FirstDay, this determines the date of
      every day. */
  lemma NextCivilDay(d: Day)
    ensures (YearOf(d + 1), MonthOf(d + 1), DateOf(d + 1)) == NextDate(YearOf(d), MonthOf(d), DateOf(d))
  {
    var y, m, n := YearOf(d), MonthOf(d), DateOf(d);
    DayOfDate(d);
    hide YearOf, MonthOf, DateOf, Jan1, DaysBefore;
    MonthsAddUp(y, m);
    NextYear(y);
    if n < MonthLength(y, m) {
      CivilDayIsUnique(d + 1, y, m, n + 1);
    } else if m < 11 {
      CivilDayIsUnique(d + 1, y, m + 1, 1);
    } else {
      MonthsAddUp(y + 1, 0);
      CivilDayIsUnique(d + 1, y + 1, 0, 1);
    }
  }

  lemma FirstDay()
    ensures YearOf(1) == 1 && MonthOf(1) == 0 && DateOf(1) == 1
  {
    CivilDayIsUnique(1, 1, 0, 1);
  }

  lemma DayOfDate(d: Day)
    ensures d == MonthStart(YearOf(d), MonthOf(d)) + DateOf(d) - 1
    ensures DateOf(d) <= MonthLength(YearOf(d), MonthOf(d))
  {
    MonthsAddUp(YearOf(d), MonthOf(d));
  }

  // --------------------------------------------------------------- ISO weeks

  datatype IsoWeek = IsoWeek(year: nat, week: int)

  function MondayOf(d: int): int { d - (d - 1) % 7 }

  /** The first day numbered 4 modulo 7 (Thursday) of the year. */
  function FirstThursday(year: nat): int { Jan1(year) + (4 - Jan1(year)) % 7 }

  /** The Monday of week 1: the week that includes the first Thursday (ISO 8601:2004, 2.2.10). */
  function Week1Monday(year: nat): int { FirstThursday(year) - 3 }

  /** Day `d` lies in week `w.week` of the week-based year `w.year`. */
  predicate InIsoWeek(d: Day, w: IsoWeek) {
    && 1 <= w.week
    && Week1Monday(w.year) + 7 * (w.week - 1) <= d < Week1Monday(w.year) + 7 * w.week
    && d < Week1Monday(w.year + 1)
  }

  /** Math.ceil(n / 7). */
  function CeilSevenths(n: int): int { (n + 6) / 7 }

  /** The date as the constructor rebuilds it from year, month and date. */
  function SeenDay(date: Day): Day {
    FutureConstructor(YearOf(date));
    NewDate(YearOf(date), MonthOf(date), DateOf(date))
  }

  /** The program's computation, through the Thursday of the date's week. */
  function GetISOWeek(date: Day): IsoWeek {
    var d := SeenDay(date);
    var dayNum := if WeekdayOf(d) != 0 then WeekdayOf(d) else 7;
    var thursday := d + 4 - dayNum;
    assert 1 <= thursday;
    var yearStart := NewDate(YearOf(thursday), 0, 1);
    IsoWeek(YearOf(thursday), CeilSevenths(thursday - yearStart + 1))
  }

  lemma FutureConstructor(year: nat)
    requires year >= 1
    ensures forall m :: 0 <= m < 12 ==> MonthStart(ConstructorYear(year), m) >= 1
  {
    YearsAscend(1, ConstructorYear(year));
  }

  function ThursdayOf(d: Day): Day { MondayOf(d) + 3 }

  lemma ThursdayIsClear(d: Day)
    ensures ThursdayOf(d) % 7 == 4 && ThursdayOf(d) - 3 <= d <= ThursdayOf(d) + 3
    ensures d + 4 - (if d % 7 != 0 then d % 7 else 7) == ThursdayOf(d)
  {
  }

  /** Counting weeks from a first Thursday `first`, for a Thursday `t` of the same year. */
  lemma CountThursdays(jan1: int, nextJan1: int, t: int)
    requires t % 7 == 4 && jan1 <= t < nextJan1 <= jan1 + 366
    ensures var first, next := jan1 + (4 - jan1) % 7, nextJan1 + (4 - nextJan1) % 7;
      var week := CeilSevenths(t - jan1 + 1);
      t == first + 7 * (week - 1) && 1 <= week <= 53 && t + 7 <= next
  {
    var first, next := jan1 + (4 - jan1) % 7, nextJan1 + (4 - nextJan1) % 7;
    ThursdaysApart(first, t);
    ThursdaysApart(t, next);
  }

  lemma ThursdaysApart(a: int, b: int)
    requires a % 7 == 4 && b % 7 == 4
    ensures (b - a) % 7 == 0
  {
  }

  lemma FirstThursdayIsThursday(year: nat)
    ensures FirstThursday(year) % 7 == 4 && Jan1(year) <= FirstThursday(year) <= Jan1(year) + 6
  {
    hide Jan1;
    NextThursday(Jan1(year));
  }

  lemma NextThursday(j: int)
    ensures (j + (4 - j) % 7) % 7 == 4
  {
  }

  lemma WeekByThursday(d: Day, year: nat, week: int)
    requires year >= 1
    requires Jan1(year) <= ThursdayOf(d) < Jan1(year + 1)
    requires week == CeilSevenths(ThursdayOf(d) - Jan1(year) + 1)
    ensures InIsoWeek(d, IsoWeek(year, week)) && 1 <= week <= 53
  {
    hide Jan1, ThursdayOf, CeilSevenths;
    ThursdayIsClear(d);
    NextYear(year);
    CountThursdays(Jan1(year), Jan1(year + 1), ThursdayOf(d));
  }

  /** A day lies in only one ISO week. */
  lemma IsoWeekIsUnique(d: Day, a: IsoWeek, b: IsoWeek)
    requires a.year >= 1 && b.year >= 1 && InIsoWeek(d, a) && InIsoWeek(d, b)
    ensures a == b
  {
    hide Week1Monday;
    if a.year != b.year {
      Week1Ascends(if a.year < b.year then a.year + 1 else b.year + 1, if a.year < b.year then b.year else a.year);
    }
  }

  lemma Week1Ascends(a: nat, b: nat)
    requires 1 <= a <= b
    ensures Week1Monday(a) <= Week1Monday(b)
  {
    hide Jan1;
    YearsAscend(a, b);
    if a < b {
      FirstThursdayIsThursday(a);
      FirstThursdayIsThursday(b);
    }
    hide FirstThursday;
  }

  /** The years that the two-digit rule of the Date constructor leaves alone. */
  predicate PlainYears(d: Day) { YearOf(d) >= 100 && YearOf(ThursdayOf(d)) >= 100 }

  lemma WeekOfSeenDay(d: Day)
    ensures var t := ThursdayOf(SeenDay(d));
      GetISOWeek(d) == IsoWeek(YearOf(t), CeilSevenths(t - Jan1(ConstructorYear(YearOf(t))) + 1))
  {
    hide Jan1, DaysBefore, YearOf, MonthOf, ThursdayOf, CeilSevenths, SeenDay;
    ThursdayIsClear(SeenDay(d));
    January(ConstructorYear(YearOf(ThursdayOf(SeenDay(d)))));
  }

  lemma WeekOfPlainDate(d: Day)
    requires YearOf(d) >= 100
    ensures SeenDay(d) == d
    ensures var y := YearOf(ThursdayOf(d));
      GetISOWeek(d) == IsoWeek(y, CeilSevenths(ThursdayOf(d) - Jan1(ConstructorYear(y)) + 1))
  {
    hide Jan1, DaysBefore, YearOf, MonthOf, ThursdayOf, CeilSevenths, GetISOWeek;
    assert NewDate(YearOf(d), MonthOf(d), DateOf(d)) == d;
    WeekOfSeenDay(d);
  }

  lemma January(year: nat)
    ensures MonthStart(year, 0) == Jan1(year)
  {
  }

  lemma TwoDigitThursdayIsWrong(d: Day)
    requires YearOf(d) >= 100 > YearOf(ThursdayOf(d))
    ensures GetISOWeek(d).week < 1
  {
    WeekOfPlainDate(d);
    var y := YearOf(ThursdayOf(d));
    YearsAscend(y + 1, 1900);
    YearsAscend(1900, ConstructorYear(y));
  }

  /** The computation gives the ISO week, with week between 1 and 53, exactly for the dates
      whose own year and whose Thursday's year have at least three digits. */
  lemma GetISOWeekCorrectIff(d: Day)
    ensures InIsoWeek(d, GetISOWeek(d)) <==> PlainYears(d)
    ensures PlainYears(d) ==> 1 <= GetISOWeek(d).week <= 53
  {
    if YearOf(d) < 100 {
      FutureWeekIsWrong(d);
    } else if YearOf(ThursdayOf(d)) < 100 {
      TwoDigitThursdayIsWrong(d);
    } else {
      WeekOfPlainDate(d);
      WeekByThursday(d, YearOf(ThursdayOf(d)), GetISOWeek(d).week);
    }
  }

  lemma FutureWeekIsWrong(d: Day)
    requires YearOf(d) <= 99
    ensures !InIsoWeek(d, GetISOWeek(d))
  {
    hide Jan1, DaysBefore, YearOf, MonthOf, DateOf, CeilSevenths, ThursdayOf, FirstThursday;
    var moved := NewDate(YearOf(d), MonthOf(d), DateOf(d));
    FutureConstructor(YearOf(d));
    YearsAscend(1900, ConstructorYear(YearOf(d)));
    ThursdayIsClear(moved);
    var t := ThursdayOf(moved);
    YearsAscend(YearOf(d) + 1, 1899);
    YearsAscend(1899, 1900);
    FirstThursdayIsThursday(1899);
    YearMonotone(Jan1(1899), t);
    YearIsUnique(Jan1(1899), 1899);
    Week1Ascends(1899, YearOf(t));
  }

  /** A date in the year 50, which the constructor takes for one in 1950. */
  lemma YearFiftyIsMisread()
    ensures YearOf(17898) == 50 && !InIsoWeek(17898, GetISOWeek(17898))
  {
    YearIsUnique(17898, 50);
    GetISOWeekCorrectIff(17898);
  }

  /** Thursdays of one year are told apart by the week counted from any day. */
  lemma ThursdaysByWeek(s: int, t: int, start: int)
    requires s % 7 == 4 && t % 7 == 4
    ensures CeilSevenths(s - start + 1) == CeilSevenths(t - start + 1) <==> s == t
  {
    ThursdaysApart(s, t);
    var k := (t - s) / 7;
    assert t == s + 7 * k;
    assert CeilSevenths(t - start + 1) == CeilSevenths(s - start + 1) + k;
  }

  lemma MondayOfThursday(d: Day)
    ensures MondayOf(d) == ThursdayOf(d) - 3
  {
  }

  /** For all dates: the same ISO year and week are given exactly to dates that the constructor
      puts into weeks with the same Monday. */
  lemma SameWeekIffSameSeenMonday(a: Day, b: Day)
    ensures GetISOWeek(a) == GetISOWeek(b) <==> MondayOf(SeenDay(a)) == MondayOf(SeenDay(b))
  {
    hide Jan1, YearOf, GetISOWeek, SeenDay, CeilSevenths, MondayOf, ThursdayOf;
    WeekOfSeenDay(a);
    WeekOfSeenDay(b);
    var s, t := ThursdayOf(SeenDay(a)), ThursdayOf(SeenDay(b));
    ThursdayIsClear(SeenDay(a));
    ThursdayIsClear(SeenDay(b));
    MondayOfThursday(SeenDay(a));
    MondayOfThursday(SeenDay(b));
    ThursdaysByWeek(s, t, Jan1(ConstructorYear(YearOf(s))));
  }

  /** From the year 100 on, two dates get the same ISO year and week exactly when they share
      their Monday. */
  lemma SameWeekIffSameMonday(a: Day, b: Day)
    requires YearOf(a) >= 100 && YearOf(b) >= 100
    ensures GetISOWeek(a) == GetISOWeek(b) <==> MondayOf(a) == MondayOf(b)
  {
    hide GetISOWeek, MondayOf, SeenDay;
    SameWeekIffSameSeenMonday(a, b);
    WeekOfPlainDate(a);
    WeekOfPlainDate(b);
  }
}
