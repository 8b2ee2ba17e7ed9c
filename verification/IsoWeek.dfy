/**
 * ISO week keys of backup dates, over the day arithmetic of ECMAScript time values, against
 * ISO 8601:2004: section 2.2.10 (calendar week number) and section 4.1.4 (week date).
 */
module IsoWeek {

  // ---------------------------------------------------------------- days since 1970-01-01

  predicate Leap(y: int) {
    y % 4 == 0 && (y % 100 != 0 || y % 400 == 0)
  }

  // DayFromYear: floor divisions, as Dafny's are for positive divisors.
  function DayFromYear(y: int): int {
    365 * (y - 1970) + (y - 1969) / 4 - (y - 1901) / 100 + (y - 1601) / 400
  }

  function DaysInMonth(y: int, m: int): (days: int)
    requires 1 <= m <= 12
    ensures 28 <= days <= 31
  {
    if m == 2 then (if Leap(y) then 29 else 28)
    else if m in {4, 6, 9, 11} then 30 else 31
  }

  function DaysBeforeMonth(y: int, m: int): int
    requires 1 <= m <= 12
  {
    if m == 1 then 0 else DaysBeforeMonth(y, m - 1) + DaysInMonth(y, m - 1)
  }

  /** What the digits of a backup name can say, possible dates or not. */
  predicate DateParts(y: int, m: int, d: int) {
    0 <= y <= 9999 && 0 <= m <= 99 && 0 <= d <= 99
  }

  predicate ValidDate(y: int, m: int, d: int) {
    100 <= y <= 9999 && 1 <= m <= 12 && 1 <= d <= DaysInMonth(y, m)
  }

  // Years 0 to 99 stand for 1900 to 1999.
  function FullYear(y: int): int {
    if 0 <= y <= 99 then 1900 + y else y
  }

  /** Date.UTC(y, m - 1, d), in days: months and days beyond the calendar run over. */
  function DateUTC(y: int, m: int, d: int): int {
    var year := FullYear(y) + (m - 1) / 12;
    var month := (m - 1) % 12 + 1;
    DayFromYear(year) + DaysBeforeMonth(year, month) + d - 1
  }

  lemma DateUTCOfDate(y: int, m: int, d: int)
    requires y >= 100 && 1 <= m <= 12
    ensures DateUTC(y, m, d) == DayFromYear(y) + DaysBeforeMonth(y, m) + d - 1
  {
  }

  lemma FloorStep4(y: int)
    ensures (y - 1968) / 4 == (y - 1969) / 4 + if y % 4 == 0 then 1 else 0
  {
  }

  lemma FloorStep100(y: int)
    ensures (y - 1900) / 100 == (y - 1901) / 100 + if y % 100 == 0 then 1 else 0
  {
    var q, r := y / 100, y % 100;
    assert y - 1900 == 100 * (q - 19) + r;
    assert (y - 1901) / 100 == if r == 0 then q - 20 else q - 19;
  }

  lemma FloorStep400(y: int)
    ensures (y - 1600) / 400 == (y - 1601) / 400 + if y % 400 == 0 then 1 else 0
  {
    var q, r := y / 400, y % 400;
    assert y - 1600 == 400 * (q - 4) + r;
    assert (y - 1601) / 400 == if r == 0 then q - 5 else q - 4;
  }

  function One(b: bool): int {
    if b then 1 else 0
  }

  lemma CenturiesAreFourths(y: int)
    ensures y % 400 == 0 ==> y % 100 == 0
    ensures y % 100 == 0 ==> y % 4 == 0
  {
    var q, r := y / 400, y % 400;
    assert y == 100 * (4 * q) + r;
    var c, t := y / 100, y % 100;
    assert y == 4 * (25 * c) + t;
  }

  lemma LeapDays(y: int)
    ensures One(y % 4 == 0) - One(y % 100 == 0) + One(y % 400 == 0) == One(Leap(y))
  {
    CenturiesAreFourths(y);
  }

  lemma YearLength(y: int)
    ensures DayFromYear(y + 1) == DayFromYear(y) + if Leap(y) then 366 else 365
  {
    FloorStep4(y);
    FloorStep100(y);
    FloorStep400(y);
    LeapDays(y);
  }

  lemma MonthsFillTheYear(y: int)
    ensures DaysBeforeMonth(y, 12) + 31 == if Leap(y) then 366 else 365
  {
    var feb := DaysInMonth(y, 2);
    assert DaysBeforeMonth(y, 2) == 31 && DaysBeforeMonth(y, 3) == 31 + feb && DaysBeforeMonth(y, 4) == 62 + feb;
    assert DaysBeforeMonth(y, 5) == 92 + feb && DaysBeforeMonth(y, 6) == 123 + feb;
    assert DaysBeforeMonth(y, 7) == 153 + feb && DaysBeforeMonth(y, 8) == 184 + feb;
    assert DaysBeforeMonth(y, 9) == 215 + feb && DaysBeforeMonth(y, 10) == 245 + feb;
    assert DaysBeforeMonth(y, 11) == 276 + feb && DaysBeforeMonth(y, 12) == 306 + feb;
  }

  /** Day numbers follow the calendar: 1970-01-01 is day 0 and the day after a date has the next number. */
  lemma DayNumbersFollowTheCalendar(y: int, m: int, d: int)
    requires ValidDate(y, m, d)
    ensures DateUTC(1970, 1, 1) == 0
    ensures d < DaysInMonth(y, m) ==> DateUTC(y, m, d + 1) == DateUTC(y, m, d) + 1
    ensures d == DaysInMonth(y, m) && m < 12 ==> DateUTC(y, m + 1, 1) == DateUTC(y, m, d) + 1
    ensures d == DaysInMonth(y, m) && m == 12 ==> DateUTC(y + 1, 1, 1) == DateUTC(y, m, d) + 1
  {
    DateUTCOfDate(y, m, d);
    DateUTCOfDate(y, m, d + 1);
    if m < 12 {
      DateUTCOfDate(y, m + 1, 1);
    } else {
      DateUTCOfDate(y + 1, 1, 1);
      YearLength(y);
      MonthsFillTheYear(y);
    }
  }

  /** Dates the calendar lacks run over: a thirteenth month opens the next year, a day 0 ends the month before. */
  lemma ImpossibleDatesRunOver(y: int, m: int, d: int)
    requires y >= 100
    ensures DateUTC(y, m + 12, d) == DateUTC(y + 1, m, d)
    ensures DateUTC(y, m, d) == DateUTC(y, m, 1) + d - 1
  {
    var q, p := (m - 1) / 12, (m - 1) % 12;
    assert m + 11 == 12 * (q + 1) + p;
    assert (m + 11) / 12 == q + 1 && (m + 11) % 12 == p;
  }

  /** The years 0 to 99 of a name are those of the twentieth century. */
  lemma ShortYears(y: int, m: int, d: int)
    requires 0 <= y <= 99
    ensures DateUTC(y, m, d) == DateUTC(1900 + y, m, d)
  {
  }

  /** The calendar: thirty days have April, June, September and November, February by the leap rule. */
  lemma MonthLengths(y: int)
    ensures forall m :: m in {1, 3, 5, 7, 8, 10, 12} ==> DaysInMonth(y, m) == 31
    ensures forall m :: m in {4, 6, 9, 11} ==> DaysInMonth(y, m) == 30
    ensures y % 4 != 0 || (y % 100 == 0 && y % 400 != 0) ==> DaysInMonth(y, 2) == 28
    ensures (y % 4 == 0 && y % 100 != 0) || y % 400 == 0 ==> DaysInMonth(y, 2) == 29
  {
  }

  // ---------------------------------------------------------------- years and weekdays of a day number

  lemma {:induction false} YearsGrow(y: int, z: int)
    requires y <= z
    ensures DayFromYear(y) + 365 * (z - y) <= DayFromYear(z)
    decreases z - y
  {
    if y < z {
      YearLength(y);
      YearsGrow(y + 1, z);
    }
  }

  function YearFrom(y: int, day: int): (r: int)
    requires DayFromYear(y) <= day
    ensures DayFromYear(r) <= day < DayFromYear(r + 1)
    decreases day - DayFromYear(y)
  {
    YearLength(y);
    if day < DayFromYear(y + 1) then y else YearFrom(y + 1, day)
  }

  /** YearFromTime: the year whose days include this one. */
  function YearOf(day: int): (r: int)
    requires DayFromYear(0) <= day
    ensures DayFromYear(r) <= day < DayFromYear(r + 1)
  {
    YearFrom(0, day)
  }

  lemma YearIsUnique(day: int, y: int)
    requires DayFromYear(0) <= day && DayFromYear(y) <= day < DayFromYear(y + 1)
    ensures YearOf(day) == y
  {
    var r := YearOf(day);
    if r < y { YearsGrow(r + 1, y); }
    if y < r { YearsGrow(y + 1, r); }
  }

  // getUTCDay: 0 is Sunday; 1970-01-01 was a Thursday.
  function Weekday(day: int): int {
    (day + 4) % 7
  }

  /** The day number of the Monday that starts this day's week. */
  function MondayOf(day: int): (m: int)
    ensures Weekday(m) == 1 && m <= day <= m + 6
  {
    day - (day + 3) % 7
  }

  // ---------------------------------------------------------------- the key

  function DigitChar(n: int): char
    requires 0 <= n < 10
  {
    '0' + n as char
  }

  function Decimal(n: nat): (s: string)
    ensures |s| >= 1
  {
    if n < 10 then [DigitChar(n)] else Decimal(n / 10) + [DigitChar(n % 10)]
  }

  function Pad2(n: nat): string {
    if |Decimal(n)| < 2 then "0" + Decimal(n) else Decimal(n)
  }

  function CeilDiv7(n: int): int {
    (n + 6) / 7
  }

  /** The year and number of the ISO week a day lies in, as the key computes them. */
  function ThursdayOf(day: int): int {
    var dayNum := if Weekday(day) == 0 then 7 else Weekday(day);
    day + 4 - dayNum
  }

  function WeekYear(day: int): int
    requires DayFromYear(0) + 3 <= day
  {
    YearOf(ThursdayOf(day))
  }

  function WeekNumber(day: int): int
    requires DayFromYear(0) + 3 <= day
  {
    CeilDiv7(ThursdayOf(day) - DayFromYear(WeekYear(day)) + 1)
  }

  function KeyText(year: nat, week: nat): string {
    Decimal(year) + "-W" + Pad2(week)
  }

  lemma DatesAreRecent(y: int, m: int, d: int)
    requires DateParts(y, m, d)
    ensures DayFromYear(0) + 3 <= DateUTC(y, m, d)
    ensures 0 <= WeekYear(DateUTC(y, m, d)) && 1 <= WeekNumber(DateUTC(y, m, d)) <= 53
  {
    var y', m' := FullYear(y) + (m - 1) / 12, (m - 1) % 12 + 1;
    assert y' >= 99;
    YearsGrow(0, y');
    MonthStartsInYear(y', m');
    WeeksAreNumbered(DateUTC(y, m, d));
  }

  lemma WeeksAreNumbered(day: int)
    requires DayFromYear(0) + 3 <= day
    ensures 0 <= WeekYear(day) && 1 <= WeekNumber(day) <= 53
  {
    var year := WeekYear(day);
    if year < 0 { YearsGrow(year + 1, 0); }
    YearLength(year);
  }

  lemma {:induction false} MonthStartsInYear(y: int, m: int)
    requires 1 <= m <= 12
    ensures 0 <= DaysBeforeMonth(y, m)
    decreases m
  {
    if m > 1 { MonthStartsInYear(y, m - 1); }
  }

  // Four digits of the year, "-W", two of the week.
  lemma KeyTextShape(year: nat, week: nat)
    requires 1000 <= year <= 9999 && week < 100
    ensures KeyText(year, week)
         == [DigitChar(year / 1000), DigitChar(year / 100 % 10), DigitChar(year / 10 % 10), DigitChar(year % 10),
             '-', 'W', DigitChar(week / 10), DigitChar(week % 10)]
  {
    assert Decimal(year / 1000) == [DigitChar(year / 1000)];
    assert year / 100 / 10 == year / 1000 && year / 10 / 10 == year / 100;
    assert Decimal(year / 100) == [DigitChar(year / 1000), DigitChar(year / 100 % 10)];
    assert Decimal(year / 10) == [DigitChar(year / 1000), DigitChar(year / 100 % 10), DigitChar(year / 10 % 10)];
    Pad2Shape(week);
  }

  lemma Pad2Shape(week: nat)
    requires week < 100
    ensures Pad2(week) == [DigitChar(week / 10), DigitChar(week % 10)]
  {
    assert Decimal(week / 10) == [DigitChar(week / 10)];
  }

  function WeekKey(y: int, m: int, d: int): string
    requires DateParts(y, m, d)
  {
    DatesAreRecent(y, m, d);
    KeyText(WeekYear(DateUTC(y, m, d)), WeekNumber(DateUTC(y, m, d)))
  }

  /** isoWeekKeyFromDateParts. */
  method IsoWeekKeyFromDateParts(y: int, m: int, d: int) returns (key: string)
    requires DateParts(y, m, d)
    ensures key == WeekKey(y, m, d)
  {
    DatesAreRecent(y, m, d);
    var date := DateUTC(y, m, d);
    ghost var day := date;
    var dayNum := if Weekday(date) == 0 then 7 else Weekday(date);
    date := date + 4 - dayNum;
    assert date == ThursdayOf(day);
    var isoYear := YearOf(date);
    assert isoYear == WeekYear(day);
    var yearStart := DayFromYear(isoYear);
    var week := CeilDiv7(date - yearStart + 1);
    assert week == WeekNumber(day);
    key := Decimal(isoYear) + "-W" + Pad2(week);
  }

  // ---------------------------------------------------------------- what the key means

  /**
   * ISO 8601: the week runs Monday to Sunday, belongs to the year of its Thursday, and is that
   * year's week `WeekNumber`, where week 1 holds the year's first Thursday.
   */
  lemma {:induction false} WeekIsIso(day: int)
    requires DayFromYear(0) + 3 <= day
    ensures ThursdayOf(day) == MondayOf(day) + 3 && Weekday(ThursdayOf(day)) == 4
    ensures 1 <= WeekNumber(day) <= 53
    ensures var first := ThursdayOf(day) - 7 * (WeekNumber(day) - 1);
            Weekday(first) == 4 && DayFromYear(WeekYear(day)) <= first < DayFromYear(WeekYear(day)) + 7
    ensures DayFromYear(WeekYear(day)) <= ThursdayOf(day) < DayFromYear(WeekYear(day) + 1)
  {
    ThursdayOfMonday(day);
    var x := ThursdayOf(day) - DayFromYear(WeekYear(day));
    YearLength(WeekYear(day));
    WeekOfYearDay(x);
    ThursdaysStep(ThursdayOf(day), WeekNumber(day) - 1);
  }

  lemma ThursdayOfMonday(day: int)
    ensures ThursdayOf(day) == MondayOf(day) + 3 && Weekday(ThursdayOf(day)) == 4
  {
    var r := (day + 3) % 7;
    assert (day + 4) % 7 == if r == 6 then 0 else r + 1;
  }

  lemma WeekOfYearDay(x: int)
    requires 0 <= x < 366
    ensures 1 <= CeilDiv7(x + 1) <= 53 && 0 <= x - 7 * (CeilDiv7(x + 1) - 1) < 7
  {
  }

  lemma ThursdaysStep(day: int, weeks: int)
    ensures Weekday(day - 7 * weeks) == Weekday(day)
  {
    assert (day + 4 - 7 * weeks) % 7 == (day + 4) % 7 by { ModStep(day + 4, weeks); }
  }

  lemma ModStep(x: int, k: int)
    ensures (x - 7 * k) % 7 == x % 7
  {
    var q, r := x / 7, x % 7;
    assert x - 7 * k == 7 * (q - k) + r;
  }

  // The first Thursday of a year is the only Thursday among its first seven days.
  lemma OneThursdayInSeven(start: int, a: int, b: int)
    requires start <= a < start + 7 && start <= b < start + 7 && Weekday(a) == Weekday(b)
    ensures a == b
  {
  }

  lemma SameNumbersSameWeek(a: int, b: int)
    requires DayFromYear(0) + 3 <= a && DayFromYear(0) + 3 <= b
    ensures WeekYear(a) == WeekYear(b) && WeekNumber(a) == WeekNumber(b) <==> MondayOf(a) == MondayOf(b)
  {
    WeekIsIso(a);
    WeekIsIso(b);
    if WeekYear(a) == WeekYear(b) && WeekNumber(a) == WeekNumber(b) {
      var back := 7 * (WeekNumber(a) - 1);
      OneThursdayInSeven(DayFromYear(WeekYear(a)), ThursdayOf(a) - back, ThursdayOf(b) - back);
    }
  }

  lemma {:induction false} DecimalInjective(a: nat, b: nat)
    requires Decimal(a) == Decimal(b)
    ensures a == b
  {
    var s, t := Decimal(a), Decimal(b);
    assert s[|s| - 1] == t[|t| - 1];
    if a >= 10 && b >= 10 {
      assert s[..|s| - 1] == Decimal(a / 10) && t[..|t| - 1] == Decimal(b / 10);
      DecimalInjective(a / 10, b / 10);
    }
  }

  lemma Pad2Injective(a: nat, b: nat)
    requires a < 100 && b < 100
    ensures |Pad2(a)| == 2
    ensures Pad2(a) == Pad2(b) ==> a == b
  {
    assert Decimal(a / 10) == [DigitChar(a / 10)] && Decimal(b / 10) == [DigitChar(b / 10)];
    assert Pad2(a) == [DigitChar(a / 10), DigitChar(a % 10)];
    assert Pad2(b) == [DigitChar(b / 10), DigitChar(b % 10)];
  }

  lemma KeyTextInjective(y: nat, w: nat, y': nat, w': nat)
    requires w < 100 && w' < 100 && KeyText(y, w) == KeyText(y', w')
    ensures y == y' && w == w'
  {
    Pad2Injective(w, w');
    Pad2Injective(w', w);
    var k, k' := KeyText(y, w), KeyText(y', w');
    assert k[|k| - 2..] == Pad2(w) && k'[|k'| - 2..] == Pad2(w');
    assert k[..|k| - 4] == Decimal(y) && k'[..|k'| - 4] == Decimal(y');
    DecimalInjective(y, y');
  }

  /**
   * Two dates, as the digits of a name give them, have the same key exactly when they lie in the
   * same Monday-to-Sunday week.
   */
  lemma SameKeyIffSameWeek(y: int, m: int, d: int, y': int, m': int, d': int)
    requires DateParts(y, m, d) && DateParts(y', m', d')
    ensures WeekKey(y, m, d) == WeekKey(y', m', d')
       <==> MondayOf(DateUTC(y, m, d)) == MondayOf(DateUTC(y', m', d'))
  {
    DatesAreRecent(y, m, d);
    DatesAreRecent(y', m', d');
    var a, b := DateUTC(y, m, d), DateUTC(y', m', d');
    SameNumbersSameWeek(a, b);
    if WeekKey(y, m, d) == WeekKey(y', m', d') {
      KeyTextInjective(WeekYear(a), WeekNumber(a), WeekYear(b), WeekNumber(b));
    }
  }

  lemma Year2020Ends()
    ensures DateUTC(2021, 1, 3) == 18630 && DateUTC(2021, 1, 4) == 18631
    ensures DayFromYear(2020) == 18262 && DayFromYear(2021) == 18628 && DayFromYear(2022) == 18993
  {
  }

  lemma WeekOfThursday(day: int, thursday: int, year: int)
    requires DayFromYear(0) + 3 <= day && ThursdayOf(day) == thursday
    requires DayFromYear(year) <= thursday < DayFromYear(year + 1)
    ensures WeekYear(day) == year && WeekNumber(day) == CeilDiv7(thursday - DayFromYear(year) + 1)
  {
    ThursdayOfMonday(day);
    YearIsUnique(thursday, year);
  }

  /** Sunday 3 January 2021 still belongs to week 53 of 2020. */
  lemma SundayEndsWeek53()
    ensures WeekKey(2021, 1, 3) == "2020-W53"
  {
    Year2020Ends();
    DatesAreRecent(2021, 1, 3);
    WeekOfThursday(18630, 18627, 2020);
    KeyTextShape(2020, 53);
  }

  /** Monday 4 January 2021 starts week 1 of 2021. */
  lemma MondayStartsWeek1()
    ensures WeekKey(2021, 1, 4) == "2021-W01"
  {
    Year2020Ends();
    DatesAreRecent(2021, 1, 4);
    WeekOfThursday(18631, 18634, 2021);
    KeyTextShape(2021, 1);
  }
}
