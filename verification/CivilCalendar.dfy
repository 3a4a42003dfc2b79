/**
 Day numbers and civil dates of the proleptic Gregorian calendar, as ECMA-262
 (section 21.4.1) defines them for JavaScript's `Date`: day 0 is 1970-01-01.
 */
module CivilCalendar {
  datatype Civil = Civil(year: int, month: int, day: int)

  const MS_PER_MINUTE: int := 60_000
  const MS_PER_HOUR: int := 3_600_000
  const MS_PER_DAY: int := 86_400_000

  predicate Leap(year: int) { year % 4 == 0 && (year % 100 != 0 || year % 400 == 0) }

  function YearLength(year: int): int { if Leap(year) then 366 else 365 }

  function MonthLength(month: int, leap: bool): int {
    if month == 2 then (if leap then 29 else 28) else if month in {4, 6, 9, 11} then 30 else 31
  }

  /** Days before 1 January of the year. */
  function DayFromYear(year: int): int
    decreases if year < 1970 then 1970 - year else year - 1970
  {
    if year == 1970 then 0
    else if year > 1970 then DayFromYear(year - 1) + YearLength(year - 1)
    else DayFromYear(year + 1) - YearLength(year)
  }

  /** Days of the year before the first of the month; month 13 stands for the year's end. */
  function MonthStart(month: int, leap: bool): int
    decreases month
  {
    if month <= 1 then 0 else MonthStart(month - 1, leap) + MonthLength(month - 1, leap)
  }

  predicate Valid(c: Civil) {
    1 <= c.month <= 12 && 1 <= c.day <= MonthLength(c.month, Leap(c.year))
  }

  function DayFromCivil(c: Civil): int {
    DayFromYear(c.year) + MonthStart(c.month, Leap(c.year)) + c.day - 1
  }

  // ---- the standard's closed form --------------------------------------------------------

  lemma {:induction false} ClosedForm(year: int)
    ensures DayFromYear(year) == 365 * (year - 1970) + (year - 1969) / 4 - (year - 1901) / 100 + (year - 1601) / 400
    decreases if year < 1970 then 1970 - year else year - 1970
  {
    if year > 1970 {
      ClosedForm(year - 1);
      ClosedFormStep(year - 1);
    } else if year < 1970 {
      ClosedForm(year + 1);
      ClosedFormStep(year);
    }
  }

  lemma ClosedFormStep(year: int)
    ensures (year - 1968) / 4 - (year - 1900) / 100 + (year - 1600) / 400 + 365
         == (year - 1969) / 4 - (year - 1901) / 100 + (year - 1601) / 400 + YearLength(year)
  {
    assert (year - 1968) / 4 == (year - 1969) / 4 + if year % 4 == 0 then 1 else 0;
    assert (year - 1900) / 100 == (year - 1901) / 100 + if year % 100 == 0 then 1 else 0;
    assert (year - 1600) / 400 == (year - 1601) / 400 + if year % 400 == 0 then 1 else 0;
    assert year % 400 == 0 ==> year % 100 == 0;
    assert year % 100 == 0 ==> year % 4 == 0;
  }

  // ---- from a day number back to its date -------------------------------------------------

  lemma NextYear(year: int)
    ensures DayFromYear(year + 1) == DayFromYear(year) + YearLength(year)
  {
  }

  /** The year containing `day`, searched upwards from a year that starts no later. */
  function YearUpFrom(day: int, year: int): (result: int)
    requires DayFromYear(year) <= day
    ensures DayFromYear(result) <= day < DayFromYear(result + 1)
    decreases day - DayFromYear(year)
  {
    NextYear(year);
    if day < DayFromYear(year + 1) then year else YearUpFrom(day, year + 1)
  }

  function YearDownFrom(day: int, year: int): (result: int)
    requires day < DayFromYear(year + 1)
    ensures DayFromYear(result) <= day < DayFromYear(result + 1)
    decreases DayFromYear(year + 1) - day
  {
    NextYear(year);
    if DayFromYear(year) <= day then year else YearDownFrom(day, year - 1)
  }

  function YearFromDay(day: int): (year: int)
    ensures DayFromYear(year) <= day < DayFromYear(year + 1)
  {
    if day >= DayFromYear(1970) then YearUpFrom(day, 1970) else YearDownFrom(day, 1969)
  }

  function MonthFrom(dayInYear: int, leap: bool, month: int): (result: int)
    requires 1 <= month <= 12
    requires MonthStart(month, leap) <= dayInYear < MonthStart(13, leap)
    ensures 1 <= result <= 12 && MonthStart(result, leap) <= dayInYear < MonthStart(result + 1, leap)
    decreases 12 - month
  {
    if month == 12 || dayInYear < MonthStart(month + 1, leap) then month else MonthFrom(dayInYear, leap, month + 1)
  }

  lemma MonthsFillTheYear(leap: bool)
    ensures MonthStart(13, leap) == if leap then 366 else 365
  {
    assert MonthStart(4, leap) == if leap then 91 else 90;
    assert MonthStart(7, leap) == if leap then 182 else 181;
    assert MonthStart(10, leap) == if leap then 274 else 273;
  }

  function CivilFromDay(day: int): (c: Civil)
    ensures Valid(c) && DayFromCivil(c) == day
  {
    var year := YearFromDay(day);
    NextYear(year);
    MonthsFillTheYear(Leap(year));
    var dayInYear := day - DayFromYear(year);
    var month := MonthFrom(dayInYear, Leap(year), 1);
    Civil(year, month, dayInYear - MonthStart(month, Leap(year)) + 1)
  }

  lemma {:induction false} YearsInOrder(y: int, z: int)
    requires y < z
    ensures DayFromYear(y) + YearLength(y) <= DayFromYear(z)
    decreases z - y
  {
    NextYear(y);
    if y + 1 == z {
    } else {
      YearsInOrder(y + 1, z);
    }
  }

  lemma YearsMonotone(y: int, z: int)
    requires y <= z
    ensures DayFromYear(y) <= DayFromYear(z)
  {
    hide DayFromYear;
    if y < z {
      YearsInOrder(y, z);
    }
  }

  lemma {:induction false} MonthsInOrder(m: int, n: int, leap: bool)
    requires 1 <= m < n
    ensures MonthStart(m, leap) + MonthLength(m, leap) <= MonthStart(n, leap)
    decreases n - m
  {
    if m + 1 == n {
    } else {
      MonthsInOrder(m + 1, n, leap);
    }
  }

  lemma DayInsideItsYear(c: Civil)
    requires Valid(c)
    ensures DayFromYear(c.year) <= DayFromCivil(c) < DayFromYear(c.year) + YearLength(c.year)
  {
    var leap := Leap(c.year);
    MonthsFillTheYear(leap);
    MonthsInOrder(c.month, 13, leap);
    if c.month > 1 {
      MonthsInOrder(1, c.month, leap);
    }
  }

  /** Different valid dates have different day numbers. */
  lemma {:induction false} DayFromCivilInjective(c: Civil, d: Civil)
    requires Valid(c) && Valid(d) && DayFromCivil(c) == DayFromCivil(d)
    ensures c == d
  {
    DayInsideItsYear(c);
    DayInsideItsYear(d);
    if c.year < d.year {
      YearsInOrder(c.year, d.year);
    } else if d.year < c.year {
      YearsInOrder(d.year, c.year);
    } else if c.month < d.month {
      MonthsInOrder(c.month, d.month, Leap(c.year));
    } else if d.month < c.month {
      MonthsInOrder(d.month, c.month, Leap(c.year));
    }
  }

  /** The two conversions are inverse: `CivilFromDay`'s contract is the other direction. */
  lemma CivilRoundTrip(c: Civil)
    requires Valid(c)
    ensures CivilFromDay(DayFromCivil(c)) == c
  {
    DayFromCivilInjective(CivilFromDay(DayFromCivil(c)), c);
  }

  // ---- the calendar in closed form --------------------------------------------------------

  /** Every fourth year is a leap year, but of the full centuries only every fourth. */
  lemma LeapRule(year: int)
    ensures Leap(year) <==> year % 400 == 0 || (year % 4 == 0 && year % 100 != 0)
  {
    var century := year / 100;
    assert year % 400 == 0 ==> year == 100 * (4 * (year / 400));
  }

  lemma ValidDates(c: Civil)
    ensures Valid(c) <==>
      1 <= c.day <= match c.month
        case 1 => 31
        case 2 => if c.year % 400 == 0 || (c.year % 4 == 0 && c.year % 100 != 0) then 29 else 28
        case 3 => 31
        case 4 => 30
        case 5 => 31
        case 6 => 30
        case 7 => 31
        case 8 => 31
        case 9 => 30
        case 10 => 31
        case 11 => 30
        case 12 => 31
        case _ => 0
  {
    LeapRule(c.year);
    hide Leap;
  }

  lemma MonthsInClosedForm(month: int, leap: bool)
    requires 1 <= month <= 12
    ensures MonthStart(month, leap) ==
      (153 * ((month + 9) % 12) + 2) / 5 + if month <= 2 then -306 else if leap then 60 else 59
  {
    assert MonthStart(3, leap) == if leap then 60 else 59;
    assert MonthStart(6, leap) == MonthStart(3, leap) + 92;
    assert MonthStart(9, leap) == MonthStart(6, leap) + 92;
    assert MonthStart(12, leap) == MonthStart(9, leap) + 91;
  }

  lemma LeapDays(y: int)
    ensures y / 4 - y / 100 + y / 400 == (y - 1) / 4 - (y - 1) / 100 + (y - 1) / 400 + if Leap(y) then 1 else 0
    ensures (y - 1969) / 4 == (y - 1) / 4 - 492
    ensures (y - 1901) / 100 == (y - 1) / 100 - 19 && (y - 1601) / 400 == (y - 1) / 400 - 4
  {
    assert y / 4 == (y - 1) / 4 + if y % 4 == 0 then 1 else 0;
    assert y / 100 == (y - 1) / 100 + if y % 100 == 0 then 1 else 0;
    assert y / 400 == (y - 1) / 400 + if y % 400 == 0 then 1 else 0;
    assert y % 400 == 0 ==> y % 100 == 0;
    assert y % 100 == 0 ==> y % 4 == 0;
  }

  /** The day number of any date, with years taken to begin in March so that the leap day comes last. */
  lemma DayInClosedForm(c: Civil)
    requires 1 <= c.month <= 12
    ensures var y := if c.month <= 2 then c.year - 1 else c.year;
      DayFromCivil(c) ==
        365 * y + y / 4 - y / 100 + y / 400 + (153 * ((c.month + 9) % 12) + 2) / 5 + c.day - 719_469
  {
    ClosedForm(c.year);
    MonthsInClosedForm(c.month, Leap(c.year));
    LeapDays(c.year);
    hide DayFromYear, MonthStart, Leap;
  }

  // ---- JavaScript's Date.UTC and the UTC setters, which let every field overflow --------

  /** MakeDay with a zero-based month. */
  function MakeDay(year: int, monthIndex: int, date: int): int {
    DayFromCivil(Civil(year + monthIndex / 12, monthIndex % 12 + 1, 1)) + date - 1
  }

  lemma MakeDayInRange(year: int, month: int, date: int)
    requires 1 <= month <= 12
    ensures MakeDay(year, month - 1, date) == DayFromCivil(Civil(year, month, date))
  {
    assert (month - 1) / 12 == 0 && (month - 1) % 12 == month - 1;
  }

  /** `Date.UTC(year, monthIndex, date, hours, minutes)`; years 0 to 99 mean 1900 to 1999. */
  function DateUtc(year: int, monthIndex: int, date: int, hours: int, minutes: int): int {
    var fullYear := if 0 <= year <= 99 then 1900 + year else year;
    MakeDay(fullYear, monthIndex, date) * MS_PER_DAY + hours * MS_PER_HOUR + minutes * MS_PER_MINUTE
  }

  function DayOf(instant: int): int { instant / MS_PER_DAY }

  /** `getUTCDay`: 0 is Sunday; day 0 was a Thursday. */
  function WeekDay(day: int): int { (day + 4) % 7 }

  /** `setUTCDate` on the day's midnight. */
  function SetUtcDate(day: int, date: int): int {
    var c := CivilFromDay(day);
    MakeDay(c.year, c.month - 1, date)
  }
}
