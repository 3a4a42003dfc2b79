/**
 Day, week and month keys of `src/lib/ad-coupon-domain.ts`. An instant is a number of
 milliseconds since 1970-01-01T00:00Z; the Asia/Seoul clock is nine hours ahead, and
 instants are those of its years from 1970 on.
 */
module CouponPeriods {
  import opened CivilCalendar
  import opened DecimalText

  datatype Period = Daily | Weekly | Monthly

  type Instant = t: int | -32_400_000 <= t witness 0

  function KstDay(t: Instant): int { DayOf(t + 9 * MS_PER_HOUR) }

  lemma NotBefore(day: int, year: int)
    requires DayFromYear(year) <= day
    ensures CivilFromDay(day).year >= year
  {
    var c := CivilFromDay(day);
    DayInsideItsYear(c);
    if c.year < year { YearsInOrder(c.year, year); }
  }

  /** `getKstDateParts`. */
  function KstDate(t: Instant): (c: Civil)
    ensures Valid(c) && c.year >= 1970 && DayFromCivil(c) == KstDay(t)
  {
    NotBefore(KstDay(t), 1970);
    CivilFromDay(KstDay(t))
  }

  /** The Monday the code moves a UTC date to. */
  function MondayOf(day: int): int {
    var daysSinceMonday := (WeekDay(day) + 6) % 7;
    SetUtcDate(day, CivilFromDay(day).day - daysSinceMonday)
  }

  /** The Monday-to-Sunday block of a day: day -3 is Monday 1969-12-29. */
  function WeekBlock(day: int): int { (day + 3) / 7 }

  /** Setting the UTC date moves by the difference, across month and year ends. */
  lemma SetUtcDateMoves(day: int, date: int)
    ensures SetUtcDate(day, date) == day + date - CivilFromDay(day).day
  {
    var c := CivilFromDay(day);
    MakeDayInRange(c.year, c.month, date);
  }

  lemma MondayIsTheBlock(day: int)
    ensures MondayOf(day) == 7 * WeekBlock(day) - 3
    ensures MondayOf(day) <= day < MondayOf(day) + 7 && WeekDay(MondayOf(day)) == 1
  {
    hide SetUtcDate, CivilFromDay;
    var daysSinceMonday := (WeekDay(day) + 6) % 7;
    SetUtcDateMoves(day, CivilFromDay(day).day - daysSinceMonday);
    assert MondayOf(day) == day - daysSinceMonday;
    MondayArithmetic(day);
  }

  lemma MondayArithmetic(day: int)
    ensures day - (WeekDay(day) + 6) % 7 == 7 * WeekBlock(day) - 3
    ensures 7 * WeekBlock(day) - 3 <= day < 7 * WeekBlock(day) + 4 && WeekDay(7 * WeekBlock(day) - 3) == 1
  {
    var q, r := (day + 3) / 7, (day + 3) % 7;
    assert day == 7 * q + r - 3;
    assert WeekDay(day) == (7 * q + r + 1) % 7 == (r + 1) % 7;
    assert (WeekDay(day) + 6) % 7 == r;
  }

  /** The day whose civil date a daily or weekly key shows. */
  function ShownDay(t: Instant, weekly: bool): (shown: int)
    ensures shown == if weekly then 7 * WeekBlock(KstDay(t)) - 3 else KstDay(t)
  {
    var parts := KstDate(t);
    var utcDay := MakeDay(parts.year, parts.month - 1, parts.day);
    MakeDayInRange(parts.year, parts.month, parts.day);
    MondayIsTheBlock(utcDay);
    if weekly then MondayOf(utcDay) else utcDay
  }

  function ShownDate(t: Instant, weekly: bool): (c: Civil)
    ensures Valid(c) && c.year >= 1969 && DayFromCivil(c) == ShownDay(t, weekly)
  {
    assert DayFromYear(1969) == -365;
    MondayArithmetic(KstDay(t));
    NotBefore(ShownDay(t, weekly), 1969);
    CivilFromDay(ShownDay(t, weekly))
  }

  function DayText(c: Civil): string
    requires c.year >= 0 && c.month >= 0 && c.day >= 0
  {
    Digits(c.year) + "-" + Pad2(c.month) + "-" + Pad2(c.day)
  }

  function MonthText(c: Civil): string
    requires c.year >= 0 && c.month >= 0
  {
    Digits(c.year) + "-" + Pad2(c.month)
  }

  /** `getKstPeriodKey`. */
  function PeriodKey(t: Instant, period: Period): string {
    match period
    case Daily => DayText(ShownDate(t, false))
    case Weekly => DayText(ShownDate(t, true))
    case Monthly => MonthText(KstDate(t))
  }

  lemma MonthTextInjective(c: Civil, d: Civil)
    requires c.year >= 0 && c.month >= 0 && d.year >= 0 && d.month >= 0
    requires MonthText(c) == MonthText(d)
    ensures c.year == d.year && c.month == d.month
  {
    assert MonthText(c) == Digits(c.year) + ['-'] + Pad2(c.month);
    assert MonthText(d) == Digits(d.year) + ['-'] + Pad2(d.month);
    SplitAtMark(Digits(c.year), Pad2(c.month), Digits(d.year), Pad2(d.month), '-');
    ValueOfDigits(c.year);
    ValueOfDigits(d.year);
    Pad2Injective(c.month, d.month);
  }

  lemma DayTextInjective(c: Civil, d: Civil)
    requires c.year >= 0 && c.month >= 0 && c.day >= 0 && d.year >= 0 && d.month >= 0 && d.day >= 0
    requires DayText(c) == DayText(d)
    ensures c == d
  {
    var restC, restD := Pad2(c.month) + ['-'] + Pad2(c.day), Pad2(d.month) + ['-'] + Pad2(d.day);
    assert DayText(c) == Digits(c.year) + ['-'] + restC && DayText(d) == Digits(d.year) + ['-'] + restD;
    SplitAtMark(Digits(c.year), restC, Digits(d.year), restD, '-');
    SplitAtMark(Pad2(c.month), Pad2(c.day), Pad2(d.month), Pad2(d.day), '-');
    ValueOfDigits(c.year);
    ValueOfDigits(d.year);
    Pad2Injective(c.month, d.month);
    Pad2Injective(c.day, d.day);
  }

  lemma DailyKeysAgree(t: Instant, u: Instant)
    ensures PeriodKey(t, Daily) == PeriodKey(u, Daily) <==> KstDay(t) == KstDay(u)
  {
    if PeriodKey(t, Daily) == PeriodKey(u, Daily) {
      DayTextInjective(ShownDate(t, false), ShownDate(u, false));
    }
  }

  /** Weekly keys agree exactly inside one Monday-to-Sunday block, whatever month or year it crosses. */
  lemma WeeklyKeysAgree(t: Instant, u: Instant)
    ensures PeriodKey(t, Weekly) == PeriodKey(u, Weekly) <==> WeekBlock(KstDay(t)) == WeekBlock(KstDay(u))
  {
    if PeriodKey(t, Weekly) == PeriodKey(u, Weekly) {
      DayTextInjective(ShownDate(t, true), ShownDate(u, true));
    }
  }

  lemma MonthlyKeysAgree(t: Instant, u: Instant)
    ensures PeriodKey(t, Monthly) == PeriodKey(u, Monthly)
       <==> KstDate(t).year == KstDate(u).year && KstDate(t).month == KstDate(u).month
  {
    if PeriodKey(t, Monthly) == PeriodKey(u, Monthly) {
      MonthTextInjective(KstDate(t), KstDate(u));
    }
  }

  /** A day lies inside one week and one month. */
  lemma DayInsideWeekAndMonth(t: Instant, u: Instant)
    requires PeriodKey(t, Daily) == PeriodKey(u, Daily)
    ensures PeriodKey(t, Weekly) == PeriodKey(u, Weekly) && PeriodKey(t, Monthly) == PeriodKey(u, Monthly)
  {
    DailyKeysAgree(t, u);
    WeeklyKeysAgree(t, u);
    MonthlyKeysAgree(t, u);
  }

  // ---- what a key shows ------------------------------------------------------------------------

  /** KST is nine hours ahead of UTC: a day lasts from 15:00 UTC of the day before. */
  lemma DayOfInstant(t: Instant, day: int)
    ensures KstDay(t) == day <==> 86_400_000 * day - 32_400_000 <= t < 86_400_000 * day + 54_000_000
  {
  }

  /** The first day of 2024 was a Monday, and the days of the week follow one another. */
  lemma WeekDayIsAnchored(day: int)
    ensures WeekDay(DayFromCivil(Civil(2024, 1, 1))) == 1
    ensures WeekDay(day + 1) == (WeekDay(day) + 1) % 7
  {
    hide DayFromYear;
    DayInClosedForm(Civil(2024, 1, 1));
  }

  /** A daily key is the text of a date exactly during that date in KST. */
  lemma DailyKeyShows(t: Instant, c: Civil)
    requires Valid(c) && c.year >= 0
    ensures PeriodKey(t, Daily) == DayText(c) <==>
      86_400_000 * DayFromCivil(c) - 32_400_000 <= t < 86_400_000 * DayFromCivil(c) + 54_000_000
  {
    hide DayFromCivil, DayText, CivilFromDay, KstDay;
    DayOfInstant(t, DayFromCivil(c));
    var shown := ShownDate(t, false);
    if PeriodKey(t, Daily) == DayText(c) {
      DayTextInjective(shown, c);
    }
    if DayFromCivil(shown) == DayFromCivil(c) {
      DayFromCivilInjective(shown, c);
    }
  }

  /** A weekly key is the text of a date exactly during the seven days that begin with it, and it is a Monday. */
  lemma WeeklyKeyShows(t: Instant, c: Civil)
    requires Valid(c) && c.year >= 0
    ensures PeriodKey(t, Weekly) == DayText(c) <==>
      && 86_400_000 * DayFromCivil(c) - 32_400_000 <= t < 86_400_000 * DayFromCivil(c) + 572_400_000
      && WeekDay(DayFromCivil(c)) == 1
  {
    hide DayFromCivil, DayText, CivilFromDay, MondayOf, MakeDay;
    var shown := ShownDate(t, true);
    MondayArithmetic(KstDay(t));
    OneMonday(KstDay(t), DayFromCivil(c));
    if PeriodKey(t, Weekly) == DayText(c) {
      DayTextInjective(shown, c);
    }
    if DayFromCivil(shown) == DayFromCivil(c) {
      DayFromCivilInjective(shown, c);
    }
    WeekOfInstant(t, DayFromCivil(c));
  }

  lemma WeekOfInstant(t: Instant, monday: int)
    ensures monday <= KstDay(t) < monday + 7 <==>
      86_400_000 * monday - 32_400_000 <= t < 86_400_000 * monday + 572_400_000
  {
  }

  lemma OneMonday(day: int, monday: int)
    ensures 7 * WeekBlock(day) - 3 == monday <==> monday <= day < monday + 7 && WeekDay(monday) == 1
  {
    var q, r := (day + 3) / 7, (day + 3) % 7;
    var p, m := (monday + 3) / 7, (monday + 3) % 7;
    assert day == 7 * q + r - 3 && monday == 7 * p + m - 3;
    assert WeekDay(monday) == (m + 1) % 7;
  }

  /** A monthly key is the text of a month exactly from its first day to the day before the next month's. */
  lemma MonthlyKeyShows(t: Instant, year: nat, month: nat)
    requires 1 <= month <= 12
    ensures var first := Civil(year, month, 1);
      var next := if month == 12 then Civil(year + 1, 1, 1) else Civil(year, month + 1, 1);
      PeriodKey(t, Monthly) == MonthText(first) <==>
        86_400_000 * DayFromCivil(first) - 32_400_000 <= t < 86_400_000 * DayFromCivil(next) - 32_400_000
  {
    var first := Civil(year, month, 1);
    var next := if month == 12 then Civil(year + 1, 1, 1) else Civil(year, month + 1, 1);
    var shown := KstDate(t);
    InsideMonth(shown, year, month);
    hide DayFromCivil, MonthText, CivilFromDay;
    if PeriodKey(t, Monthly) == MonthText(first) {
      MonthTextInjective(shown, first);
    }
    MonthOfInstant(t, DayFromCivil(first), DayFromCivil(next));
  }

  lemma MonthOfInstant(t: Instant, first: int, next: int)
    ensures first <= KstDay(t) < next <==> 86_400_000 * first - 32_400_000 <= t < 86_400_000 * next - 32_400_000
  {
  }

  lemma InsideMonth(c: Civil, year: int, month: int)
    requires Valid(c) && 1 <= month <= 12
    ensures var first := Civil(year, month, 1);
      var next := if month == 12 then Civil(year + 1, 1, 1) else Civil(year, month + 1, 1);
      c.year == year && c.month == month <==> DayFromCivil(first) <= DayFromCivil(c) < DayFromCivil(next)
  {
    NextFirst(year, month);
    if c.year == year {
      InsideMonthOfYear(c, month);
    } else {
      OtherYear(c, Civil(year, month, MonthLength(month, Leap(year))));
    }
  }

  lemma NextFirst(year: int, month: int)
    requires 1 <= month <= 12
    ensures var next := if month == 12 then Civil(year + 1, 1, 1) else Civil(year, month + 1, 1);
      DayFromCivil(next) == DayFromCivil(Civil(year, month, MonthLength(month, Leap(year)))) + 1
  {
    NextYear(year);
    MonthsFillTheYear(Leap(year));
    hide DayFromYear;
  }

  lemma InsideMonthOfYear(c: Civil, month: int)
    requires Valid(c) && 1 <= month <= 12
    ensures var leap := Leap(c.year);
      c.month == month <==>
        DayFromCivil(Civil(c.year, month, 1)) <= DayFromCivil(c) <=
          DayFromCivil(Civil(c.year, month, MonthLength(month, leap)))
  {
    hide DayFromYear;
    if c.month < month {
      MonthsInOrder(c.month, month, Leap(c.year));
    } else if month < c.month {
      MonthsInOrder(month, c.month, Leap(c.year));
    }
  }

  lemma OtherYear(c: Civil, last: Civil)
    requires Valid(c) && Valid(last) && c.year != last.year
    ensures DayFromCivil(c) < DayFromCivil(last.(day := 1)) || DayFromCivil(last) < DayFromCivil(c)
  {
    DayInsideItsYear(c);
    DayInsideItsYear(last);
    DayInsideItsYear(last.(day := 1));
    hide DayFromYear, DayFromCivil;
    if c.year < last.year {
      YearsInOrder(c.year, last.year);
    } else {
      YearsInOrder(last.year, c.year);
    }
  }

  lemma DaysOfSpring()
    ensures DayFromCivil(Civil(2024, 5, 1)) == 19_844 && DayFromCivil(Civil(2024, 6, 1)) == 19_875
    ensures DayFromCivil(Civil(2024, 4, 29)) == 19_842
  {
    hide DayFromYear, DayFromCivil;
    DayInClosedForm(Civil(2024, 5, 1));
    DayInClosedForm(Civil(2024, 6, 1));
    DayInClosedForm(Civil(2024, 4, 29));
  }

  /** At noon of 1 May 2024, a Wednesday. */
  lemma KeysOfMayDay(t: Instant)
    requires t == 1_714_532_400_000
    ensures PeriodKey(t, Daily) == "2024-05-01"
    ensures PeriodKey(t, Weekly) == "2024-04-29"
    ensures PeriodKey(t, Monthly) == "2024-05"
  {
    hide DayFromCivil, PeriodKey, DayText, MonthText;
    DaysOfSpring();
    Text2024();
    DailyKeyShows(t, Civil(2024, 5, 1));
    WeeklyKeyShows(t, Civil(2024, 4, 29));
    MonthlyKeyShows(t, 2024, 5);
  }

  lemma Text2024()
    ensures DayText(Civil(2024, 5, 1)) == "2024-05-01" && DayText(Civil(2024, 4, 29)) == "2024-04-29"
    ensures MonthText(Civil(2024, 5, 1)) == "2024-05"
  {
    assert Digits(2024) == "2024" by {
      ValueOfFour("2024");
      ValueOfTwo("2024"[..2]);
      ValueOfTwo("2024"[2..]);
      DigitsOfValue("2024");
    }
    assert Digits(29) == [Digit(2), Digit(9)];
    assert Pad2(4) == "04" && Pad2(5) == "05" && Pad2(1) == "01" && Pad2(29) == "29";
    hide Digits, Pad2;
  }
}
