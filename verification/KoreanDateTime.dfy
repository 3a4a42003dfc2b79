/**
 KST local-time text of `src/lib/datetime.ts`. Dates are instants in milliseconds; an
 invalid `Date` is `None`. The offset of Asia/Seoul at an instant is a parameter, since
 the formatter follows the history of the time zone while the parser counts on nine hours.
 So is the hour that stands for midnight.
 */
module KoreanDateTime {
  import opened Wrappers
  import opened CivilCalendar
  import opened DecimalText

  const KST: int := 32_400_000

  /** The time zone's offset from UTC at an instant. */
  type Zone = int -> int

  ghost predicate ValidZone(zone: Zone) { forall t :: -MS_PER_DAY < zone(t) < MS_PER_DAY }

  /**
   Whether the hours of the formatter are 0 to 23 or 1 to 24. The code asks for `h23`, but it also
   passes `hour12`, which cancels the request in ECMA-402 and leaves the choice to the host's locale data.
   */
  datatype HourCycle = H23 | H24

  // ---- the clock reading of an instant ----------------------------------------------------

  /** A calendar minute. */
  datatype Reading = Reading(date: Civil, hour: int, minute: int)

  predicate IsCalendarMinute(r: Reading) {
    Valid(r.date) && 0 <= r.hour < 24 && 0 <= r.minute < 60
  }

  /** A minute as a text may name it: 24 is the hour of a midnight, too. */
  predicate IsClockMinute(r: Reading) {
    Valid(r.date) && 0 <= r.hour <= 24 && 0 <= r.minute < 60
  }

  /** The minutes that a formatter shows. */
  predicate IsShownMinute(r: Reading, cycle: HourCycle) {
    IsClockMinute(r) && r.hour != if cycle.H24? then 0 else 24
  }

  /** What a clock shows whose own time, counted in milliseconds, is `local`. */
  function ReadingAt(local: int): (r: Reading)
    ensures IsCalendarMinute(r)
  {
    var inDay := local % MS_PER_DAY;
    Reading(CivilFromDay(local / MS_PER_DAY), inDay / MS_PER_HOUR, inDay % MS_PER_HOUR / MS_PER_MINUTE)
  }

  /** The instant at which the KST clock shows the reading, at zero seconds. */
  function InstantOf(r: Reading): int {
    DayFromCivil(r.date) * MS_PER_DAY + (r.hour - 9) * MS_PER_HOUR + r.minute * MS_PER_MINUTE
  }

  function FlooredToMinute(t: int): (floored: int)
    ensures floored <= t < floored + MS_PER_MINUTE
  {
    t - t % MS_PER_MINUTE
  }

  /** How many whole minutes a clock has counted, from the parts it shows. */
  function MinutesShown(local: int): int {
    var inDay := local % MS_PER_DAY;
    (local / MS_PER_DAY * 24 + inDay / MS_PER_HOUR) * 60 + inDay % MS_PER_HOUR / MS_PER_MINUTE
  }

  lemma ClockParts(local: int)
    ensures MinutesShown(local) * MS_PER_MINUTE == FlooredToMinute(local)
  {
    var day, inDay := local / MS_PER_DAY, local % MS_PER_DAY;
    var hour, inHour := inDay / MS_PER_HOUR, inDay % MS_PER_HOUR;
    var minute, rest := inHour / MS_PER_MINUTE, inHour % MS_PER_MINUTE;
    assert local == day * MS_PER_DAY + inDay && inDay == hour * MS_PER_HOUR + inHour;
    RestOfMinute((day * 24 + hour) * 60 + minute, rest);
  }

  lemma RestOfMinute(minutes: int, rest: int)
    requires 0 <= rest < MS_PER_MINUTE
    ensures FlooredToMinute(minutes * MS_PER_MINUTE + rest) == minutes * MS_PER_MINUTE
  {
  }

  lemma InstantOfReading(local: int)
    ensures InstantOf(ReadingAt(local)) + KST == FlooredToMinute(local)
  {
    ClockParts(local);
    assert DayFromCivil(ReadingAt(local).date) == local / MS_PER_DAY;
    hide CivilFromDay, DayFromCivil;
  }

  lemma ReadingOfInstant(r: Reading, within: int)
    requires IsCalendarMinute(r) && 0 <= within < MS_PER_MINUTE
    ensures ReadingAt(InstantOf(r) + within + KST) == r
  {
    var day := DayFromCivil(r.date);
    hide DayFromCivil, CivilFromDay;
    CivilRoundTrip(r.date);
    ClockShows(day, r.hour, r.minute, within);
    assert InstantOf(r) + within + KST == day * MS_PER_DAY + (r.hour * MS_PER_HOUR + r.minute * MS_PER_MINUTE + within);
  }

  lemma ClockShows(day: int, hour: int, minute: int, within: int)
    requires 0 <= hour < 24 && 0 <= minute < 60 && 0 <= within < MS_PER_MINUTE
    ensures var inDay := hour * MS_PER_HOUR + minute * MS_PER_MINUTE + within; var local := day * MS_PER_DAY + inDay;
      && local / MS_PER_DAY == day && local % MS_PER_DAY == inDay
      && inDay / MS_PER_HOUR == hour && inDay % MS_PER_HOUR / MS_PER_MINUTE == minute
  {
    var inHour := minute * MS_PER_MINUTE + within;
    var inDay := hour * MS_PER_HOUR + inHour;
    assert 0 <= inHour < MS_PER_HOUR && 0 <= inDay < MS_PER_DAY;
    Quotient(day, inDay, MS_PER_DAY);
    Quotient(hour, inHour, MS_PER_HOUR);
    Quotient(minute, within, MS_PER_MINUTE);
  }

  lemma Quotient(q: int, rest: int, unit: int)
    requires 0 <= rest < unit && unit in {MS_PER_DAY, MS_PER_HOUR, MS_PER_MINUTE}
    ensures (q * unit + rest) / unit == q && (q * unit + rest) % unit == rest
  {
    if unit == MS_PER_DAY {
    } else if unit == MS_PER_HOUR {
    }
  }

  lemma SameReading(x: int, y: int)
    ensures ReadingAt(x) == ReadingAt(y) <==> FlooredToMinute(x) == FlooredToMinute(y)
  {
    hide ReadingAt, InstantOf;
    InstantOfReading(x);
    InstantOfReading(y);
    ReadingOfInstant(ReadingAt(x), x % MS_PER_MINUTE);
    ReadingOfInstant(ReadingAt(x), y % MS_PER_MINUTE);
  }

  /** Whole hours do not matter to a minute. */
  lemma FlooredWithOffset(t: int)
    ensures FlooredToMinute(t + KST) == FlooredToMinute(t) + KST
  {
  }

  lemma FlooredWithin(t: int, within: int)
    requires 0 <= within < MS_PER_MINUTE
    ensures FlooredToMinute(FlooredToMinute(t) + within) == FlooredToMinute(t)
  {
    RestOfMinute(t / MS_PER_MINUTE, within);
  }

  /** A clock shows a year exactly while the year lasts. */
  lemma LocalBounds(local: int)
    ensures var year := ReadingAt(local).date.year;
      DayFromYear(year) * MS_PER_DAY <= local < DayFromYear(year + 1) * MS_PER_DAY
  {
    var c := ReadingAt(local).date;
    DayInsideItsYear(c);
    NextYear(c.year);
  }

  // ---- text ---------------------------------------------------------------------------------

  /** The year a formatter without an era shows: 1 BC, the year 0, is shown as 1. */
  function EraYear(year: int): nat { if year >= 1 then year else 1 - year }

  /** Years are counted from 1 in both directions. */
  lemma YearsOfEras(year: int)
    ensures EraYear(1) == 1 && EraYear(0) == 1
    ensures if year >= 1 then EraYear(year + 1) == EraYear(year) + 1 else EraYear(year - 1) == EraYear(year) + 1
  {
  }

  /** A text made of a year of four digits and the rest of a reading. */
  function WithYear(year: string, r: Reading): string
    requires IsClockMinute(r)
  {
    year + "-" + Pad2(r.date.month) + "-" + Pad2(r.date.day) + "T" + Pad2(r.hour) + ":" + Pad2(r.minute)
  }

  /** The reading with midnight's hour as it is shown, on the same date. */
  function Shown(r: Reading, cycle: HourCycle): (shown: Reading)
    requires IsCalendarMinute(r)
    ensures IsShownMinute(shown, cycle)
  {
    if r.hour == 0 && cycle.H24? then r.(hour := 24) else r
  }

  /** `YYYY-MM-DDTHH:mm`, with the year as it is. */
  function Stamp(r: Reading, cycle: HourCycle): string
    requires IsCalendarMinute(r)
  {
    WithYear(Digits(EraYear(r.date.year)), Shown(r, cycle))
  }

  /** How much later a reader takes a reading to be that counts hour 24 as the end of its date. */
  function Late(hour: int): int { if hour == 24 then MS_PER_DAY else 0 }

  /** `formatKoreanDateTimeLocalValue`. */
  function FormatLocal(value: Option<int>, zone: Zone, cycle: HourCycle): string {
    match value
    case None => ""
    case Some(t) => Stamp(ReadingAt(t + zone(t)), cycle)
  }

  predicate DigitsIn(s: string, from: nat, to: nat)
    requires from <= to <= |s|
  {
    AllDigits(s[from..to])
  }

  /** The shape `^\d{4}-\d{2}-\d{2}T\d{2}:\d{2}$`. */
  predicate LocalShape(s: string) {
    && |s| == 16
    && DigitsIn(s, 0, 4) && s[4] == '-' && DigitsIn(s, 5, 7) && s[7] == '-' && DigitsIn(s, 8, 10)
    && s[10] == 'T' && DigitsIn(s, 11, 13) && s[13] == ':' && DigitsIn(s, 14, 16)
  }

  /** The five numbers of such a text, in or out of range. */
  function Fields(s: string): Reading
    requires LocalShape(s)
  {
    Reading(Civil(Value(s[0..4]), Value(s[5..7]), Value(s[8..10])), Value(s[11..13]), Value(s[14..16]))
  }

  /** `parseKoreanDateTimeLocalValue` of a text that has the shape. */
  function ParsedAt(s: string): int
    requires LocalShape(s)
  {
    var f := Fields(s);
    DateUtc(f.date.year, f.date.month - 1, f.date.day, f.hour - 9, f.minute)
  }

  function ParseLocal(s: string): Option<int> { if LocalShape(s) then Some(ParsedAt(s)) else None }

  /** Five pieces of the right lengths, joined, are found again at their places. */
  lemma Pieces(y: string, m: string, d: string, h: string, n: string)
    requires |y| == 4 && |m| == |d| == |h| == |n| == 2
    requires AllDigits(y) && AllDigits(m) && AllDigits(d) && AllDigits(h) && AllDigits(n)
    ensures var s := y + "-" + m + "-" + d + "T" + h + ":" + n;
      LocalShape(s) && s[0..4] == y && s[5..7] == m && s[8..10] == d && s[11..13] == h && s[14..16] == n
  {
    var s := y + "-" + m + "-" + d + "T" + h + ":" + n;
    assert s[0..4] == y && s[5..7] == m && s[8..10] == d && s[11..13] == h && s[14..16] == n;
  }

  lemma WithYearShape(year: string, r: Reading)
    requires IsClockMinute(r) && AllDigits(year) && |year| == 4
    ensures var s := WithYear(year, r);
      LocalShape(s) && Fields(s) == r.(date := r.date.(year := Value(year)))
  {
    hide Pad2, Value, AllDigits;
    Pieces(year, Pad2(r.date.month), Pad2(r.date.day), Pad2(r.hour), Pad2(r.minute));
    hide LocalShape;
    ValueOfPad2(r.date.month);
    ValueOfPad2(r.date.day);
    ValueOfPad2(r.hour);
    ValueOfPad2(r.minute);
  }

  /** The text of its own fields, if these are in range. */
  lemma TextOfFields(s: string)
    requires LocalShape(s) && IsClockMinute(Fields(s))
    ensures WithYear(s[0..4], Fields(s)) == s
  {
    Pad2OfValue(s[5..7]);
    Pad2OfValue(s[8..10]);
    Pad2OfValue(s[11..13]);
    Pad2OfValue(s[14..16]);
    hide Pad2, Value;
    assert s == s[0..4] + "-" + s[5..7] + "-" + s[8..10] + "T" + s[11..13] + ":" + s[14..16];
  }

  lemma YearOfText(s: string)
    requires LocalShape(s)
    ensures 0 <= Fields(s).date.year < 10_000
    ensures s[0..4] == Padded(Digits(Fields(s).date.year), 4)
    ensures Fields(s).date.year >= 1000 ==> s[0..4] == Digits(Fields(s).date.year)
  {
    var year := s[0..4];
    ValueBound(year);
    PaddedOfValue(year);
    DigitsLength(Value(year));
  }

  lemma StampShape(r: Reading, cycle: HourCycle)
    requires IsCalendarMinute(r) && 1000 <= EraYear(r.date.year) <= 9999
    ensures LocalShape(Stamp(r, cycle))
    ensures Fields(Stamp(r, cycle)) == Shown(r, cycle).(date := r.date.(year := EraYear(r.date.year)))
  {
    var year := EraYear(r.date.year);
    DigitsLength(year);
    ValueOfDigits(year);
    hide Digits;
    WithYearShape(Digits(year), Shown(r, cycle));
  }

  /** The calendar minute that a text shows. */
  function Meant(f: Reading): Reading { if f.hour == 24 then f.(hour := 0) else f }

  lemma StampOfFields(s: string, cycle: HourCycle)
    requires LocalShape(s) && IsShownMinute(Fields(s), cycle) && Fields(s).date.year >= 1000
    ensures Stamp(Meant(Fields(s)), cycle) == s
  {
    hide WithYear, Value, Digits, LocalShape;
    YearOfText(s);
    TextOfFields(s);
  }

  /** A stamp of 16 characters has a year of four digits. */
  lemma SixteenCharacters(r: Reading, cycle: HourCycle)
    requires IsCalendarMinute(r)
    ensures |Stamp(r, cycle)| == 16 <==> 1000 <= EraYear(r.date.year) <= 9999
  {
    hide Digits, Pad2;
    DigitsLength(EraYear(r.date.year));
  }

  lemma ShapeIsSixteen(s: string)
    ensures LocalShape(s) ==> |s| == 16
  {
  }

  /** A text that names a minute from the year 100 on is read as the instant of that minute. */
  lemma ParsedFields(s: string)
    requires LocalShape(s) && IsClockMinute(Fields(s)) && Fields(s).date.year >= 100
    ensures ParsedAt(s) == InstantOf(Fields(s))
  {
    var f := Fields(s);
    hide LocalShape, Fields;
    MakeDayInRange(f.date.year, f.date.month, f.date.day);
  }

  /** Years written with four digits are read as years of our era, whatever the other fields. */
  lemma ParsedInOurEra(s: string)
    requires LocalShape(s) && Fields(s).date.year >= 1000
    ensures ParsedAt(s) > DayFromYear(2) * MS_PER_DAY
  {
    hide LocalShape, Fields, DayFromYear, MonthStart;
    var f := Fields(s);
    FieldsNotNegative(s);
    var monthIndex := f.date.month - 1;
    var year := f.date.year + monthIndex / 12;
    ClosedForm(2);
    ClosedForm(999);
    YearsMonotone(999, year);
    MonthStartNotNegative(monthIndex % 12 + 1, Leap(year));
  }

  lemma FieldsNotNegative(s: string)
    requires LocalShape(s)
    ensures var f := Fields(s);
      f.date.month >= 0 && f.date.day >= 0 && f.hour >= 0 && f.minute >= 0
  {
  }

  lemma {:induction false} MonthStartNotNegative(month: int, leap: bool)
    ensures MonthStart(month, leap) >= 0
    decreases month
  {
    if month <= 1 {
    } else {
      MonthStartNotNegative(month - 1, leap);
    }
  }

  /** A clock that shows a year before our era is far behind such an instant. */
  lemma BeforeOurEra(local: int)
    requires ReadingAt(local).date.year <= 0
    ensures local < DayFromYear(1) * MS_PER_DAY
  {
    hide ReadingAt, DayFromYear;
    LocalBounds(local);
    YearsMonotone(ReadingAt(local).date.year + 1, 1);
  }

  /** The offset differs from nine hours by less than would show in the minute at which a text is read. */
  predicate OffsetShowsAsKst(offset: int) { 0 <= offset - KST < MS_PER_MINUTE }

  /** Formatting a parsed text gives it back if it names a shown minute of the zone. */
  lemma ShownMinuteFormats(s: string, zone: Zone, cycle: HourCycle)
    requires LocalShape(s) && IsShownMinute(Fields(s), cycle) && Fields(s).date.year >= 1000
    requires OffsetShowsAsKst(zone(ParsedAt(s)) + Late(Fields(s).hour))
    ensures FormatLocal(Some(ParsedAt(s)), zone, cycle) == s
  {
    hide LocalShape, Fields, Stamp, ReadingAt, ParsedAt, DayFromCivil;
    var t := ParsedAt(s);
    var r := Meant(Fields(s));
    var within := zone(t) + Late(Fields(s).hour) - KST;
    ParsedFields(s);
    StampOfFields(s, cycle);
    ReadingOfInstant(r, within);
    assert t + zone(t) == InstantOf(r) + within + KST;
  }

  /** The reading that a formatted text shows, if it has the shape of the parser. */
  lemma ReadingShown(s: string, r: Reading, cycle: HourCycle)
    requires LocalShape(s) && IsCalendarMinute(r) && Stamp(r, cycle) == s
    ensures 1000 <= EraYear(r.date.year) <= 9999
    ensures Fields(s) == Shown(r, cycle).(date := r.date.(year := EraYear(r.date.year)))
  {
    ShapeIsSixteen(s);
    SixteenCharacters(r, cycle);
    hide LocalShape, Fields, Stamp, IsCalendarMinute;
    StampShape(r, cycle);
  }

  /** What is parsed as a year from 1000 on is not shown as a year before our era. */
  lemma ShownInOurEra(s: string, zone: Zone)
    requires LocalShape(s) && ValidZone(zone) && Fields(s).date.year >= 1000
    ensures ReadingAt(ParsedAt(s) + zone(ParsedAt(s))).date.year >= 1
  {
    hide LocalShape, Fields, ReadingAt, ParsedAt, DayFromYear;
    var local := ParsedAt(s) + zone(ParsedAt(s));
    ParsedInOurEra(s);
    ClosedForm(1);
    ClosedForm(2);
    if ReadingAt(local).date.year <= 0 {
      BeforeOurEra(local);
    }
  }

  /** And it is given back only then. */
  lemma FormatsOnlyShownMinute(s: string, zone: Zone, cycle: HourCycle)
    requires LocalShape(s) && ValidZone(zone) && FormatLocal(Some(ParsedAt(s)), zone, cycle) == s
    ensures IsShownMinute(Fields(s), cycle) && Fields(s).date.year >= 1000
    ensures OffsetShowsAsKst(zone(ParsedAt(s)) + Late(Fields(s).hour))
  {
    hide LocalShape, Fields, Stamp, ReadingAt, ParsedAt, ValidZone, DayFromCivil;
    var t := ParsedAt(s);
    var local := t + zone(t);
    ReadingShown(s, ReadingAt(local), cycle);
    ShownInOurEra(s, zone);
    assert Fields(s) == Shown(ReadingAt(local), cycle);
    ParsedFields(s);
    InstantOfReading(local);
  }

  /**
   Formatting a parsed text gives the text back exactly when it names a minute the formatter can show
   (month 13 and 30 February are rolled over by `Date.UTC`), of a year from 1000 on (years are not
   padded), at which the zone's offset shows as nine hours, as it does since the last summer time of 1988.
   A text with hour 24 is read as the next day, so only an offset one day smaller would give it back.
   */
  lemma FormatOfParse(s: string, zone: Zone, cycle: HourCycle)
    requires LocalShape(s) && ValidZone(zone)
    ensures var t := ParsedAt(s); var f := Fields(s);
      FormatLocal(Some(t), zone, cycle) == s <==>
        IsShownMinute(f, cycle) && f.date.year >= 1000 && OffsetShowsAsKst(zone(t) + Late(f.hour))
  {
    hide LocalShape, Fields, ParsedAt, FormatLocal, IsShownMinute, ValidZone, OffsetShowsAsKst, Late;
    var t, f := ParsedAt(s), Fields(s);
    if FormatLocal(Some(t), zone, cycle) == s {
      FormatsOnlyShownMinute(s, zone, cycle);
    }
    if IsShownMinute(f, cycle) && f.date.year >= 1000 && OffsetShowsAsKst(zone(t) + Late(f.hour)) {
      ShownMinuteFormats(s, zone, cycle);
    }
  }

  /**
   Reading back a formatted instant gives it floored to the minute exactly when its year is from 1000
   to 9999 and the minute read, a day late in the first hour of a day if midnight is shown as 24, is the one
   that a clock nine hours ahead shows. At nine hours that is every hour but this one. A year with more or
   fewer digits cannot be read back at all.
   */
  lemma ParseOfFormat(t: int, zone: Zone, cycle: HourCycle)
    requires ValidZone(zone)
    ensures var r := ReadingAt(t + zone(t)); var parsed := ParseLocal(FormatLocal(Some(t), zone, cycle));
      var late := if r.hour == 0 && cycle.H24? then MS_PER_DAY else 0;
      && (parsed == Some(FlooredToMinute(t)) <==>
            1000 <= r.date.year <= 9999 && FlooredToMinute(t + zone(t)) + late == FlooredToMinute(t + KST))
      && (1000 <= r.date.year <= 9999 && FlooredToMinute(t + zone(t)) == FlooredToMinute(t + KST) ==>
            parsed == Some(FlooredToMinute(t) + late))
      && (parsed == None <==> !(1000 <= r.date.year <= 9999 || -9998 <= r.date.year <= -999))
  {
    hide Stamp, Fields, ReadingAt, LocalShape, ParsedAt, FlooredToMinute, DayFromCivil;
    var r := ReadingAt(t + zone(t));
    var s := Stamp(r, cycle);
    if 1000 <= EraYear(r.date.year) <= 9999 {
      StampShape(r, cycle);
      if r.date.year <= 0 {
        ParsedElsewhere(t, zone, cycle);
      } else {
        assert Fields(s) == Shown(r, cycle);
        ParsedFields(s);
        InstantOfReading(t + zone(t));
        FlooredWithOffset(t);
      }
    } else {
      SixteenCharacters(r, cycle);
      ShapeIsSixteen(s);
    }
  }

  /** A year before our era that is shown with four digits is read as one of our era. */
  lemma ParsedElsewhere(t: int, zone: Zone, cycle: HourCycle)
    requires ValidZone(zone)
    requires var r := ReadingAt(t + zone(t)); r.date.year <= 0 && 1000 <= EraYear(r.date.year) <= 9999
    requires LocalShape(Stamp(ReadingAt(t + zone(t)), cycle))
    ensures ParsedAt(Stamp(ReadingAt(t + zone(t)), cycle)) > t
  {
    hide Stamp, Fields, ReadingAt, IsCalendarMinute, LocalShape, ParsedAt, DayFromYear;
    var r := ReadingAt(t + zone(t));
    StampShape(r, cycle);
    ParsedInOurEra(Stamp(r, cycle));
    BeforeOurEra(t + zone(t));
    ClosedForm(1);
    ClosedForm(2);
  }

  // ---- where the round trips fail ------------------------------------------------------------

  lemma FirstHourIsLate(r: Reading)
    requires IsCalendarMinute(r) && r.hour == 0 && 1000 <= r.date.year <= 9999
    ensures ParseLocal(FormatLocal(Some(InstantOf(r)), _ => KST, H24)) == Some(InstantOf(r) + MS_PER_DAY)
  {
    hide DayFromCivil, ReadingAt, FormatLocal, ParseLocal;
    var t := InstantOf(r);
    ReadingOfInstant(r, 0);
    InstantOfReading(t + KST);
    FlooredWithOffset(t);
    ParseOfFormat(t, _ => KST, H24);
  }

  /** If midnight is shown as 24, half past midnight on 1 January 2024 is read back a day late. */
  lemma HalfPastMidnightIsLate()
    ensures var t := InstantOf(Reading(Civil(2024, 1, 1), 0, 30));
      ParseLocal(FormatLocal(Some(t), _ => KST, H24)) == Some(t + MS_PER_DAY)
  {
    hide InstantOf, FormatLocal, ParseLocal;
    FirstHourIsLate(Reading(Civil(2024, 1, 1), 0, 30));
  }

  lemma FieldsOfPieces(y: string, m: string, d: string, h: string, n: string)
    requires |y| == 4 && |m| == |d| == |h| == |n| == 2
    requires AllDigits(y) && AllDigits(m) && AllDigits(d) && AllDigits(h) && AllDigits(n)
    ensures var s := y + "-" + m + "-" + d + "T" + h + ":" + n;
      LocalShape(s) && Fields(s) == Reading(Civil(Value(y), Value(m), Value(d)), Value(h), Value(n))
  {
    hide Value, AllDigits;
    Pieces(y, m, d, h, n);
    hide LocalShape;
  }

  lemma Numerals()
    ensures Value("2024") == 2024 && Value("12") == 12 && Value("30") == 30
    ensures Value("02") == 2 && Value("03") == 3 && Value("01") == 1
  {
    hide Value;
    ValueOfFour("2024");
    assert "2024"[..2] == "20" && "2024"[2..] == "24";
    ValueOfTwo("20");
    ValueOfTwo("24");
    ValueOfTwo("12");
    ValueOfTwo("30");
    ValueOfTwo("02");
    ValueOfTwo("03");
    ValueOfTwo("01");
  }

  /** In a leap year a text that names 30 February is formatted as the one that names 1 March. */
  lemma RollsOver(s: string, shown: string, cycle: HourCycle)
    requires LocalShape(s) && Fields(s).date.month == 2 && Fields(s).date.day == 30
    requires LocalShape(shown) && Fields(shown) == Fields(s).(date := Civil(Fields(s).date.year, 3, 1))
    requires IsShownMinute(Fields(shown), cycle) && Fields(s).date.year >= 1000 && Leap(Fields(s).date.year)
    requires Fields(s).hour < 24
    ensures FormatLocal(ParseLocal(s), _ => KST, cycle) == shown
  {
    hide LocalShape, Fields, DayFromYear, FormatLocal;
    assert MonthStart(2, true) == 31 && MonthStart(3, true) == 60;
    assert ParsedAt(s) == ParsedAt(shown);
    ShownMinuteFormats(shown, _ => KST, cycle);
  }

  /** 30 February is not refused: it is read as, and then shown as, 1 March. */
  lemma ThirtiethOfFebruaryRollsOver(cycle: HourCycle)
    ensures FormatLocal(ParseLocal("2024-02-30T12:30"), _ => KST, cycle) == "2024-03-01T12:30"
  {
    hide Value, LocalShape, Fields, FormatLocal, ParseLocal;
    FieldsOfPieces("2024", "02", "30", "12", "30");
    FieldsOfPieces("2024", "03", "01", "12", "30");
    assert "2024-02-30T12:30" == "2024" + "-" + "02" + "-" + "30" + "T" + "12" + ":" + "30";
    assert "2024-03-01T12:30" == "2024" + "-" + "03" + "-" + "01" + "T" + "12" + ":" + "30";
    Numerals();
    RollsOver("2024-02-30T12:30", "2024-03-01T12:30", cycle);
  }
}
