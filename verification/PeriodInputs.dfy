/**
 The inputs for coupon and advertising periods: `src/lib/ad-coupon-period.ts` and the date
 parsing of `src/lib/ad-package-validation.ts`. `toISOString` followed by `new Date` is the
 identity.
 */
module PeriodInputs {
  import opened Wrappers
  import opened CivilCalendar
  import opened DecimalText
  import opened JsText
  import opened KoreanDateTime

  /** The range of a `Date` (section 21.4.1.1 of ECMA-262). */
  const MAX_TIME: int := 8_640_000_000_000_000

  predicate IsTime(t: int) { -MAX_TIME <= t <= MAX_TIME }

  type Time = t: int | -8_640_000_000_000_000 <= t <= 8_640_000_000_000_000 witness 0

  // ---- toDateTimeLocalInput ------------------------------------------------------------------

  /** The year in `toISOString`: four digits, or six with a sign (section 21.4.1.32.1 of ECMA-262). */
  function IsoYear(year: int): string {
    if 0 <= year <= 9999 then Padded(Digits(year), 4)
    else if year > 0 then "+" + Padded(Digits(year), 6)
    else "-" + Padded(Digits(-year), 6)
  }

  function Millis(n: nat): string { if n < 100 then "0" + Pad2(n) else Digits(n) }

  function SecondsText(t: int): string {
    var inMinute := t % MS_PER_MINUTE;
    ":" + Pad2(inMinute / 1000) + "." + Millis(inMinute % 1000) + "Z"
  }

  /** `toISOString` of a date. */
  function IsoText(t: Time): string {
    var r := ReadingAt(t);
    WithYear(IsoYear(r.date.year), r) + SecondsText(t)
  }

  datatype RangeError = InvalidTimeValue

  /** `new Date(t + 9h).toISOString().slice(0, 16)`; `toISOString` throws past the range of a `Date`. */
  function ToDateTimeLocalInput(value: Option<int>): Result<string, RangeError> {
    match value
    case None => Ok("")
    case Some(t) =>
      if !IsTime(t + KST) then Err(InvalidTimeValue)
      else
        var iso := IsoText(t + KST);
        Ok(if |iso| <= 16 then iso else iso[..16])
  }

  /** A year with a sign and six digits leaves room for the hour only. */
  function UpToHour(r: Reading): string
    requires IsCalendarMinute(r)
  {
    IsoYear(r.date.year) + "-" + Pad2(r.date.month) + "-" + Pad2(r.date.day) + "T" + Pad2(r.hour)
  }

  /** The first sixteen characters: a minute of a year from 0 to 9999, an hour of any other year. */
  function FormText(r: Reading): string
    requires IsCalendarMinute(r)
  {
    if 0 <= r.date.year <= 9999 then WithYear(IsoYear(r.date.year), r) else UpToHour(r)
  }

  lemma SixDigits(n: nat)
    requires n < 1_000_000
    ensures |Digits(n)| <= 6
  {
    if n < 10_000 {
      DigitsLength(n);
    } else {
      var tens := n / 10;
      assert |Digits(n)| == |Digits(tens)| + 1 && |Digits(tens)| == |Digits(tens / 10)| + 1;
      hide Digits;
      DigitsLength(tens / 10);
    }
  }

  /** The years of the range of a `Date` have at most six digits. */
  lemma YearInRange(t: Time)
    ensures -1_000_000 < ReadingAt(t).date.year < 1_000_000
  {
    hide ReadingAt, DayFromYear;
    var year := ReadingAt(t).date.year;
    LocalBounds(t);
    ClosedForm(1_000_000);
    ClosedForm(-999_999);
    if year >= 1_000_000 {
      YearsMonotone(1_000_000, year);
    }
    if year <= -1_000_000 {
      YearsMonotone(year + 1, -999_999);
    }
  }

  lemma IsoYearLength(year: int)
    requires -1_000_000 < year < 1_000_000
    ensures var digits := if 0 <= year <= 9999 then IsoYear(year) else IsoYear(year)[1..];
      && AllDigits(digits) && |digits| == (if 0 <= year <= 9999 then 4 else 6)
      && Value(digits) == (if year >= 0 then year else -year)
    ensures !(0 <= year <= 9999) ==> IsoYear(year)[0] == if year > 0 then '+' else '-'
  {
    var n := if year >= 0 then year else -year;
    ValueOfDigits(n);
    DigitsLength(n);
    SixDigits(n);
    hide Digits;
    PaddedKeepsValue(Digits(n), if 0 <= year <= 9999 then 4 else 6);
  }

  /** The first sixteen characters of a date's text, whatever follows the minute. */
  lemma SixteenOfText(r: Reading, rest: string)
    requires IsCalendarMinute(r) && -1_000_000 < r.date.year < 1_000_000
    ensures var text := WithYear(IsoYear(r.date.year), r) + rest;
      |text| >= 16 && text[..16] == FormText(r) && |FormText(r)| == 16
  {
    IsoYearLength(r.date.year);
    hide IsoYear, Pad2;
    var year := IsoYear(r.date.year);
    if 0 <= r.date.year <= 9999 {
      assert |WithYear(year, r)| == 16;
    } else {
      assert |UpToHour(r)| == 16;
      assert WithYear(year, r) == UpToHour(r) + (":" + Pad2(r.minute));
    }
  }

  lemma ShownInForm(t: Time)
    requires IsTime(t + KST)
    ensures ToDateTimeLocalInput(Some(t)) == Ok(FormText(ReadingAt(t + KST)))
    ensures |FormText(ReadingAt(t + KST))| == 16
  {
    hide ReadingAt, FormText, WithYear, IsoYear, SecondsText;
    YearInRange(t + KST);
    SixteenOfText(ReadingAt(t + KST), SecondsText(t + KST));
    var iso := IsoText(t + KST);
    assert |iso| == 16 ==> iso[..16] == iso;
  }

  lemma FormTextShape(r: Reading)
    requires IsCalendarMinute(r) && 0 <= r.date.year <= 9999
    ensures LocalShape(FormText(r)) && Fields(FormText(r)) == r
  {
    IsoYearLength(r.date.year);
    WithYearShape(IsoYear(r.date.year), r);
  }

  lemma StampIsFormText(r: Reading, cycle: HourCycle)
    requires IsCalendarMinute(r) && 1000 <= r.date.year <= 9999 && (r.hour != 0 || cycle.H23?)
    ensures Stamp(r, cycle) == FormText(r)
  {
    DigitsLength(r.date.year);
    hide Digits, Pad2;
  }

  lemma SignedText(r: Reading)
    requires IsCalendarMinute(r) && -1_000_000 < r.date.year < 1_000_000 && FormText(r) != ""
    ensures 0 <= r.date.year <= 9999 <==> IsDigit(FormText(r)[0])
  {
    IsoYearLength(r.date.year);
    hide IsoYear, Pad2;
    assert FormText(r)[0] == IsoYear(r.date.year)[0];
  }

  /** Equal texts of a form and of a formatter show the same reading, of a year with four digits. */
  lemma EqualTexts(r: Reading, q: Reading, cycle: HourCycle)
    requires IsCalendarMinute(r) && IsCalendarMinute(q) && -1_000_000 < r.date.year < 1_000_000
    requires |FormText(r)| == 16 && FormText(r) == Stamp(q, cycle)
    ensures 1000 <= r.date.year <= 9999 && Shown(q, cycle) == q
    ensures r == q.(date := q.date.(year := EraYear(q.date.year)))
  {
    SixteenCharacters(q, cycle);
    StampShape(q, cycle);
    IsoYearLength(r.date.year);
    assert Stamp(q, cycle)[0] == Digits(EraYear(q.date.year))[0];
    hide Digits, Pad2, LocalShape, Fields, WithYear, Stamp;
    SignedText(r);
    FormTextShape(r);
  }

  lemma SameMinuteAgrees(t: Time, zone: Zone, cycle: HourCycle)
    requires IsTime(t + KST) && 1000 <= ReadingAt(t + KST).date.year <= 9999
    requires FlooredToMinute(t + zone(t)) == FlooredToMinute(t + KST)
    requires ReadingAt(t + KST).hour != 0 || cycle.H23?
    ensures FormText(ReadingAt(t + KST)) == Stamp(ReadingAt(t + zone(t)), cycle)
  {
    hide FormText, Stamp, IsCalendarMinute, ReadingAt, FlooredToMinute;
    SameReading(t + KST, t + zone(t));
    StampIsFormText(ReadingAt(t + KST), cycle);
  }

  lemma AgreeingIsSameMinute(t: Time, zone: Zone, cycle: HourCycle)
    requires ValidZone(zone) && IsTime(t + KST)
    requires FormText(ReadingAt(t + KST)) == Stamp(ReadingAt(t + zone(t)), cycle)
    ensures 1000 <= ReadingAt(t + KST).date.year <= 9999
    ensures FlooredToMinute(t + zone(t)) == FlooredToMinute(t + KST)
    ensures ReadingAt(t + KST).hour != 0 || cycle.H23?
  {
    hide FormText, Stamp, IsCalendarMinute, ReadingAt, FlooredToMinute, ValidZone, ToDateTimeLocalInput;
    ShownInForm(t);
    YearInRange(t + KST);
    EqualTexts(ReadingAt(t + KST), ReadingAt(t + zone(t)), cycle);
    OneEra(t, zone);
    SameReading(t + KST, t + zone(t));
  }

  /**
   The two formatters agree exactly while the year of the KST clock has four digits, as far as the
   zone's clock shows the same minute as one nine hours ahead; not in the first hour of a day, if midnight
   is shown as 24.
   */
  lemma FormattersAgree(t: Time, zone: Zone, cycle: HourCycle)
    requires ValidZone(zone)
    ensures ToDateTimeLocalInput(Some(t)) == Ok(FormatLocal(Some(t), zone, cycle)) <==>
      && IsTime(t + KST) && 1000 <= ReadingAt(t + KST).date.year <= 9999
      && FlooredToMinute(t + zone(t)) == FlooredToMinute(t + KST)
      && (ReadingAt(t + KST).hour != 0 || cycle.H23?)
  {
    hide FormText, Stamp, IsCalendarMinute, ReadingAt, FlooredToMinute, ValidZone, IsoText;
    if IsTime(t + KST) {
      hide ToDateTimeLocalInput;
      ShownInForm(t);
      if FormText(ReadingAt(t + KST)) == Stamp(ReadingAt(t + zone(t)), cycle) {
        AgreeingIsSameMinute(t, zone, cycle);
      }
      if 1000 <= ReadingAt(t + KST).date.year <= 9999 && FlooredToMinute(t + zone(t)) == FlooredToMinute(t + KST) {
        if ReadingAt(t + KST).hour != 0 || cycle.H23? {
          SameMinuteAgrees(t, zone, cycle);
        }
      }
    }
  }

  /** Two clocks less than two days apart do not show a year from 1000 on and a year before our era. */
  lemma OneEra(t: int, zone: Zone)
    requires ValidZone(zone) && ReadingAt(t + KST).date.year >= 1000
    ensures ReadingAt(t + zone(t)).date.year >= 1
  {
    hide ReadingAt, DayFromYear;
    LocalBounds(t + KST);
    ClosedForm(1);
    ClosedForm(1000);
    YearsMonotone(1000, ReadingAt(t + KST).date.year);
    if ReadingAt(t + zone(t)).date.year <= 0 {
      BeforeOurEra(t + zone(t));
    }
  }

  // ---- parseDateTimeLocal ---------------------------------------------------------------------

  /** The ECMA-262 date-time format with a `+09:00` offset (section 21.4.1.32): out-of-range fields are not valid. */
  function IsoKst(local: string, seconds: nat): Option<int> {
    if !LocalShape(local) then None
    else
      var f := Fields(local);
      if Valid(f.date) && f.minute < 60 && seconds < 60 &&
         (f.hour < 24 || (f.hour == 24 && f.minute == 0 && seconds == 0))
      then Some(InstantOf(f) + 1000 * seconds)
      else None
  }

  /** A signed year of six digits, up to the hour. */
  predicate HourShape(s: string) {
    && |s| == 16 && (s[0] == '+' || s[0] == '-')
    && DigitsIn(s, 1, 7) && s[7] == '-' && DigitsIn(s, 8, 10) && s[10] == '-' && DigitsIn(s, 11, 13)
    && s[13] == 'T' && DigitsIn(s, 14, 16)
  }

  /** The same format after such a text, where the two appended digits are the minute; there is no year -000000. */
  function IsoKstHour(s: string, minute: nat): Option<int> {
    if !HourShape(s) || (s[0] == '-' && Value(s[1..7]) == 0) then None
    else
      var year: int := if s[0] == '-' then 0 - Value(s[1..7]) else Value(s[1..7]);
      var r := Reading(Civil(year, Value(s[8..10]), Value(s[11..13])), Value(s[14..16]), minute);
      if Valid(r.date) && minute < 60 && (r.hour < 24 || (r.hour == 24 && minute == 0)) && IsTime(InstantOf(r))
      then Some(InstantOf(r))
      else None
  }

  datatype ParseError = Missing | BadFormat

  /**
   `parseDateTimeLocal`: seconds and offset are appended to sixteen characters, whatever they are. Text
   of any other shape than the form itself shows is read by `host`, the implementation's `new Date`.
   */
  function ParseDateTimeLocal(value: string, endOfMinute: bool, host: string -> Option<int>): Result<int, ParseError> {
    if value == "" then Err(Missing)
    else
      var seconds := if endOfMinute then 59 else 0;
      var date :=
        if |value| != 16 then host(value)
        else if IsoKst(value, seconds).Some? then IsoKst(value, seconds)
        else if IsoKstHour(value, seconds).Some? then IsoKstHour(value, seconds)
        else host(value + ":" + Pad2(seconds) + "+09:00");
      if date.None? then Err(BadFormat) else Ok(date.value)
  }

  lemma FourDigitDays(c: Civil)
    requires Valid(c) && 0 <= c.year <= 9999
    ensures -1_000_000 < DayFromCivil(c) < 10_000_000
  {
    hide DayFromYear, DayFromCivil;
    DayInsideItsYear(c);
    NextYear(c.year);
    ClosedForm(0);
    ClosedForm(10_000);
    YearsMonotone(0, c.year);
    YearsMonotone(c.year + 1, 10_000);
  }

  /** Instants of the years 0 to 9999 are in the range of a `Date`. */
  lemma FourDigitsInRange(r: Reading, within: int)
    requires IsCalendarMinute(r) && 0 <= r.date.year <= 9999 && 0 <= within < MS_PER_MINUTE
    ensures IsTime(InstantOf(r) + within) && IsTime(InstantOf(r) + within + KST)
  {
    FourDigitDays(r.date);
    hide DayFromCivil;
  }

  function InTheTwentiethCentury(r: Reading): Reading { r.(date := r.date.(year := 1900 + r.date.year)) }

  /** `Date.UTC` takes the years 0 to 99 for 1900 to 1999. */
  lemma SmallYearsMoved(s: string)
    requires LocalShape(s) && IsCalendarMinute(Fields(s)) && Fields(s).date.year < 100
    ensures ParsedAt(s) > InstantOf(Fields(s)) && ParsedAt(s) == InstantOf(InTheTwentiethCentury(Fields(s)))
  {
    hide LocalShape, Fields, DayFromYear, MonthStart;
    var f := Fields(s);
    FieldsNotNegative(s);
    YearOfText(s);
    DayInsideItsYear(f.date);
    NextYear(f.date.year);
    YearsMonotone(f.date.year + 1, 1900 + f.date.year);
    MakeDayInRange(1900 + f.date.year, f.date.month, f.date.day);
    MonthStartNotNegative(f.date.month, Leap(1900 + f.date.year));
  }

  /**
   What is typed as a calendar minute is saved as that minute, or its end, and the form shows it again;
   the other parser reads it alike exactly from the year 100 on.
   */
  lemma FormShowsWhatWasTyped(s: string, endOfMinute: bool, host: string -> Option<int>)
    requires LocalShape(s) && IsCalendarMinute(Fields(s))
    ensures var saved := ParseDateTimeLocal(s, endOfMinute, host);
      && saved == Ok(InstantOf(Fields(s)) + if endOfMinute then 59_000 else 0)
      && ToDateTimeLocalInput(Some(saved.value)) == Ok(s)
      && ParsedAt(s) == InstantOf(if Fields(s).date.year >= 100 then Fields(s) else InTheTwentiethCentury(Fields(s)))
      && (ParsedAt(s) == InstantOf(Fields(s)) <==> Fields(s).date.year >= 100)
  {
    hide Fields, LocalShape, ToDateTimeLocalInput, FormText, ParseDateTimeLocal, InstantOf, ReadingAt, ParsedAt;
    var f := Fields(s);
    var within := if endOfMinute then 59_000 else 0;
    CalendarMinuteIsSaved(s, endOfMinute, host);
    FormTextOfFields(s);
    YearOfText(s);
    FourDigitsInRange(f, within);
    ReadingOfInstant(f, within);
    ShownInForm(InstantOf(f) + within);
    if f.date.year >= 100 {
      ParsedFields(s);
    } else {
      SmallYearsMoved(s);
    }
  }

  lemma CalendarMinuteIsSaved(s: string, endOfMinute: bool, host: string -> Option<int>)
    requires LocalShape(s) && IsCalendarMinute(Fields(s))
    ensures ParseDateTimeLocal(s, endOfMinute, host) == Ok(InstantOf(Fields(s)) + if endOfMinute then 59_000 else 0)
  {
    ShapeIsSixteen(s);
    hide Fields, LocalShape, InstantOf, IsoKstHour;
    assert s != "";
  }

  lemma FormTextOfFields(s: string)
    requires LocalShape(s) && IsCalendarMinute(Fields(s))
    ensures FormText(Fields(s)) == s
  {
    YearOfText(s);
    TextOfFields(s);
    hide Fields, LocalShape, Pad2, Digits;
  }

  const END_OF_HOUR: int := 59 * 60_000

  function FlooredToHour(t: int): int { t - t % MS_PER_HOUR }

  predicate HasFourDigitYear(t: int) { 0 <= ReadingAt(t + KST).date.year <= 9999 }

  /** What reopening and saving makes of an instant. */
  function Reopened(t: int, endOfMinute: bool): int {
    if HasFourDigitYear(t) then FlooredToMinute(t) + if endOfMinute then 59_000 else 0
    else FlooredToHour(t) + if endOfMinute then END_OF_HOUR else 0
  }

  lemma HourTextShape(r: Reading)
    requires IsCalendarMinute(r) && !(0 <= r.date.year <= 9999) && -1_000_000 < r.date.year < 1_000_000
    ensures var s := FormText(r);
      && HourShape(s) && (s[0] == '-' <==> r.date.year < 0) && Value(s[1..7]) > 0
      && Value(s[1..7]) == (if r.date.year < 0 then -r.date.year else r.date.year)
      && Value(s[8..10]) == r.date.month && Value(s[11..13]) == r.date.day && Value(s[14..16]) == r.hour
  {
    var year := IsoYear(r.date.year);
    IsoYearLength(r.date.year);
    ValueOfPad2(r.date.month);
    ValueOfPad2(r.date.day);
    ValueOfPad2(r.hour);
    hide IsoYear, Pad2, Value, AllDigits;
    HourPieces(year[0], year[1..], Pad2(r.date.month), Pad2(r.date.day), Pad2(r.hour));
    assert year == [year[0]] + year[1..];
    hide HourShape;
  }

  /** A sign and four pieces of the right lengths, joined, are found again at their places. */
  lemma HourPieces(sign: char, y: string, m: string, d: string, h: string)
    requires (sign == '+' || sign == '-') && |y| == 6 && |m| == |d| == |h| == 2
    requires AllDigits(y) && AllDigits(m) && AllDigits(d) && AllDigits(h)
    ensures var s := [sign] + y + "-" + m + "-" + d + "T" + h;
      HourShape(s) && s[0] == sign && s[1..7] == y && s[8..10] == m && s[11..13] == d && s[14..16] == h
  {
    var s := [sign] + y + "-" + m + "-" + d + "T" + h;
    assert s[1..7] == y && s[8..10] == m && s[11..13] == d && s[14..16] == h;
    hide AllDigits;
  }

  /** The hour text is read as its hour, with the appended seconds taken for minutes. */
  lemma HourTextIsRead(t: Time, endOfMinute: bool, host: string -> Option<int>)
    requires IsTime(t + KST) && !HasFourDigitYear(t)
    ensures ParseDateTimeLocal(FormText(ReadingAt(t + KST)), endOfMinute, host) == Ok(Reopened(t, endOfMinute))
    ensures Reopened(t, endOfMinute) == InstantOf(ReadingAt(t + KST).(minute := if endOfMinute then 59 else 0))
  {
    hide ReadingAt, FormText, InstantOf, IsoKstHour, IsoKst, FlooredToHour;
    var r := ReadingAt(t + KST);
    var minute := if endOfMinute then 59 else 0;
    YearInRange(t + KST);
    HourOfReading(t, minute);
    ReadUpToHour(r, minute);
    ShownInForm(t);
    assert FormText(r) != "";
  }

  lemma ReadUpToHour(r: Reading, minute: nat)
    requires IsCalendarMinute(r) && !(0 <= r.date.year <= 9999) && -1_000_000 < r.date.year < 1_000_000
    requires minute < 60 && IsTime(InstantOf(r.(minute := minute)))
    ensures IsoKstHour(FormText(r), minute) == Some(InstantOf(r.(minute := minute)))
    ensures IsoKst(FormText(r), minute) == None
  {
    HourTextShape(r);
    SignIsNoDigit(FormText(r));
    hide FormText, InstantOf, HourShape, LocalShape, Value;
  }

  lemma SignIsNoDigit(s: string)
    requires HourShape(s)
    ensures !LocalShape(s)
  {
    assert s[0..4][0] == s[0];
  }

  /** The instant of an hour's first or last minute stays in range. */
  lemma HourOfReading(t: Time, minute: nat)
    requires IsTime(t + KST) && minute < 60
    ensures var r := ReadingAt(t + KST).(minute := minute);
      InstantOf(r) == FlooredToHour(t) + minute * MS_PER_MINUTE && IsTime(InstantOf(r))
  {
    var local := t + KST;
    assert DayFromCivil(ReadingAt(local).date) == local / MS_PER_DAY;
    hide CivilFromDay, DayFromCivil;
    HourParts(local);
    assert InstantOf(ReadingAt(local).(minute := minute)) == FlooredToHour(local) - KST + minute * MS_PER_MINUTE;
    hide ReadingAt, InstantOf;
    HoursAligned(t);
  }

  lemma HourParts(local: int)
    ensures (local / MS_PER_DAY * 24 + local % MS_PER_DAY / MS_PER_HOUR) * MS_PER_HOUR == FlooredToHour(local)
  {
    var day, inDay := local / MS_PER_DAY, local % MS_PER_DAY;
    var hour, inHour := inDay / MS_PER_HOUR, inDay % MS_PER_HOUR;
    assert local == (day * 24 + hour) * MS_PER_HOUR + inHour;
  }

  lemma HoursAligned(t: int)
    ensures FlooredToHour(t + KST) == FlooredToHour(t) + KST
    ensures FlooredToHour(t) <= t && (t >= -MAX_TIME ==> FlooredToHour(t) >= -MAX_TIME)
  {
    var hours := t / MS_PER_HOUR;
    assert t + KST == (hours + 9) * MS_PER_HOUR + t % MS_PER_HOUR;
    assert -MAX_TIME == -2_400_000_000 * MS_PER_HOUR;
  }

  /**
   Reopening and saving a form keeps an instant in its minute exactly when its year has four digits, or
   it is in the right minute of its hour anyway; a second time changes nothing. (With any other year
   the form shows the hour only, and the appended seconds are read as minutes.)
   */
  lemma ReopeningNeverDrifts(t: Time, endOfMinute: bool, host: string -> Option<int>)
    ensures match ToDateTimeLocalInput(Some(t))
      case Err(_) => t > 8_639_999_967_600_000
      case Ok(shown) =>
        && t <= 8_639_999_967_600_000
        && var saved := ParseDateTimeLocal(shown, endOfMinute, host);
        && saved == Ok(Reopened(t, endOfMinute))
        && (FlooredToMinute(saved.value) == FlooredToMinute(t) <==>
              HasFourDigitYear(t) || ReadingAt(t + KST).minute == if endOfMinute then 59 else 0)
        && (IsTime(saved.value + KST) ==> ToDateTimeLocalInput(Some(saved.value)) == Ok(shown))
  {
    if IsTime(t + KST) {
      ShownInForm(t);
      hide ToDateTimeLocalInput, FormText, ParseDateTimeLocal;
      if HasFourDigitYear(t) {
        FourDigitYearReopens(t, endOfMinute, host);
      } else {
        HourReopens(t, endOfMinute, host);
      }
    }
  }

  lemma FourDigitYearReopens(t: Time, endOfMinute: bool, host: string -> Option<int>)
    requires IsTime(t + KST) && HasFourDigitYear(t)
    ensures var shown := FormText(ReadingAt(t + KST)); var saved := Reopened(t, endOfMinute);
      && ParseDateTimeLocal(shown, endOfMinute, host) == Ok(saved)
      && FlooredToMinute(saved) == FlooredToMinute(t)
      && ToDateTimeLocalInput(Some(saved)) == Ok(shown)
  {
    hide ReadingAt, FormText, LocalShape, Fields, ToDateTimeLocalInput, ParseDateTimeLocal, InstantOf, ParsedAt;
    hide FlooredToMinute;
    var r := ReadingAt(t + KST);
    FormTextShape(r);
    FormShowsWhatWasTyped(FormText(r), endOfMinute, host);
    InstantOfReading(t + KST);
    FlooredWithOffset(t);
    FlooredWithin(t, if endOfMinute then 59_000 else 0);
  }

  lemma HourReopens(t: Time, endOfMinute: bool, host: string -> Option<int>)
    requires IsTime(t + KST) && !HasFourDigitYear(t)
    ensures var r := ReadingAt(t + KST); var shown := FormText(r); var saved := Reopened(t, endOfMinute);
      && ParseDateTimeLocal(shown, endOfMinute, host) == Ok(saved)
      && (FlooredToMinute(saved) == FlooredToMinute(t) <==> r.minute == if endOfMinute then 59 else 0)
      && (IsTime(saved + KST) ==> ToDateTimeLocalInput(Some(saved)) == Ok(shown))
  {
    hide ReadingAt, FormText, ToDateTimeLocalInput, ParseDateTimeLocal, InstantOf, Reopened, FlooredToMinute;
    var saved := Reopened(t, endOfMinute);
    HourTextIsRead(t, endOfMinute, host);
    HourOfReading(t, if endOfMinute then 59 else 0);
    HourReading(t, saved, if endOfMinute then 59 else 0);
    if IsTime(saved + KST) {
      ShownInForm(saved);
    }
  }

  /** The instant of another minute of the hour shows as that minute, and under the same hour. */
  lemma HourReading(t: int, saved: int, minute: nat)
    requires minute < 60 && saved == InstantOf(ReadingAt(t + KST).(minute := minute)) && !HasFourDigitYear(t)
    ensures ReadingAt(saved + KST) == ReadingAt(t + KST).(minute := minute)
    ensures FormText(ReadingAt(saved + KST)) == FormText(ReadingAt(t + KST))
    ensures FlooredToMinute(saved) == FlooredToMinute(t) <==> ReadingAt(t + KST).minute == minute
  {
    var r := ReadingAt(t + KST);
    hide ReadingAt, InstantOf, FlooredToMinute;
    ReadingOfInstant(r.(minute := minute), 0);
    SameReading(saved + KST, t + KST);
    FlooredWithOffset(t);
    FlooredWithOffset(saved);
    hide IsoYear, Pad2;
  }

  // ---- what is accepted -----------------------------------------------------------------------------

  /** With nothing filled in, nothing is shown, and saving it is refused as missing. */
  lemma NothingFilledIn(zone: Zone, cycle: HourCycle, endOfMinute: bool, host: string -> Option<int>)
    ensures ToDateTimeLocalInput(None) == Ok("") && FormatLocal(None, zone, cycle) == ""
    ensures ParseDateTimeLocal("", endOfMinute, host) == Err(Missing) && ParseLocal("") == None
  {
  }

  /**
   Of the texts with the shape of a minute, the standard's format accepts exactly the calendar minutes
   and, as a start, 24:00, which is the midnight at the end of its date.
   */
  lemma AcceptedMinutes(s: string, endOfMinute: bool)
    requires LocalShape(s)
    ensures var f := Fields(s);
      ParseDateTimeLocal(s, endOfMinute, _ => None) ==
        if Valid(f.date) && f.minute <= 59 && (f.hour <= 23 || (f.hour == 24 && f.minute == 0 && !endOfMinute))
        then Ok(InstantOf(f) + if endOfMinute then 59_000 else 0) else Err(BadFormat)
  {
    ShapeIsSixteen(s);
    FieldsNotNegative(s);
    assert s[0..4][0] == s[0] && IsDigit(s[0..4][0]);
    assert !HourShape(s);
    hide Fields, LocalShape, HourShape, InstantOf;
  }

  /** And of the hours of other years, those of the calendar and 24:00, in the range of a `Date`. */
  lemma AcceptedHours(s: string, endOfMinute: bool)
    requires HourShape(s)
    ensures var n := Value(s[1..7]); var year: int := if s[0] == '-' then 0 - n else n;
      var date, minute := Civil(year, Value(s[8..10]), Value(s[11..13])), if endOfMinute then 59 else 0;
      var hour := Reading(date, Value(s[14..16]), minute);
      ParseDateTimeLocal(s, endOfMinute, _ => None) ==
        if !(s[0] == '-' && n == 0) && Valid(hour.date) && (hour.hour <= 23 || (hour.hour == 24 && !endOfMinute)) &&
           -8_640_000_000_000_000 <= InstantOf(hour) <= 8_640_000_000_000_000
        then Ok(InstantOf(hour)) else Err(BadFormat)
  {
    SignIsNoDigit(s);
    hide LocalShape, InstantOf;
  }

  /** Behind the minute, the text of a date has its second and millisecond. */
  lemma SecondsAreShown(t: int)
    ensures var text := SecondsText(t);
      && |text| == 8 && text[0] == ':' && text[3] == '.' && text[7] == 'Z'
      && AllDigits(text[1..3]) && Value(text[1..3]) == t % 60_000 / 1000
      && AllDigits(text[4..7]) && Value(text[4..7]) == t % 1000
  {
    var inMinute := t % MS_PER_MINUTE;
    MillisText(inMinute % 1000);
    ValueOfPad2(inMinute / 1000);
    MillisOfMinute(t);
    var seconds, millis := Pad2(inMinute / 1000), Millis(inMinute % 1000);
    hide Pad2, Millis, Value;
    assert SecondsText(t)[1..3] == seconds && SecondsText(t)[4..7] == millis;
  }

  lemma MillisOfMinute(t: int)
    ensures t % MS_PER_MINUTE % 1000 == t % 1000
  {
    var minutes, inMinute := t / MS_PER_MINUTE, t % MS_PER_MINUTE;
    assert t == 1000 * (60 * minutes + inMinute / 1000) + inMinute % 1000;
  }

  lemma MillisText(n: nat)
    requires n < 1000
    ensures |Millis(n)| == 3 && AllDigits(Millis(n)) && Value(Millis(n)) == n
  {
    if n < 100 {
      ValueOfPad2(n);
      LeadingZero(Pad2(n));
    } else {
      ValueOfDigits(n);
      assert |Digits(n)| == |Digits(n / 10)| + 1 && |Digits(n / 10)| == |Digits(n / 100)| + 1;
    }
  }

  // ---- getPartnerPeriodEndAt --------------------------------------------------------------------

  function EndOfDayText(value: string): string {
    var normalized := Trim(value);
    normalized[..if |normalized| < 10 then |normalized| else 10] + "T23:59"
  }

  /** The inclusive end of the KST day a partner's period names; the text may go on after the date. */
  function PartnerPeriodEnd(value: string, host: string -> Option<int>): Option<int> {
    var text := EndOfDayText(value);
    if !LocalShape(text) then None
    else if IsoKst(text, 59).Some? then IsoKst(text, 59)
    else host(text + ":" + "59" + "+09:00")
  }

  /** It is what typing 23:59 of that day as an end time saves, and is shown again as 23:59 of that day. */
  lemma PartnerPeriodEndsWithTheDay(value: string, host: string -> Option<int>)
    ensures var end := PartnerPeriodEnd(value, host); var typed := EndOfDayText(value);
      && (LocalShape(typed) ==>
            ParseDateTimeLocal(typed, true, host) == if end.Some? then Ok(end.value) else Err(BadFormat))
      && (!LocalShape(typed) ==> end == None)
      && (LocalShape(typed) && Valid(Fields(typed).date) ==>
            end.Some? && ToDateTimeLocalInput(Some(end.value)) == Ok(typed))
  {
    var typed := EndOfDayText(value);
    if LocalShape(typed) {
      assert typed[11..13] == "23" && typed[14..16] == "59";
      assert "23"[..1] == "2" && "2"[..0] == "" && "59"[..1] == "5" && "5"[..0] == "";
      assert Value("23") == 23 && Value("59") == 59;
      SixtiethSecond();
      assert !HourShape(typed) by { assert IsDigit(typed[0..4][0]); }
      hide ToDateTimeLocalInput, InstantOf;
      if Valid(Fields(typed).date) {
        FormShowsWhatWasTyped(typed, true, host);
      }
    }
  }

  /** The end is the last second of the KST day whose date the value begins with. */
  lemma PeriodEndsInItsLastSecond(date: string, rest: string, host: string -> Option<int>)
    requires |date| == 10 && Trimmed(date + rest)
    requires LocalShape(date + "T00:00") && Valid(Fields(date + "T00:00").date)
    ensures PartnerPeriodEnd(date + rest, host) ==
      Some(86_400_000 * DayFromCivil(Fields(date + "T00:00").date) + 53_999_000)
  {
    var value, typed, morning := date + rest, date + "T23:59", date + "T00:00";
    TrimOfTrimmed(value);
    hide Trim, Trimmed;
    assert value[..10] == date && EndOfDayText(value) == typed;
    LastMinute(date);
    SixtiethSecond();
    hide EndOfDayText, Fields, LocalShape, DayFromCivil;
  }

  lemma LastMinute(date: string)
    requires |date| == 10 && LocalShape(date + "T00:00")
    ensures var typed, morning := date + "T23:59", date + "T00:00";
      LocalShape(typed) && Fields(typed) == Reading(Fields(morning).date, 23, 59)
  {
    var typed, morning := date + "T23:59", date + "T00:00";
    assert morning[0..4] == date[0..4] == typed[0..4] && morning[5..7] == date[5..7] == typed[5..7];
    assert morning[8..10] == date[8..10] == typed[8..10];
    assert typed[11..13] == "23" && typed[14..16] == "59";
    ValueOfTwo("23");
    ValueOfTwo("59");
    assert AllDigits("23") && AllDigits("59");
    hide Value, AllDigits;
  }

  lemma SixtiethSecond()
    ensures Pad2(59) == "59"
  {
    assert Digits(59) == Digits(5) + [Digit(9)];
  }

  // ---- where the inputs disagree ------------------------------------------------------------------

  lemma ShortYearSplitsFormatters(r: Reading, zone: Zone, cycle: HourCycle)
    requires IsCalendarMinute(r) && 0 <= r.date.year < 1000 && ValidZone(zone)
    ensures IsTime(InstantOf(r)) && IsTime(InstantOf(r) + KST)
    ensures ToDateTimeLocalInput(Some(InstantOf(r))) != Ok(FormatLocal(Some(InstantOf(r)), zone, cycle))
  {
    hide DayFromCivil, ReadingAt, FormatLocal, ToDateTimeLocalInput, ValidZone;
    FourDigitsInRange(r, 0);
    ReadingOfInstant(r, 0);
    FormattersAgree(InstantOf(r), zone, cycle);
  }

  /** The formatters differ on noon of 1 June 999. */
  lemma YearOfThreeDigitsSplitsFormatters(cycle: HourCycle)
    ensures var t := InstantOf(Reading(Civil(999, 6, 1), 12, 0));
      IsTime(t) && ToDateTimeLocalInput(Some(t)) != Ok(FormatLocal(Some(t), _ => KST, cycle))
  {
    hide InstantOf, FormatLocal, ToDateTimeLocalInput;
    ShortYearSplitsFormatters(Reading(Civil(999, 6, 1), 12, 0), _ => KST, cycle);
  }

  lemma MinuteOfYear99()
    ensures LocalShape("0099-06-01T12:30") && Fields("0099-06-01T12:30") == Reading(Civil(99, 6, 1), 12, 30)
  {
    hide Value;
    FieldsOfPieces("0099", "06", "01", "12", "30");
    assert "0099-06-01T12:30" == "0099" + "-" + "06" + "-" + "01" + "T" + "12" + ":" + "30";
    ValueOfFour("0099");
    assert "0099"[..2] == "00" && "0099"[2..] == "99";
    ValueOfTwo("00");
    ValueOfTwo("99");
    ValueOfTwo("06");
    ValueOfTwo("01");
    Numerals();
  }

  /** A minute of the year 99 is saved as that minute by one parser, and read as another one by the other. */
  lemma YearOfTwoDigitsSplitsParsers(host: string -> Option<int>)
    ensures var s := "0099-06-01T12:30"; var minute := InstantOf(Reading(Civil(99, 6, 1), 12, 30));
      ParseDateTimeLocal(s, false, host) == Ok(minute) && ParseLocal(s) != Some(minute)
  {
    hide Fields, LocalShape, InstantOf, ParseDateTimeLocal, ParsedAt;
    MinuteOfYear99();
    FormShowsWhatWasTyped("0099-06-01T12:30", false, host);
  }

  lemma DayOfYear10000()
    ensures DayFromCivil(Civil(10_000, 1, 1)) == 2_932_897
  {
    hide DayFromYear;
    ClosedForm(10_000);
  }

  lemma MinuteOfYear10000()
    ensures var r := Reading(Civil(10_000, 1, 1), 12, 30);
      InstantOf(r) == 253_402_313_400_000 && ReadingAt(253_402_313_400_000 + KST) == r
  {
    hide DayFromCivil, ReadingAt;
    DayOfYear10000();
    ReadingOfInstant(Reading(Civil(10_000, 1, 1), 12, 30), 0);
  }

  /** Reopening and saving a start at half past noon on 1 January 10000 moves it to noon. */
  lemma YearOfFiveDigitsDrifts(host: string -> Option<int>)
    ensures var t: Time := 253_402_313_400_000; var shown := ToDateTimeLocalInput(Some(t));
      && InstantOf(Reading(Civil(10_000, 1, 1), 12, 30)) == t
      && shown.Ok? && ParseDateTimeLocal(shown.value, false, host) == Ok(t - 30 * MS_PER_MINUTE)
  {
    hide InstantOf, ReadingAt, ToDateTimeLocalInput, ParseDateTimeLocal, FlooredToMinute;
    MinuteOfYear10000();
    ReopeningNeverDrifts(253_402_313_400_000, false, host);
  }
}
