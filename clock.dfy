/**
 * Time as the request logic sees it. An instant is a whole number of
 * seconds on the server's local wall clock, so a calendar day starts at a
 * multiple of SecondsPerDay. The date layout "2006-01-02" that the export
 * form uses is parsed here as Go's time.ParseInLocation parses it.
 */
module Clock {
  import opened Wrappers

  /** Seconds on the local wall clock. */
  type Time = int

  const SecondsPerDay: int := 86400

  /** time.Date(now.Year(), now.Month(), now.Day(), 0, 0, 0, 0, loc): the start of the day holding `t`. */
  function Midnight(t: Time): (day: Time)
    ensures day <= t < day + SecondsPerDay
    ensures day % SecondsPerDay == 0
  {
    t - t % SecondsPerDay
  }

  /** Midnight picks the one day start within a day of `t`. */
  lemma MidnightUnique(t: Time, day: Time)
    requires day % SecondsPerDay == 0 && day <= t < day + SecondsPerDay
    ensures Midnight(t) == day
  {
    var m := Midnight(t);
    assert (day - m) % SecondsPerDay == 0;
    assert -SecondsPerDay < day - m < SecondsPerDay;
  }

  /** The time layouts the code formats with never yield the empty string. */
  ghost predicate NonEmptyFormat(format: Time -> string) {
    forall t :: format(t) != ""
  }

  predicate IsDigit(c: char) {
    '0' <= c <= '9'
  }

  predicate AllDigits(s: string) {
    forall i | 0 <= i < |s| :: IsDigit(s[i])
  }

  /** The decimal value of a run of digits. */
  function Number(s: string): nat
    requires AllDigits(s)
    decreases |s|
  {
    if s == [] then 0 else Number(s[..|s| - 1]) * 10 + (s[|s| - 1] as int - '0' as int)
  }

  predicate IsLeap(year: int) {
    year % 4 == 0 && (year % 100 != 0 || year % 400 == 0)
  }

  /** Go's daysIn. */
  function DaysIn(month: int, year: int): (n: int)
    requires 1 <= month <= 12
    ensures 28 <= n <= 31
    ensures n == 29 <==> month == 2 && IsLeap(year)
    ensures n == 30 <==> month in {4, 6, 9, 11}
    ensures n == 31 <==> month in {1, 3, 5, 7, 8, 10, 12}
  {
    if month == 2 then (if IsLeap(year) then 29 else 28)
    else if month == 4 || month == 6 || month == 9 || month == 11 then 30
    else 31
  }

  /** Days from 1970-01-01 to the given proleptic Gregorian date. */
  function DaysFromCivil(year: int, month: int, day: int): int
    requires 1 <= month <= 12
  {
    var y := if month <= 2 then year - 1 else year;
    var era := y / 400;
    var yoe := y - era * 400;
    var mp := if month > 2 then month - 3 else month + 9;
    var doy := (153 * mp + 2) / 5 + day - 1;
    var doe := yoe * 365 + yoe / 4 - yoe / 100 + doy;
    era * 146097 + doe - 719468
  }

  /** A valid calendar date as Go checks it: month 1..12, day within the month. */
  predicate ValidDate(year: int, month: int, day: int) {
    1 <= month <= 12 && 1 <= day <= DaysIn(month, year)
  }

  /**
   * time.ParseInLocation("2006-01-02", s, loc): four year digits, two month
   * digits and two day digits separated by '-', nothing after, and a date
   * that exists; the result is that day's midnight.
   */
  function ParseDate(s: string): (r: Option<Time>)
    ensures r.Some? ==> |s| == 10 && s[4] == '-' && s[7] == '-'
    ensures r.Some? ==> r.value % SecondsPerDay == 0
  {
    if |s| != 10 || s[4] != '-' || s[7] != '-' then None
    else if !AllDigits(s[..4]) || !AllDigits(s[5..7]) || !AllDigits(s[8..]) then None
    else
      var year, month, day := Number(s[..4]), Number(s[5..7]), Number(s[8..]);
      if !ValidDate(year, month, day) then None
      else
        var days := DaysFromCivil(year, month, day);
        DayStart(days);
        Some(days * SecondsPerDay)
  }

  /** A whole number of days is a day boundary. */
  lemma DayStart(days: int)
    ensures (days * SecondsPerDay) % SecondsPerDay == 0
  {
    assert days * SecondsPerDay == SecondsPerDay * days;
  }

  function Digit(n: nat): char
    requires n < 10
  {
    ('0' as int + n) as char
  }

  /** Time.Format("2006-01-02") of a date with a four-digit year. */
  function FormatDate(year: nat, month: nat, day: nat): (s: string)
    requires year < 10000 && month < 100 && day < 100
    ensures |s| == 10 && s[4] == '-' && s[7] == '-'
    ensures AllDigits(s[..4]) && AllDigits(s[5..7]) && AllDigits(s[8..])
  {
    [Digit(year / 1000), Digit(year / 100 % 10), Digit(year / 10 % 10), Digit(year % 10), '-',
     Digit(month / 10), Digit(month % 10), '-',
     Digit(day / 10), Digit(day % 10)]
  }

  lemma NumberOfTwo(s: string)
    requires |s| == 2 && AllDigits(s)
    ensures Number(s) == (s[0] as int - '0' as int) * 10 + (s[1] as int - '0' as int)
  {
    assert s[..1][..0] == [];
    assert Number(s[..1]) == s[0] as int - '0' as int;
  }

  lemma NumberOfFour(s: string)
    requires |s| == 4 && AllDigits(s)
    ensures Number(s) == (s[0] as int - '0' as int) * 1000 + (s[1] as int - '0' as int) * 100
                         + (s[2] as int - '0' as int) * 10 + (s[3] as int - '0' as int)
  {
    NumberOfTwo(s[..2]);
    assert s[..3][..2] == s[..2];
    assert Number(s[..3]) == Number(s[..2]) * 10 + (s[2] as int - '0' as int);
  }

  lemma DigitValue(n: nat)
    requires n < 10
    ensures IsDigit(Digit(n)) && Digit(n) as int - '0' as int == n
  {
  }

  lemma TwoDigits(n: nat)
    requires n < 100
    ensures (n / 10) * 10 + n % 10 == n
  {
  }

  lemma FourDigits(n: nat)
    requires n < 10000
    ensures (n / 1000) * 1000 + (n / 100 % 10) * 100 + (n / 10 % 10) * 10 + n % 10 == n
  {
    var hundreds := n / 100;
    assert n / 1000 == hundreds / 10;
    TwoDigits(hundreds);
    assert n / 10 == hundreds * 10 + n / 10 % 10;
    assert n == (n / 10) * 10 + n % 10;
  }

  /** The year, month and day fields of a formatted date read back as the numbers formatted. */
  lemma FormatDateFields(year: nat, month: nat, day: nat)
    requires year < 10000 && month < 100 && day < 100
    ensures var s := FormatDate(year, month, day);
      && s[4] == '-' && s[7] == '-'
      && AllDigits(s[..4]) && AllDigits(s[5..7]) && AllDigits(s[8..])
      && Number(s[..4]) == year && Number(s[5..7]) == month && Number(s[8..]) == day
  {
    var s := FormatDate(year, month, day);
    DigitValue(year / 1000);
    DigitValue(year / 100 % 10);
    DigitValue(year / 10 % 10);
    DigitValue(year % 10);
    DigitValue(month / 10);
    DigitValue(month % 10);
    DigitValue(day / 10);
    DigitValue(day % 10);
    NumberOfFour(s[..4]);
    NumberOfTwo(s[5..7]);
    NumberOfTwo(s[8..]);
    FourDigits(year);
    TwoDigits(month);
    TwoDigits(day);
  }

  /** Parsing a formatted valid date gives back that date's midnight. */
  lemma ParseFormatDate(year: nat, month: nat, day: nat)
    requires year < 10000 && ValidDate(year, month, day)
    ensures ParseDate(FormatDate(year, month, day)) == Some(DaysFromCivil(year, month, day) * SecondsPerDay)
  {
    FormatDateFields(year, month, day);
  }

  /** The text of a two-digit field is the formatting of its value. */
  lemma TwoDigitText(s: string)
    requires |s| == 2 && AllDigits(s)
    ensures Number(s) < 100 && s == [Digit(Number(s) / 10), Digit(Number(s) % 10)]
  {
    NumberOfTwo(s);
    var a, b := s[0] as int - '0' as int, s[1] as int - '0' as int;
    assert Number(s) / 10 == a && Number(s) % 10 == b;
  }

  /** The decimal digits of a four-digit number are read back by Digit's divisions. */
  lemma FourDigitValues(a: int, b: int, c: int, d: int)
    requires 0 <= a < 10 && 0 <= b < 10 && 0 <= c < 10 && 0 <= d < 10
    ensures var n := a * 1000 + b * 100 + c * 10 + d;
      n / 1000 == a && n / 100 % 10 == b && n / 10 % 10 == c && n % 10 == d
  {
    var n := a * 1000 + b * 100 + c * 10 + d;
    assert n / 10 == a * 100 + b * 10 + c;
    assert n / 100 == a * 10 + b;
  }

  /** The text of a four-digit field is the formatting of its value. */
  lemma FourDigitText(s: string)
    requires |s| == 4 && AllDigits(s)
    ensures Number(s) < 10000
    ensures s == [Digit(Number(s) / 1000), Digit(Number(s) / 100 % 10), Digit(Number(s) / 10 % 10), Digit(Number(s) % 10)]
  {
    NumberOfFour(s);
    assert IsDigit(s[0]) && IsDigit(s[1]) && IsDigit(s[2]) && IsDigit(s[3]);
    FourDigitValues(s[0] as int - '0' as int, s[1] as int - '0' as int, s[2] as int - '0' as int, s[3] as int - '0' as int);
  }

  /**
   * What ParseDate accepts is exactly the formatting of a valid date with a
   * four-digit year, and the result is that date's midnight.
   */
  lemma ParseDateSound(s: string)
    requires ParseDate(s).Some?
    ensures AllDigits(s[..4]) && AllDigits(s[5..7]) && AllDigits(s[8..])
    ensures var year, month, day := Number(s[..4]), Number(s[5..7]), Number(s[8..]);
      && year < 10000 && ValidDate(year, month, day)
      && s == FormatDate(year, month, day)
      && ParseDate(s).value == DaysFromCivil(year, month, day) * SecondsPerDay
  {
    FourDigitText(s[..4]);
    TwoDigitText(s[5..7]);
    TwoDigitText(s[8..]);
    assert s == s[..4] + "-" + s[5..7] + "-" + s[8..];
  }

  /** The calendar day after a valid date, rolling over the month and the year as time.AddDate(0, 0, 1) does. */
  function NextDate(year: int, month: int, day: int): (next: (int, int, int))
    requires ValidDate(year, month, day)
    ensures ValidDate(next.0, next.1, next.2)
    ensures next.0 == year || (next.0 == year + 1 && next.1 == 1 && next.2 == 1)
  {
    if day < DaysIn(month, year) then (year, month, day + 1)
    else if month < 12 then (year, month + 1, 1)
    else (year + 1, 1, 1)
  }

  /** Within the March-to-January stretch of one civil year, the first of the next month follows the last of this one. */
  lemma MonthStep(year: int, month: int)
    requires 1 <= month <= 12 && month != 2
    ensures month < 12 ==> DaysFromCivil(year, month + 1, 1) == DaysFromCivil(year, month, DaysIn(month, year)) + 1
    ensures month == 12 ==> DaysFromCivil(year + 1, 1, 1) == DaysFromCivil(year, 12, 31) + 1
  {
  }

  /**
   * The day number of March 1 of year `y` in the DaysFromCivil count; the
   * March-based year `y` runs from it to the end of February of `y` + 1.
   */
  function MarchFirst(y: int): int {
    var era := y / 400;
    var yoe := y - era * 400;
    era * 146097 + yoe * 365 + yoe / 4 - yoe / 100 - 719468
  }

  /** A date is its March-based year's start plus the days since March 1. */
  lemma CivilSplit(year: int, month: int, day: int)
    requires 1 <= month <= 12
    ensures var y := if month <= 2 then year - 1 else year;
      var mp := if month > 2 then month - 3 else month + 9;
      DaysFromCivil(year, month, day) == MarchFirst(y) + (153 * mp + 2) / 5 + day - 1
  {
  }

  /** Quotient and remainder by a constant are unique: the facts the era arithmetic rests on. */
  lemma DivMod4(y: int, q: int, r: int)
    requires y == q * 4 + r && 0 <= r < 4
    ensures y % 4 == r
  {
  }

  lemma DivMod100(y: int, q: int, r: int)
    requires y == q * 100 + r && 0 <= r < 100
    ensures y % 100 == r
  {
  }

  lemma DivMod400(y: int, q: int, r: int)
    requires y == q * 400 + r && 0 <= r < 400
    ensures y % 400 == r && y / 400 == q
  {
  }

  /** Adding whole eras does not change a year's remainder by 4, 100 or 400. */
  lemma EraRemainders(era: int, r: int)
    requires 0 <= r < 400
    ensures (era * 400 + r) % 4 == r % 4
    ensures (era * 400 + r) % 100 == r % 100
    ensures (era * 400 + r) % 400 == r
  {
    DivMod4(era * 400 + r, era * 100 + r / 4, r % 4);
    DivMod100(era * 400 + r, era * 4 + r / 100, r % 100);
    DivMod400(era * 400 + r, era, r);
  }

  /** Inside one 400-year era, leap years are the multiples of 4 that are not multiples of 100. */
  lemma LeapInEra(era: int, r: int)
    requires 0 < r < 400
    ensures IsLeap(era * 400 + r) <==> r % 4 == 0 && r % 100 != 0
  {
    EraRemainders(era, r);
  }

  /** One more year of an era adds a leap day exactly when the new year is a leap year of the era. */
  lemma StepInEra(yoe: int)
    requires 0 <= yoe < 399
    ensures (yoe + 1) / 4 - yoe / 4 - ((yoe + 1) / 100 - yoe / 100) ==
      (if (yoe + 1) % 4 == 0 && (yoe + 1) % 100 != 0 then 1 else 0)
  {
  }

  /** A March-based year lasts 366 days when the February at its end is a leap February, else 365. */
  lemma YearLength(y: int)
    ensures MarchFirst(y + 1) == MarchFirst(y) + (if IsLeap(y + 1) then 366 else 365)
  {
    var era, yoe := y / 400, y % 400;
    if yoe == 399 {
      DivMod400(y + 1, era + 1, 0);
      EraRemainders(era + 1, 0);
    } else {
      DivMod400(y + 1, era, yoe + 1);
      StepInEra(yoe);
      LeapInEra(era, yoe + 1);
    }
  }

  /** March 1 follows the last day of February, which is the 29th in a leap year and the 28th otherwise. */
  lemma YearStep(year: int)
    ensures DaysFromCivil(year, 3, 1) == DaysFromCivil(year, 2, DaysIn(2, year)) + 1
  {
    CivilSplit(year, 3, 1);
    CivilSplit(year, 2, DaysIn(2, year));
    YearLength(year - 1);
  }

  /** DaysFromCivil counts calendar days: the next date is exactly one day later. */
  lemma DaysFromCivilNext(year: int, month: int, day: int)
    requires ValidDate(year, month, day)
    ensures var next := NextDate(year, month, day);
      DaysFromCivil(next.0, next.1, next.2) == DaysFromCivil(year, month, day) + 1
  {
    if day == DaysIn(month, year) {
      if month == 2 {
        YearStep(year);
      } else {
        MonthStep(year, month);
      }
    }
  }

  /**
   * A step of one day's seconds from the midnight of a formatted date is the
   * midnight of the next calendar date, formatted as time.AddDate(0, 0, 1)
   * would give it.
   */
  lemma NextDateMidnight(year: nat, month: nat, day: nat)
    requires year < 9999 && ValidDate(year, month, day)
    ensures ParseDate(FormatDate(year, month, day)).Some?
    ensures var next := NextDate(year, month, day);
      && 0 <= next.0 < 10000 && 0 <= next.1 && 0 <= next.2
      && ParseDate(FormatDate(next.0, next.1, next.2)) == Some(ParseDate(FormatDate(year, month, day)).value + SecondsPerDay)
  {
    var next := NextDate(year, month, day);
    ParseFormatDate(year, month, day);
    ParseFormatDate(next.0, next.1, next.2);
    DaysFromCivilNext(year, month, day);
  }
}
