/** The calendar: dates to seconds since 1970 and back. */
module Rtc {

  import opened Bits

  const DAYS_IN_MONTH: seq<seq<nat>> := [
    [31, 28, 31, 30, 31, 30, 31, 31, 30, 31, 30, 31],
    [31, 29, 31, 30, 31, 30, 31, 31, 30, 31, 30, 31]
  ]

  /** rtc_time_t; the widths of the fields are in Wide. */
  datatype Time = Time(seconds: nat, minutes: nat, hours: nat, day: nat, month: nat, year: nat)

  predicate Wide(t: Time) {
    t.seconds < 256 && t.minutes < 256 && t.hours < 256 && t.day < 256 && t.month < 256 && t.year < 65536
  }

  predicate IsLeap(year: nat) {
    (year % 4 == 0 && year % 100 != 0) || year % 400 == 0
  }

  function YearLength(year: nat): (n: nat) {
    if IsLeap(year) then 366 else 365
  }

  function MonthLength(year: nat, month: nat): (n: nat)
    requires 1 <= month <= 12
    ensures 28 <= n <= 31
  {
    DAYS_IN_MONTH[if IsLeap(year) then 1 else 0][month - 1]
  }

  /** The days from 1 January 1970 to 1 January of a year; none for an earlier year. */
  function DaysBeforeYear(year: nat): (n: nat)
    ensures n <= 366 * year
  {
    if year <= 1970 then 0 else DaysBeforeYear(year - 1) + YearLength(year - 1)
  }

  /** The days of the year before a month; none before month 1. */
  function DaysBeforeMonth(year: nat, month: nat): (n: nat)
    requires month <= 13
    ensures n <= 31 * month
  {
    if month <= 1 then 0 else DaysBeforeMonth(year, month - 1) + MonthLength(year, month - 1)
  }

  /** A date of the Gregorian calendar from 1970 on. */
  predicate Valid(t: Time) {
    && t.seconds < 60 && t.minutes < 60 && t.hours < 24
    && 1 <= t.month <= 12 && 1 <= t.day <= MonthLength(t.year, t.month) && t.year >= 1970
  }

  /** The day of the year, from 0: tm_yday. */
  function YearDay(t: Time): (d: int)
    requires t.month <= 13
  {
    DaysBeforeMonth(t.year, t.month) + t.day - 1
  }

  /** The seconds since 1970 as an integer that cannot wrap. */
  function Epoch(t: Time): (e: int)
    requires t.month <= 13
  {
    (DaysBeforeYear(t.year) + YearDay(t)) * 86400 + t.hours * 3600 + t.minutes * 60 + t.seconds
  }

  lemma {:induction false} MonthsFillYear(year: nat)
    ensures DaysBeforeMonth(year, 13) == YearLength(year)
  {
    assert DaysBeforeMonth(year, 1) == 0;
    assert DaysBeforeMonth(year, 4) == DaysBeforeMonth(year, 3) + 31;
    assert DaysBeforeMonth(year, 7) == DaysBeforeMonth(year, 6) + 30;
    assert DaysBeforeMonth(year, 10) == DaysBeforeMonth(year, 9) + 30;
    assert DaysBeforeMonth(year, 12) == DaysBeforeMonth(year, 11) + 30;
  }

  lemma {:induction false} MonthsGrow(year: nat, month: nat, later: nat)
    requires 1 <= month < later <= 13
    ensures DaysBeforeMonth(year, month) + MonthLength(year, month) <= DaysBeforeMonth(year, later)
    decreases later
  {
    if month + 1 < later {
      MonthsGrow(year, month, later - 1);
    }
  }

  lemma YearDayInYear(t: Time)
    requires Valid(t)
    ensures 0 <= YearDay(t) < YearLength(t.year)
  {
    MonthsGrow(t.year, t.month, 13);
    MonthsFillYear(t.year);
  }

  lemma {:induction false} YearsGrow(year: nat, later: nat)
    requires 1970 <= year < later
    ensures DaysBeforeYear(year) + YearLength(year) <= DaysBeforeYear(later)
    decreases later
  {
    if year + 1 < later {
      YearsGrow(year, later - 1);
    }
  }

  /** The calendar order of two dates. */
  predicate Before(a: Time, b: Time) {
    || a.year < b.year
    || (a.year == b.year && (
      || a.month < b.month
      || (a.month == b.month && (
        || a.day < b.day
        || (a.day == b.day && a.hours * 3600 + a.minutes * 60 + a.seconds < b.hours * 3600 + b.minutes * 60 + b.seconds)))))
  }

  lemma EpochGrows(a: Time, b: Time)
    requires Valid(a) && Valid(b) && Before(a, b)
    ensures Epoch(a) < Epoch(b)
  {
    YearDayInYear(a);
    YearDayInYear(b);
    if a.year < b.year {
      YearsGrow(a.year, b.year);
    } else if a.month < b.month {
      MonthsGrow(a.year, a.month, b.month);
    }
  }

  /** The epoch orders the dates as the calendar does, so no two dates share one. */
  lemma EpochOrder(a: Time, b: Time)
    requires Valid(a) && Valid(b)
    ensures Epoch(a) < Epoch(b) <==> Before(a, b)
    ensures Epoch(a) == Epoch(b) <==> a == b
  {
    if Before(a, b) {
      EpochGrows(a, b);
    } else if Before(b, a) {
      EpochGrows(b, a);
    } else {
      assert a == b;
    }
  }

  /** One second later, carrying into minutes, hours, days, months and years. */
  function Tick(t: Time): (u: Time)
    requires Valid(t)
  {
    if t.seconds < 59 then t.(seconds := t.seconds + 1)
    else if t.minutes < 59 then t.(seconds := 0, minutes := t.minutes + 1)
    else if t.hours < 23 then t.(seconds := 0, minutes := 0, hours := t.hours + 1)
    else if t.day < MonthLength(t.year, t.month) then Time(0, 0, 0, t.day + 1, t.month, t.year)
    else if t.month < 12 then Time(0, 0, 0, 1, t.month + 1, t.year)
    else Time(0, 0, 0, 1, 1, t.year + 1)
  }

  /** Midnight of 1 January 1970 is second 0, and no valid date is before it. */
  lemma EpochStart(t: Time)
    requires Valid(t)
    ensures Epoch(t) >= 0
    ensures Epoch(t) == 0 <==> t == Time(0, 0, 0, 1, 1, 1970)
  {
    YearDayInYear(t);
    if t.year > 1970 {
      YearsGrow(1970, t.year);
    } else if t.month > 1 {
      MonthsGrow(t.year, 1, t.month);
    }
  }

  /** The epoch counts the calendar's seconds. */
  lemma EpochCountsSeconds(t: Time)
    requires Valid(t)
    ensures Valid(Tick(t)) && Epoch(Tick(t)) == Epoch(t) + 1
  {
    if t.seconds == 59 && t.minutes == 59 && t.hours == 23 {
      NextDay(t);
    }
  }

  /** The midnight after a day is one day further. */
  lemma NextDay(t: Time)
    requires Valid(t) && t.seconds == 59 && t.minutes == 59 && t.hours == 23
    ensures Valid(Tick(t))
    ensures DaysBeforeYear(Tick(t).year) + YearDay(Tick(t)) == DaysBeforeYear(t.year) + YearDay(t) + 1
  {
    if t.month == 12 {
      MonthsFillYear(t.year);
      assert DaysBeforeMonth(t.year, 13) == DaysBeforeMonth(t.year, 12) + MonthLength(t.year, 12);
      assert DaysBeforeMonth(t.year + 1, 1) == 0;
    }
  }

  /** The quotients of POSIX.1-2017 for one more year. */
  lemma LeapQuotients(year: nat)
    requires year >= 1970
    ensures YearLength(year) == 365 + ((year - 1968) / 4 - (year - 1969) / 4)
                                - ((year - 1900) / 100 - (year - 1901) / 100)
                                + ((year - 1600) / 400 - (year - 1601) / 400)
  {
    StepQuotient(year - 1969, 4);
    StepQuotient(year - 1901, 100);
    StepQuotient(year - 1601, 400);
  }

  lemma StepQuotient(n: nat, d: nat)
    requires d == 4 || d == 100 || d == 400
    ensures (n + 1) / d - n / d == if (n + 1) % d == 0 then 1 else 0
  {
  }

  lemma {:induction false} DaysAreClosedForm(year: nat)
    requires year >= 1970
    ensures DaysBeforeYear(year) == (year - 1970) * 365 + (year - 1969) / 4 - (year - 1901) / 100 + (year - 1601) / 400
    decreases year
  {
    if year > 1970 {
      DaysAreClosedForm(year - 1);
      LeapQuotients(year - 1);
    }
  }

  /** The years with 366 days. */
  predicate HasLeapDay(year: nat) { year % 4 == 0 && (year % 100 == 0 ==> year % 400 == 0) }

  lemma LeapRule(year: nat)
    ensures IsLeap(year) <==> HasLeapDay(year)
  {
    var c := year / 100;
    assert year == 100 * c + year % 100;
    if year % 100 == 0 { FourTimes(25 * c); }
    if year % 400 == 0 { HundredTimes(4 * (year / 400)); }
  }

  lemma FourTimes(k: nat)
    ensures 4 * k % 4 == 0
  {
  }

  lemma HundredTimes(k: nat)
    ensures 100 * k % 100 == 0
  {
  }

  /** How long the months are. */
  lemma MonthLengths(year: nat, month: nat)
    requires 1 <= month <= 12
    ensures MonthLength(year, month)
            == if month == 2 then (if HasLeapDay(year) then 29 else 28)
               else if month == 4 || month == 6 || month == 9 || month == 11 then 30 else 31
  {
    LeapRule(year);
    hide IsLeap, HasLeapDay;
  }

  /** The day of the year, from 0, without a table. */
  function DayNumber(t: Time): int {
    (367 * t.month - 362) / 12 - (if t.month <= 2 then 0 else if HasLeapDay(t.year) then 1 else 2) + t.day - 1
  }

  lemma {:induction false} YearDayIs(t: Time)
    requires 1 <= t.month <= 12
    ensures YearDay(t) == DayNumber(t)
    decreases t.month
  {
    if t.month > 1 {
      YearDayIs(t.(month := t.month - 1));
      MonthLengths(t.year, t.month - 1);
    }
  }

  /** POSIX.1-2017, Base Definitions, section 4.16, with tm_year counted from 1900. */
  lemma EpochIsPosix(t: Time)
    requires Valid(t)
    ensures var tmYear := t.year - 1900;
            Epoch(t) == t.seconds + t.minutes * 60 + t.hours * 3600 + DayNumber(t) * 86400
                        + (tmYear - 70) * 31536000 + ((tmYear - 69) / 4) * 86400
                        - ((tmYear - 1) / 100) * 86400 + ((tmYear + 299) / 400) * 86400
  {
    DaysAreClosedForm(t.year);
    YearDayIs(t);
  }

  /** The first of May 2024, midnight, and the last second before it. */
  lemma MayDay()
    ensures Valid(Time(0, 0, 0, 1, 5, 2024)) && Epoch(Time(0, 0, 0, 1, 5, 2024)) == 1714521600
    ensures Valid(Time(59, 59, 23, 30, 4, 2024)) && !Valid(Time(0, 0, 0, 31, 4, 2024)) && Tick(Time(59, 59, 23, 30, 4, 2024)) == Time(0, 0, 0, 1, 5, 2024)
  {
    hide Epoch, DaysBeforeYear, DaysBeforeMonth, MonthLength;
    MonthLengths(2024, 4);
    MonthLengths(2024, 5);
    EpochIsPosix(Time(0, 0, 0, 1, 5, 2024));
  }

  method DaysSinceEpochToYear(year: nat) returns (days: nat)
    requires year < 65536
    ensures days == DaysBeforeYear(year) < WORD
  {
    days := 0;
    var y := 1970;
    while y < year
      invariant 1970 <= y && (y <= year || y == 1970) && days == DaysBeforeYear(y)
    {
      days := days + if IsLeap(y) then 366 else 365;
      y := y + 1;
    }
  }

  /** Dropping a multiple of the modulus before the last step changes nothing. */
  lemma WrapTwice(a: int, b: int)
    ensures (a % WORD + b) % WORD == (a + b) % WORD
  {
    var q := a / WORD;
    assert a % WORD == a - q * WORD;
    DropMultiple(a + b - q * WORD, q);
  }

  lemma DropMultiple(a: int, q: int)
    ensures (a + q * WORD) % WORD == a % WORD
  {
  }

  /** Every operation wraps at 2^32; day 0 makes the day count step back by one. */
  method RtcToEpoch(t: Time) returns (e: nat)
    requires Wide(t) && t.month <= 13
    ensures e < WORD && e == Epoch(t) % WORD
  {
    var days: int := DaysSinceEpochToYear(t.year);
    var leap := if IsLeap(t.year) then 1 else 0;
    var m := 1;
    while m < t.month
      invariant 1 <= m && (m <= t.month || m == 1)
      invariant days == DaysBeforeYear(t.year) + DaysBeforeMonth(t.year, m)
    {
      days := days + DAYS_IN_MONTH[leap][m - 1];
      m := m + 1;
    }
    ghost var number := days + t.day - 1;
    days := (days + t.day - 1) % WORD;
    e := days * 86400 % WORD;
    WrapProduct(number);
    WrapTwice(number * 86400, t.hours * 3600);
    e := (e + t.hours * 3600) % WORD;
    WrapTwice(number * 86400 + t.hours * 3600, t.minutes * 60);
    e := (e + t.minutes * 60) % WORD;
    WrapTwice(number * 86400 + t.hours * 3600 + t.minutes * 60, t.seconds);
    e := (e + t.seconds) % WORD;
  }

  lemma WrapProduct(a: int)
    ensures (a % WORD) * 86400 % WORD == a * 86400 % WORD
  {
    var q := a / WORD;
    assert a % WORD == a - q * WORD;
    DropMultiple(a * 86400 - q * 86400 * WORD, q * 86400);
  }

  /** The clock's digits of a day. */
  lemma ClockDigits(epoch: nat)
    ensures epoch / 60 / 60 / 24 * 86400 + epoch / 60 / 60 % 24 * 3600 + epoch / 60 % 60 * 60 + epoch % 60 == epoch
  {
    var minutes := epoch / 60;
    var hours := minutes / 60;
    assert hours == hours / 24 * 24 + hours % 24;
    assert minutes == hours * 60 + minutes % 60;
    assert epoch == minutes * 60 + epoch % 60;
  }

  /** Years after 2106 start past the last 32-bit epoch. */
  lemma YearsPastTheLast(year: nat)
    requires year > 2106
    ensures DaysBeforeYear(year) * 86400 > WORD
  {
    DaysAreClosedForm(year);
  }

  /** The year loop: the last year that starts on the day or before it. */
  method YearOf(number: nat) returns (year: nat, days: nat)
    requires number * 86400 < WORD
    ensures 1970 <= year <= 2106
    ensures number == DaysBeforeYear(year) + days && days < YearLength(year)
  {
    days := number;
    year := 1970;
    assert DaysBeforeYear(year) == 0;
    hide IsLeap;
    while true
      invariant 1970 <= year <= 2106 && number == DaysBeforeYear(year) + days
      decreases days
    {
      var daysInYear := if IsLeap(year) then 366 else 365;
      if days < daysInYear {
        break;
      }
      days := days - daysInYear;
      var next := year + 1;
      assert DaysBeforeYear(next) == DaysBeforeYear(year) + daysInYear;
      assert next <= 2106 by {
        if next > 2106 {
          YearsPastTheLast(next);
        }
      }
      year := next % 65536;
    }
  }

  /** The month loop: it never leaves the table. */
  method MonthOf(year: nat, day: nat) returns (month: nat, days: nat)
    requires day < YearLength(year)
    ensures 1 <= month <= 12
    ensures day == DaysBeforeMonth(year, month) + days && days < MonthLength(year, month)
  {
    days := day;
    var leap := if IsLeap(year) then 1 else 0;
    month := 1;
    MonthsFillYear(year);
    while days >= DAYS_IN_MONTH[leap][month - 1]
      invariant 1 <= month <= 12 && day == DaysBeforeMonth(year, month) + days
      decreases days
    {
      days := days - DAYS_IN_MONTH[leap][month - 1];
      month := month + 1;
    }
  }

  /** Every 32-bit value is the epoch of a date, the only one by EpochOrder. */
  method EpochToRtc(epoch: nat) returns (t: Time)
    requires epoch < WORD
    ensures Wide(t) && Valid(t) && Epoch(t) == epoch
  {
    var rest := epoch;
    var seconds := rest % 60;
    rest := rest / 60;
    var minutes := rest % 60;
    rest := rest / 60;
    var hours := rest % 24;
    rest := rest / 24;
    ClockDigits(epoch);
    var year, dayOfYear := YearOf(rest);
    var month, days := MonthOf(year, dayOfYear);
    t := Time(seconds, minutes, hours, days + 1, month, year);
  }

  /** To a date and back. */
  method DateOfEpochOfDate(epoch: nat) returns (t: Time, back: nat)
    requires epoch < WORD
    ensures Valid(t) && back == epoch
  {
    t := EpochToRtc(epoch);
    back := RtcToEpoch(t);
  }

  /** To an epoch and back: the same date exactly when its epoch fits 32 bits. */
  method EpochOfDateOfEpoch(t: Time) returns (e: nat, back: Time)
    requires Wide(t) && Valid(t)
    ensures Valid(back) && Epoch(back) == e == Epoch(t) % WORD
    ensures back == t <==> Epoch(t) < WORD
  {
    e := RtcToEpoch(t);
    back := EpochToRtc(e);
    EpochOrder(back, t);
    YearDayInYear(t);
  }
}
