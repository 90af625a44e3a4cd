/**
 The date conversions of src/sys/kernel/kern_RtcUtil.c, against a calendar that only knows how long
 each month and year is.
 */
module Rtc {

  const WORD := 0x1_0000_0000
  const BASE_YEAR := 1970

  // ---------- The Gregorian calendar ----------

  datatype Time = Time(year: nat, month: nat, date: nat, hours: nat, minutes: nat, seconds: nat)

  predicate Leap(year: nat) { year % 4 == 0 && (year % 100 != 0 || year % 400 == 0) }

  function YearLength(year: nat): nat { if Leap(year) then 366 else 365 }

  function MonthLength(year: nat, month: nat): nat {
    if month == 2 then (if Leap(year) then 29 else 28) else if month in {4, 6, 9, 11} then 30 else 31
  }

  predicate Valid(t: Time) {
    && 1 <= t.year && 1 <= t.month <= 12 && 1 <= t.date <= MonthLength(t.year, t.month)
    && t.hours < 24 && t.minutes < 60 && t.seconds < 60
  }

  /** Days from 1 January of year 1 to 1 January of this year. */
  function DaysBeforeYear(year: nat): nat {
    if year <= 1 then 0 else DaysBeforeYear(year - 1) + YearLength(year - 1)
  }

  /** Days from 1 January to the first of this month. */
  function DaysBeforeMonth(year: nat, month: nat): nat {
    if month <= 1 then 0 else DaysBeforeMonth(year, month - 1) + MonthLength(year, month - 1)
  }

  function DayNumber(t: Time): int {
    DaysBeforeYear(t.year) + DaysBeforeMonth(t.year, t.month) + t.date - DaysBeforeYear(BASE_YEAR)
  }

  /** Seconds from the start of 1970; DayNumber counts 1 January 1970 as day one. */
  function Seconds(t: Time): int {
    (((DayNumber(t) - 1) * 24 + t.hours) * 60 + t.minutes) * 60 + t.seconds
  }

  /** The order of dates as they are written. */
  predicate Earlier(s: Time, t: Time) {
    || s.year < t.year
    || (s.year == t.year && (s.month < t.month || (s.month == t.month && s.date < t.date)))
  }

  lemma Step4(y: nat)
    requires y >= 1
    ensures y / 4 == (y - 1) / 4 + (if y % 4 == 0 then 1 else 0)
  {
  }

  lemma Step100(y: nat)
    requires y >= 1
    ensures y / 100 == (y - 1) / 100 + (if y % 100 == 0 then 1 else 0)
  {
  }

  lemma Step400(y: nat)
    requires y >= 1
    ensures y / 400 == (y - 1) / 400 + (if y % 400 == 0 then 1 else 0)
  {
  }

  lemma Multiples(y: nat)
    ensures y % 100 == 0 ==> y % 4 == 0
    ensures y % 400 == 0 ==> y % 100 == 0
  {
    var q, r := y / 100, y / 400;
    assert y % 100 == 0 ==> y == 4 * (25 * q);
    assert y % 400 == 0 ==> y == 100 * (4 * r);
  }

  function LeapDaysTo(y: nat): int { y / 4 - y / 100 + y / 400 }

  /** The three divisions count the leap years. */
  lemma LeapDays(y: nat)
    requires y >= 1
    ensures LeapDaysTo(y) == LeapDaysTo(y - 1) + (if Leap(y) then 1 else 0)
  {
    Step4(y);
    Step100(y);
    Step400(y);
    Multiples(y);
  }

  lemma NoLeapDays()
    ensures LeapDaysTo(0) == 0 && LeapDaysTo(BASE_YEAR - 1) == 477
  {
  }

  lemma {:induction false} YearsClosed(year: nat)
    requires year >= 1
    ensures DaysBeforeYear(year) == 365 * (year - 1) + LeapDaysTo(year - 1)
  {
    hide LeapDaysTo, Leap;
    if year > 1 {
      YearsClosed(year - 1);
      LeapDays(year - 1);
    } else {
      NoLeapDays();
    }
  }

  /** The months as 367 * m / 12 has them, counting from March of the year before. */
  lemma MonthsClosed(year: nat, month: nat)
    requires 1 <= month <= 12
    ensures month > 2 ==> DaysBeforeMonth(year, month) == 367 * (month - 2) / 12 + 29 + (if Leap(year) then 1 else 0)
    ensures month <= 2 ==> DaysBeforeMonth(year, month) == 367 * (month + 10) / 12 - 336
  {
    var feb := MonthLength(year, 2);
    FirstMonths(year);
    LastMonths(year);
    assert month <= 6 || 7 <= month;
  }

  lemma FirstMonths(year: nat)
    ensures var f := MonthLength(year, 2);
      && DaysBeforeMonth(year, 1) == 0 && DaysBeforeMonth(year, 2) == 31 && DaysBeforeMonth(year, 3) == 31 + f
      && DaysBeforeMonth(year, 4) == 62 + f && DaysBeforeMonth(year, 5) == 92 + f && DaysBeforeMonth(year, 6) == 123 + f
      && DaysBeforeMonth(year, 7) == 153 + f
  {
    assert DaysBeforeMonth(year, 1) == 0;
    assert DaysBeforeMonth(year, 2) == 31;
    assert DaysBeforeMonth(year, 3) == 31 + MonthLength(year, 2);
    assert DaysBeforeMonth(year, 4) == DaysBeforeMonth(year, 3) + 31;
    assert DaysBeforeMonth(year, 5) == DaysBeforeMonth(year, 4) + 30;
    assert DaysBeforeMonth(year, 6) == DaysBeforeMonth(year, 5) + 31;
  }

  lemma LastMonths(year: nat)
    ensures var f := MonthLength(year, 2);
      && DaysBeforeMonth(year, 8) == 184 + f && DaysBeforeMonth(year, 9) == 215 + f
      && DaysBeforeMonth(year, 10) == 245 + f
      && DaysBeforeMonth(year, 11) == 276 + f && DaysBeforeMonth(year, 12) == 306 + f
  {
    FirstMonths(year);
    assert DaysBeforeMonth(year, 8) == DaysBeforeMonth(year, 7) + 31;
    assert DaysBeforeMonth(year, 9) == DaysBeforeMonth(year, 8) + 31;
    assert DaysBeforeMonth(year, 10) == DaysBeforeMonth(year, 9) + 30;
    assert DaysBeforeMonth(year, 11) == DaysBeforeMonth(year, 10) + 31;
  }

  lemma {:induction false} MonthsInYear(year: nat, month: nat)
    requires 1 <= month <= 12
    ensures DaysBeforeMonth(year, month) + MonthLength(year, month) <= YearLength(year)
  {
    MonthsClosed(year, month);
  }

  lemma {:induction false} MonthsGrow(year: nat, m: nat, n: nat)
    requires 1 <= m < n
    ensures DaysBeforeMonth(year, m) + MonthLength(year, m) <= DaysBeforeMonth(year, n)
  {
    if m < n - 1 { MonthsGrow(year, m, n - 1); }
  }

  lemma {:induction false} YearsGrow(y: nat, z: nat)
    requires 1 <= y < z
    ensures DaysBeforeYear(y) + YearLength(y) <= DaysBeforeYear(z)
  {
    if y < z - 1 { YearsGrow(y, z - 1); }
  }

  /** A later date has a larger day number. */
  lemma DaysInOrder(s: Time, t: Time)
    requires Valid(s) && Valid(t) && Earlier(s, t)
    ensures DayNumber(s) < DayNumber(t)
  {
    if s.year < t.year {
      MonthsInYear(s.year, s.month);
      YearsGrow(s.year, t.year);
    } else if s.month < t.month {
      MonthsGrow(s.year, s.month, t.month);
    }
  }

  /** No two times of the calendar are the same number of seconds from the start of 1970. */
  lemma SecondsDistinct(s: Time, t: Time)
    requires Valid(s) && Valid(t) && Seconds(s) == Seconds(t)
    ensures s == t
  {
    assert DayNumber(s) == DayNumber(t);
    if Earlier(s, t) {
      DaysInOrder(s, t);
    } else if Earlier(t, s) {
      DaysInOrder(t, s);
    }
  }

  // ---------- From date to seconds ----------

  /** What a 32-bit unsigned result keeps. */
  function Word(x: int): (r: nat) { x % WORD }

  /** The day count of kernMktime, taken relative to the start of 1970. */
  function MktimeDays(t: Time): int {
    var mon := if t.month > 2 then t.month - 2 else t.month + 10;
    var year := if t.month > 2 then t.year else Word(t.year - 1);
    var days := LeapDaysTo(year) + Word(367 * mon) / 12 + t.date + year * 365;
    var b := BASE_YEAR - 1;
    days - (b * 365 + LeapDaysTo(b) + 367 * 11 / 12 + 1)
  }

  /** kernMktime; every operand is a 32-bit word, and so is every intermediate result that is divided. */
  function KernMktime(t: Time): nat {
    Word(((MktimeDays(t) * 24 + t.hours) * 60 + t.minutes) * 60 + t.seconds)
  }

  lemma MktimeDaysCount(t: Time)
    requires Valid(t) && t.year < WORD
    ensures MktimeDays(t) == DayNumber(t) - 1
  {
    hide LeapDaysTo, DaysBeforeYear, DaysBeforeMonth, Leap, MonthLength;
    YearsClosed(t.year);
    YearsClosed(BASE_YEAR);
    NoLeapDays();
    MonthsClosed(t.year, t.month);
    LeapDays(t.year);
    assert Word(t.year - 1) == t.year - 1;
  }

  /** For every date from year 1 on, kernMktime counts the seconds from the start of 1970, as a 32-bit word. */
  lemma MktimeCounts(t: Time)
    requires Valid(t) && t.year < WORD
    ensures KernMktime(t) == Word(Seconds(t))
  {
    hide MktimeDays, DayNumber, Valid, Word;
    MktimeDaysCount(t);
  }

  // ---------- From seconds to date ----------

  const PER_4 := 365 * 4 + 1
  const PER_100 := PER_4 * 25 - 1
  const PER_400 := PER_100 * 4 + 1
  const PER_5_MONTHS := 31 + 30 + 31 + 30 + 31

  /** Days from 1 March of year 0 to 1 March of this year. */
  function MarchDays(y: nat): nat { 365 * y + LeapDaysTo(y) }

  /** The divisions by 400, 100 and 4 years find the year, counted from March, and the day in it. */
  lemma YearFound(d: nat, c: nat, e: nat, y: nat, doy: nat)
    requires c == (4 * d + 3) / PER_400 && e == (4 * d + 3 - c * PER_400) / 4
    requires y == (4 * e + 3) / PER_4 && doy == (4 * e + 3 - y * PER_4) / 4
    ensures y < 100 && d == MarchDays(100 * c + y) + doy
    ensures doy < YearLength(100 * c + y + 1)
  {
    assert e == d - 36524 * c - c / 4;
    assert doy == e - 365 * y - y / 4;
    var z := 100 * c + y;
    assert z / 4 == 25 * c + y / 4 && z / 100 == c && z / 400 == c / 4;
    LeapYear(c, y);
    if doy >= 365 {
      assert y % 4 == 3 && doy == 365;
      if y == 99 {
        assert c % 4 == 3;
      }
    }
  }

  lemma LeapYear(c: nat, y: nat)
    requires y < 100
    ensures Leap(100 * c + y + 1) <==> y % 4 == 3 && (y != 99 || c % 4 == 3)
  {
    var z := 100 * c + y + 1;
    if y == 99 {
      assert z == 100 * (c + 1);
    } else {
      assert z % 100 == y + 1;
    }
  }

  /** The 153-day formula finds the month, March being 0, and the day in it, as 367 * m / 12 counts them. */
  lemma MonthFound(doy: nat, m: nat, date: nat)
    requires doy < 366 && m == (5 * doy + 2) / PER_5_MONTHS && date == (5 * doy + 2 - m * PER_5_MONTHS) / 5 + 1
    ensures m < 12 && doy == 367 * (m + 1) / 12 - 30 + date - 1
    ensures 1 <= date <= (if m == 11 then 29 else MonthLength(1, if m < 10 then m + 3 else m - 9))
    ensures m == 11 && date == 29 ==> doy == 365
  {
  }

  /** Counting years and days from March agrees with the calendar. */
  lemma DateFound(d: nat, y: nat, doy: nat, m: nat, date: nat)
    requires y >= 1 && d == MarchDays(y) + doy && doy < YearLength(y + 1)
    requires m < 12 && doy == 367 * (m + 1) / 12 - 30 + date - 1
    requires 1 <= date <= (if m == 11 then 29 else MonthLength(1, if m < 10 then m + 3 else m - 9))
    requires m == 11 && date == 29 ==> doy == 365
    ensures var year, month := if m < 10 then y else y + 1, if m < 10 then m + 3 else m - 9;
      && 1 <= date <= MonthLength(year, month)
      && DaysBeforeYear(year) + DaysBeforeMonth(year, month) + date - DaysBeforeYear(BASE_YEAR) == d - 719468 + 1
  {
    hide LeapDaysTo, DaysBeforeYear, DaysBeforeMonth, Leap;
    var year, month := if m < 10 then y else y + 1, if m < 10 then m + 3 else m - 9;
    YearsClosed(year);
    YearsClosed(BASE_YEAR);
    NoLeapDays();
    MonthsClosed(year, month);
    LeapDays(y);
    assert month == 2 || MonthLength(year, month) == MonthLength(1, month);
  }

  lemma MarchYear1()
    ensures MarchDays(0) == 0
  {
  }

  /** kernTm, the record kernGmtime fills in. */
  class KernTm {
    var year: nat
    var month: nat
    var date: nat
    var hours: nat
    var minutes: nat
    var seconds: nat

    function Value(): Time
      reads this
    {
      Time(year, month, date, hours, minutes, seconds)
    }
  }

  /** The three divisions of the time of day. */
  lemma TimeFound(inTime: nat, days: nat, time: nat, hour: nat, rest: nat, minutes: nat)
    requires days == inTime / 86400 && time == inTime - days * 86400 && hour == time / 3600
    requires rest == time - hour * 60 * 60 && minutes == rest / 60
    ensures hour < 24 && minutes < 60 && 0 <= rest - minutes * 60 < 60
    ensures ((days * 24 + hour) * 60 + minutes) * 60 + (rest - minutes * 60) == inTime
  {
  }

  /** All the divisions of kernGmtime together, for days counted from 1 March of year 0. */
  lemma DaysFound(d: nat, century: nat, e: nat, yearOfCentury: nat, doy: nat, m: nat, date: nat)
    requires d >= 719468 && century == (4 * d + 3) / PER_400 && e == (4 * d + 3 - century * PER_400) / 4
    requires yearOfCentury == (4 * e + 3) / PER_4 && doy == (4 * e + 3 - yearOfCentury * PER_4) / 4
    requires m == (5 * doy + 2) / PER_5_MONTHS && date == (5 * doy + 2 - m * PER_5_MONTHS) / 5 + 1
    ensures var y := century * 100 + yearOfCentury;
      var year, month := if m < 10 then y else y + 1, if m < 10 then m + 3 else m - 9;
      && 1 <= year && 1 <= month <= 12 && 1 <= date <= MonthLength(year, month)
      && DaysBeforeYear(year) + DaysBeforeMonth(year, month) + date - DaysBeforeYear(BASE_YEAR) == d - 719468 + 1
  {
    hide LeapDaysTo, DaysBeforeYear, DaysBeforeMonth, Leap, YearLength, MonthLength, MarchDays;
    YearFound(d, century, e, yearOfCentury, doy);
    MarchYear1();
    YearLengthBound(century * 100 + yearOfCentury + 1);
    MonthFound(doy, m, date);
    DateFound(d, century * 100 + yearOfCentury, doy, m, date);
  }

  lemma YearLengthBound(y: nat)
    ensures YearLength(y) <= 366
  {
  }

  /** kernGmtime: for every 32-bit time, the one valid date that many seconds after the start of 1970. */
  method KernGmtime(inTime: nat, out: KernTm)
    requires inTime < WORD
    modifies out
    ensures Valid(out.Value()) && Seconds(out.Value()) == inTime
  {
    hide LeapDaysTo, DaysBeforeYear, DaysBeforeMonth, Leap, MonthLength;
    var days: nat := inTime / (24 * 60 * 60);
    var time: nat := inTime - days * (24 * 60 * 60);
    var hour: nat := time / (60 * 60);
    var rest: nat := time - hour * 60 * 60;
    var minutes: nat := rest / 60;
    out.seconds := rest - minutes * 60;
    out.minutes := minutes;
    out.hours := hour;
    TimeFound(inTime, days, time, hour, rest, minutes);
    ghost var days0 := days;

    NoLeapDays();
    var b := BASE_YEAR - 1;
    days := days + (b * 365 + LeapDaysTo(b) + 367 * 10 / 12 + 2);
    assert days == days0 + 719469 && 4 * days < WORD;
    var days4: nat := days * 4 - 1;
    var century: nat := days4 / PER_400;
    var dayOfCentury4: nat := (days4 - century * PER_400) / 4 * 4 + 3;
    var yearOfCentury: nat := dayOfCentury4 / PER_4;
    var year: nat := century * 100 + yearOfCentury;
    ghost var doy: nat := (dayOfCentury4 - yearOfCentury * PER_4) / 4;
    var dayOfYear5: nat := ((dayOfCentury4 - yearOfCentury * PER_4) / 4 + 1) * 5 - 3;
    var month: nat := dayOfYear5 / PER_5_MONTHS;
    out.date := (dayOfYear5 - month * PER_5_MONTHS) / 5 + 1;
    DaysFound(days - 1, century, (days4 - century * PER_400) / 4, yearOfCentury, doy, month, out.date);
    if month < 10 {
      month := month + 3;
    } else {
      month := month - 9;
      year := year + 1;
    }
    out.month := month;
    out.year := year;
  }

  /** kernMktime takes what kernGmtime makes back to the time it came from, for every 32-bit time. */
  method ThereAndBack(inTime: nat, out: KernTm) returns (again: nat)
    requires inTime < WORD
    modifies out
    ensures again == inTime
  {
    KernGmtime(inTime, out);
    var t := out.Value();
    assert t.year < WORD by { YearBelow(t); }
    MktimeCounts(t);
    again := KernMktime(t);
  }

  lemma YearBelow(t: Time)
    requires Valid(t) && Seconds(t) < WORD
    ensures t.year < WORD
  {
    if t.year >= WORD {
      YearsClosed(t.year);
      YearsClosed(BASE_YEAR);
    }
  }

  /** And a date of 1970 to 2106, made into a time, is the only date that kernGmtime can give for it. */
  lemma BackAndThere(s: Time, t: Time)
    requires Valid(s) && 0 <= Seconds(s) < WORD && Valid(t) && Seconds(t) == KernMktime(s)
    ensures t == s
  {
    hide MktimeDays, DayNumber, Valid;
    YearBelow(s);
    MktimeCounts(s);
    SecondsDistinct(s, t);
  }
}
