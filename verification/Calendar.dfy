/**
 The calendar arithmetic behind log timestamps (src/client/remote_logging.rs), against a plain
 Gregorian calendar: month lengths, the leap-year rule and counting days one at a time.
 Rust's `div_euclid`/`rem_euclid` are Dafny's `/` and `%`; every other division in the source has
 non-negative operands, where truncation and Euclidean division agree.
 */
module Calendar {
  import opened Division

  datatype Date = Date(year: int, month: int, day: int)

  // ---------------------------------------------------------------- the source's algorithm

  function YearOfEra(doe: int): int {
    (doe - doe / 1460 + doe / 36_524 - doe / 146_096) / 365
  }

  function YearStart(yoe: int): int {
    365 * yoe + yoe / 4 - yoe / 100
  }

  // Month and day from a March-based year and the day within it.
  function MarchDate(year: int, doy: int): Date {
    var mp := (5 * doy + 2) / 153;
    var day := doy - (153 * mp + 2) / 5 + 1;
    var month := if mp < 10 then mp + 3 else mp - 9;
    Date(year + if month <= 2 then 1 else 0, month, day)
  }

  function CivilFromDays(days: int): Date {
    var z := days + 719_468;
    var era := z / 146_097;
    var doe := z - era * 146_097;
    var yoe := YearOfEra(doe);
    MarchDate(yoe + era * 400, doe - YearStart(yoe))
  }

  datatype Time = Time(date: Date, hour: int, minute: int, second: int)

  // The fields `timestamp` prints, from whole seconds since the epoch.
  function TimeFromSeconds(secs: int): Time {
    var tod := secs % 86_400;
    Time(CivilFromDays(secs / 86_400), tod / 3600, (tod % 3600) / 60, tod % 60)
  }

  // ---------------------------------------------------------------- the reference calendar

  predicate IsLeap(year: int) {
    year % 4 == 0 && (year % 100 != 0 || year % 400 == 0)
  }

  function DaysInMonth(year: int, month: int): int {
    if month == 2 then (if IsLeap(year) then 29 else 28)
    else if month in {4, 6, 9, 11} then 30
    else 31
  }

  predicate Valid(d: Date) {
    1 <= d.month <= 12 && 1 <= d.day <= DaysInMonth(d.year, d.month)
  }

  function NextDay(d: Date): Date {
    if d.day < DaysInMonth(d.year, d.month) then d.(day := d.day + 1)
    else if d.month < 12 then Date(d.year, d.month + 1, 1)
    else Date(d.year + 1, 1, 1)
  }

  function DaysInMonths(year: int, months: nat): int {
    if months == 0 then 0 else DaysInMonths(year, months - 1) + DaysInMonth(year, months)
  }

  // Days from 1970-01-01 to the first of January of `year`, one year at a time in either direction.
  function DaysToYear(year: int): int
    decreases if year < 1970 then 1970 - year else year - 1970
  {
    if year == 1970 then 0
    else if year > 1970 then DaysToYear(year - 1) + DaysInMonths(year - 1, 12)
    else DaysToYear(year + 1) - DaysInMonths(year, 12)
  }

  function DayNumber(d: Date): int
    requires Valid(d)
  {
    DaysToYear(d.year) + DaysInMonths(d.year, d.month - 1) + d.day - 1
  }

  predicate Before(a: Date, b: Date) {
    a.year < b.year || (a.year == b.year && (a.month < b.month || (a.month == b.month && a.day < b.day)))
  }

  // ---------------------------------------------------------------- locating a day in its March year

  lemma YearDigits(c: int, q: int, t: int)
    requires 0 <= c < 4 && 0 <= q < 25 && 0 <= t < 1461 && (q == 24 ==> t < 1460)
    ensures YearOfEra(36_524 * c + 1461 * q + t) == 100 * c + 4 * q + if t == 1460 then 3 else t / 365
  {
    var doe := 36_524 * c + 1461 * q + t;
    DivUnique(doe, 1460, 25 * c + q + if t + 24 * c + q < 1460 then 0 else 1);
    DivUnique(doe, 36_524, c);
    DivUnique(doe, 146_096, 0);
    DivUnique(doe - doe / 1460 + doe / 36_524 - doe / 146_096, 365,
              100 * c + 4 * q + if t == 1460 then 3 else t / 365);
  }

  lemma YearStartDigits(c: int, q: int, s: int)
    requires 0 <= c <= 4 && 0 <= q < 25 && 0 <= s < 4
    ensures YearStart(100 * c + 4 * q + s) == 36_524 * c + 1461 * q + 365 * s
  {
    DivUnique(100 * c + 4 * q + s, 4, 25 * c + q);
    DivUnique(100 * c + 4 * q + s, 100, c);
  }

  // The digits of the year after.
  lemma NextYearStart(c: int, q: int, s: int)
    requires 0 <= c < 4 && 0 <= q < 25 && 0 <= s < 4
    ensures YearStart(100 * c + 4 * q + s + 1) ==
            36_524 * c + 1461 * q + 365 * (s + 1) + if s == 3 && q < 24 then 1 else 0
  {
    if s < 3 { YearStartDigits(c, q, s + 1); }
    else if q < 24 { YearStartDigits(c, q + 1, 0); }
    else { YearStartDigits(c + 1, 0, 0); }
  }

  // The branch-free formula finds the year whose span holds the day; the last day of an era is the
  // one 400-year leap day, which the formula keeps in year 399.
  lemma YearOfEraFits(doe: int)
    requires 0 <= doe < 146_097
    ensures 0 <= YearOfEra(doe) < 400
    ensures YearStart(YearOfEra(doe)) <= doe
    ensures doe < YearStart(YearOfEra(doe) + 1) || (doe == 146_096 && YearOfEra(doe) == 399)
  {
    if doe == 146_096 {
      LastOfEra();
    } else {
      hide YearOfEra, YearStart;
      var c, q, s, rest := DayDigits(doe);
      YearStartDigits(c, q, s);
      NextYearStart(c, q, s);
    }
  }

  // Centuries, fours and single years of a day of the era, and the days left in the year.
  lemma DayDigits(doe: int) returns (c: int, q: int, s: int, rest: int)
    requires 0 <= doe < 146_096
    ensures 0 <= c < 4 && 0 <= q < 25 && 0 <= s < 4 && YearOfEra(doe) == 100 * c + 4 * q + s
    ensures doe == 36_524 * c + 1461 * q + 365 * s + rest
    ensures 0 <= rest < 365 || (rest == 365 && s == 3 && q < 24)
  {
    hide YearOfEra;
    c, rest := doe / 36_524, doe % 36_524;
    q, rest := rest / 1461, rest % 1461;
    YearDigits(c, q, rest);
    s := if rest == 1460 then 3 else rest / 365;
    rest := rest - 365 * s;
  }

  lemma LastOfEra()
    ensures YearOfEra(146_096) == 399 && YearStart(399) == 145_731
  {
  }

  // Days before the March-based year `y`, counted from 0000-03-01.
  function MarchCount(y: int): int {
    365 * y + y / 4 - y / 100 + y / 400
  }

  function MarchLength(y: int): int {
    if IsLeap(y + 1) then 366 else 365
  }

  lemma CountInEra(era: int, yoe: int)
    requires 0 <= yoe <= 400
    ensures MarchCount(yoe + era * 400) ==
            era * 146_097 + YearStart(yoe) + if yoe == 400 then 1 else 0
  {
    DivUnique(yoe + era * 400, 4, 100 * era + yoe / 4);
    DivUnique(yoe + era * 400, 100, 4 * era + yoe / 100);
    DivUnique(yoe + era * 400, 400, era + yoe / 400);
  }

  lemma LengthInEra(era: int, yoe: int)
    requires 0 <= yoe < 400
    ensures MarchLength(yoe + era * 400) == MarchLength(yoe)
  {
    var y := yoe + 1;
    DivUnique(y + era * 400, 4, 100 * era + y / 4);
    DivUnique(y + era * 400, 100, 4 * era + y / 100);
    DivUnique(y + era * 400, 400, era + y / 400);
  }

  lemma YearStartStep(yoe: int)
    requires 0 <= yoe < 400
    ensures YearStart(yoe + 1) + (if yoe == 399 then 1 else 0) == YearStart(yoe) + MarchLength(yoe)
  {
    assert (yoe + 1) / 4 == yoe / 4 + if (yoe + 1) % 4 == 0 then 1 else 0;
    assert (yoe + 1) / 100 == yoe / 100 + if (yoe + 1) % 100 == 0 then 1 else 0;
  }

  lemma MarchCountStep(y: int)
    ensures MarchCount(y + 1) == MarchCount(y) + MarchLength(y)
  {
    var era, yoe := y / 400, y % 400;
    CountInEra(era, yoe);
    CountInEra(era, yoe + 1);
    LengthInEra(era, yoe);
    YearStartStep(yoe);
  }

  lemma MarchCountMonotone(a: int, b: int)
    requires a <= b
    ensures MarchCount(a) <= MarchCount(b)
  {
  }

  lemma YearIsUnique(z: int, y: int, y': int)
    requires MarchCount(y) <= z < MarchCount(y + 1)
    requires MarchCount(y') <= z < MarchCount(y' + 1)
    ensures y == y'
  {
    if y' < y { MarchCountMonotone(y' + 1, y); }
    if y < y' { MarchCountMonotone(y + 1, y'); }
  }

  lemma {:induction false} Located(days: int) returns (y: int, doy: int)
    ensures 0 <= doy < MarchLength(y) && days + 719_468 == MarchCount(y) + doy
    ensures CivilFromDays(days) == MarchDate(y, doy)
  {
    hide YearOfEra, MarchDate, MarchCount, MarchLength, YearStart;
    var z := days + 719_468;
    var era := z / 146_097;
    var doe := z - era * 146_097;
    var yoe := YearOfEra(doe);
    YearOfEraFits(doe);
    y, doy := yoe + era * 400, doe - YearStart(yoe);
    DoyFits(doe, yoe);
    LengthInEra(era, yoe);
    CountInEra(era, yoe);
  }

  lemma DoyFits(doe: int, yoe: int)
    requires 0 <= yoe < 400 && YearStart(yoe) <= doe
    requires doe < YearStart(yoe + 1) || (doe == 146_096 && yoe == 399)
    ensures doe - YearStart(yoe) < MarchLength(yoe)
  {
    YearStartStep(yoe);
    if yoe == 399 { LastOfEra(); }
    hide YearStart, MarchLength;
    LastYearIsLong();
  }

  lemma LastYearIsLong()
    ensures MarchLength(399) == 366
  {
  }

  // A day's March year and its offset in it are fixed by the count alone.
  lemma Locate(days: int, y: int, doy: int)
    requires 0 <= doy < MarchLength(y) && days + 719_468 == MarchCount(y) + doy
    ensures CivilFromDays(days) == MarchDate(y, doy)
  {
    var y', doy' := Located(days);
    hide CivilFromDays, MarchDate;
    MarchCountStep(y);
    MarchCountStep(y');
    hide MarchCount;
    YearIsUnique(days + 719_468, y, y');
  }

  // ---------------------------------------------------------------- the theorems

  // Days before the month `mp` of a March-based year.
  function MonthStart(mp: int): int {
    (153 * mp + 2) / 5
  }

  function MonthOf(doy: int): int {
    (5 * doy + 2) / 153
  }

  function MonthNumber(mp: int): int {
    if mp < 10 then mp + 3 else mp - 9
  }

  lemma MonthSpans(doy: int, mp: int)
    requires 0 <= doy < 366 && 0 <= mp < 12
    ensures MonthOf(doy) == mp <==> MonthStart(mp) <= doy < MonthStart(mp + 1)
  {
    assert MonthOf(doy) == mp <==> 153 * mp <= 5 * doy + 2 < 153 * (mp + 1);
    assert MonthStart(mp) <= doy <==> 153 * mp + 2 < 5 * (doy + 1);
    assert doy < MonthStart(mp + 1) <==> 5 * (doy + 1) <= 153 * (mp + 1) + 2;
  }

  // Every month but February, which ends the March-based year, is as long as the formula says.
  lemma MonthLengths(year: int, mp: int)
    requires 0 <= mp < 12
    ensures mp < 11 ==> MonthStart(mp + 1) - MonthStart(mp) == DaysInMonth(year, MonthNumber(mp))
    ensures mp == 11 ==> MonthNumber(mp) == 2 && MonthStart(mp) == 337 && MonthStart(mp + 1) == 367
  {
  }

  lemma MarchDateParts(y: int, doy: int)
    requires 0 <= doy < 366
    ensures var mp := MonthOf(doy);
      && 0 <= mp < 12 && MonthStart(mp) <= doy < MonthStart(mp + 1)
      && MarchDate(y, doy) == DateIn(y, mp, doy - MonthStart(mp) + 1)
  {
    MonthSpans(doy, MonthOf(doy));
  }

  function DateIn(y: int, mp: int, day: int): Date {
    Date(if MonthNumber(mp) <= 2 then y + 1 else y, MonthNumber(mp), day)
  }

  lemma MarchDateValid(y: int, doy: int)
    requires 0 <= doy < MarchLength(y)
    ensures Valid(MarchDate(y, doy))
  {
    MarchDateParts(y, doy);
    hide MarchDate, MonthStart, MonthOf, IsLeap;
    MonthLengths(if MonthNumber(MonthOf(doy)) <= 2 then y + 1 else y, MonthOf(doy));
  }

  lemma MarchDateNext(y: int, doy: int)
    requires 0 <= doy < MarchLength(y)
    ensures NextDay(MarchDate(y, doy)) ==
            if doy + 1 < MarchLength(y) then MarchDate(y, doy + 1) else MarchDate(y + 1, 0)
  {
    var mp := MonthOf(doy);
    MarchDateParts(y, doy);
    MonthLengths(if MonthNumber(mp) <= 2 then y + 1 else y, mp);
    FirstOfMarch(y + 1);
    if doy + 1 < MarchLength(y) { NextInYear(y, doy); }
    hide MarchDate, MonthStart, MonthOf, IsLeap;
  }

  lemma NextInYear(y: int, doy: int)
    requires 0 <= doy < 365
    ensures var mp := MonthOf(doy);
      MarchDate(y, doy + 1) ==
      if doy + 1 < MonthStart(mp + 1) then DateIn(y, mp, doy + 1 - MonthStart(mp) + 1) else DateIn(y, mp + 1, 1)
  {
    var mp := MonthOf(doy);
    MarchDateParts(y, doy);
    MarchDateParts(y, doy + 1);
    hide MarchDate, MonthStart, MonthOf, DateIn;
    MonthSpans(doy + 1, mp);
    MonthGrows(11);
    MonthLengths(y, 11);
    if mp < 11 {
      MonthSpans(doy + 1, mp + 1);
      MonthGrows(mp + 1);
    }
  }

  lemma MonthGrows(mp: int)
    requires 0 <= mp < 12
    ensures MonthStart(mp) + 28 < MonthStart(mp + 1)
  {
  }

  lemma FirstOfMarch(y: int)
    ensures MarchDate(y, 0) == Date(y, 3, 1)
  {
  }

  lemma CivilEpoch()
    ensures CivilFromDays(0) == Date(1970, 1, 1)
  {
    hide CivilFromDays;
    Locate(0, 1969, 306);
  }

  lemma CivilIsValid(days: int)
    ensures Valid(CivilFromDays(days))
  {
    var y, doy := Located(days);
    MarchDateValid(y, doy);
  }

  // Every day, negative ones included, is followed by its calendar successor.
  lemma CivilNextDay(days: int)
    ensures CivilFromDays(days + 1) == NextDay(CivilFromDays(days))
  {
    hide CivilFromDays, MarchDate, MarchCount, NextDay;
    var y, doy := Located(days);
    MarchDateNext(y, doy);
    MarchCountStep(y);
    if doy + 1 < MarchLength(y) {
      Locate(days + 1, y, doy + 1);
    } else {
      Locate(days + 1, y + 1, 0);
    }
  }

  // Counting forward one day adds one: the reference calendar's own law.
  lemma DayNumberNext(d: Date)
    requires Valid(d)
    ensures Valid(NextDay(d)) && DayNumber(NextDay(d)) == DayNumber(d) + 1
  {
    if d.day == DaysInMonth(d.year, d.month) && d.month == 12 {
      assert DaysToYear(d.year + 1) == DaysToYear(d.year) + DaysInMonths(d.year, 12);
    }
  }

  lemma CountOneMore(d: Date, e: Date, n: int)
    requires Valid(d) && Valid(e) && e == NextDay(d)
    ensures DayNumber(d) == n <==> DayNumber(e) == n + 1
  {
    DayNumberNext(d);
  }

  // Counting days to the computed date gives back the day number, in both directions from the epoch.
  lemma {:induction false} CountingUndoesCivil(days: int)
    ensures Valid(CivilFromDays(days)) && DayNumber(CivilFromDays(days)) == days
    decreases if days < 0 then -days else days
  {
    hide CivilFromDays;
    CivilIsValid(days);
    if days == 0 {
      CivilEpoch();
    } else if days > 0 {
      CountingUndoesCivil(days - 1);
      CivilNextDay(days - 1);
      CountOneMore(CivilFromDays(days - 1), CivilFromDays(days), days - 1);
    } else {
      CountingUndoesCivil(days + 1);
      CivilNextDay(days);
      CountOneMore(CivilFromDays(days), CivilFromDays(days + 1), days);
    }
  }

  lemma {:induction false} MonthsMonotone(year: int, a: nat, b: nat)
    requires a <= b
    ensures DaysInMonths(year, a) + 28 * (b - a) <= DaysInMonths(year, b)
  {
    if a < b { MonthsMonotone(year, a, b - 1); }
  }

  lemma {:induction false} YearsMonotone(a: int, b: int)
    requires a < b
    ensures DaysToYear(a) + DaysInMonths(a, 12) <= DaysToYear(b)
    decreases b - a
  {
    assert DaysToYear(b) == DaysToYear(b - 1) + DaysInMonths(b - 1, 12);
    MonthsMonotone(b - 1, 0, 12);
    if a < b - 1 { YearsMonotone(a, b - 1); }
  }

  lemma LastOfMonth(d: Date)
    requires Valid(d)
    ensures DaysInMonths(d.year, d.month - 1) + d.day <= DaysInMonths(d.year, d.month)
    ensures DaysInMonths(d.year, 0) == 0
  {
  }

  lemma DayNumberMonotone(a: Date, b: Date)
    requires Valid(a) && Valid(b) && Before(a, b)
    ensures DayNumber(a) < DayNumber(b)
  {
    hide DaysInMonths, DaysToYear;
    if a.year < b.year {
      YearsMonotone(a.year, b.year);
      MonthsMonotone(a.year, a.month, 12);
      MonthsMonotone(b.year, 0, b.month - 1);
      LastOfMonth(a);
      LastOfMonth(b);
    } else if a.month < b.month {
      MonthsMonotone(a.year, a.month, b.month - 1);
      LastOfMonth(a);
    }
  }

  // ... and every valid date is reached: the two maps are inverse bijections.
  lemma CivilUndoesCounting(d: Date)
    requires Valid(d)
    ensures CivilFromDays(DayNumber(d)) == d
  {
    hide CivilFromDays, DayNumber;
    var e := CivilFromDays(DayNumber(d));
    CountingUndoesCivil(DayNumber(d));
    if Before(d, e) { DayNumberMonotone(d, e); }
    if Before(e, d) { DayNumberMonotone(e, d); }
  }

  lemma CivilPreservesOrder(a: int, b: int)
    ensures a < b <==> Before(CivilFromDays(a), CivilFromDays(b))
  {
    hide CivilFromDays, DayNumber, Valid;
    CountingUndoesCivil(a);
    CountingUndoesCivil(b);
    var x, y := CivilFromDays(a), CivilFromDays(b);
    if Before(x, y) { DayNumberMonotone(x, y); }
    if Before(y, x) { DayNumberMonotone(y, x); }
  }

  // The printed fields are in range and hold every second: they give back the time they came from.
  lemma TimestampRoundTrip(secs: int)
    ensures var t := TimeFromSeconds(secs);
      && 0 <= t.hour < 24 && 0 <= t.minute < 60 && 0 <= t.second < 60 && Valid(t.date)
      && secs == 86_400 * DayNumber(t.date) + 3600 * t.hour + 60 * t.minute + t.second
  {
    hide CivilFromDays;
    CountingUndoesCivil(secs / 86_400);
  }
}
