/** The proleptic Gregorian calendar: `year_month_day` to and from a day count from 1970-01-01. */
module Gregorian {
  import opened Dates

  function IsLeap(y: int): bool {
    y % 4 == 0 && (y % 100 != 0 || y % 400 == 0)
  }

  function LastDay(y: int, m: int): int {
    if m == 2 then (if IsLeap(y) then 29 else 28) else if m in {4, 6, 9, 11} then 30 else 31
  }

  predicate Valid(d: Date) {
    1 <= d.month <= 12 && 1 <= d.day <= LastDay(d.year, d.month)
  }

  /** The source's `ok()`: the smallest 16-bit year is not a year. */
  predicate Ok(d: Date) {
    d.year != -32768 && Valid(d)
  }

  // ----- the conversions -----

  function DaysToYear(yoe: int): int {
    yoe * 365 + yoe / 4 - yoe / 100
  }

  /** The days before month `mp` of a year that starts in March. */
  function MonthStart(mp: int): int {
    (153 * mp + 2) / 5
  }

  /** The year that starts in March and contains the date, and the month counted from that March. */
  function MarchYear(d: Date): int {
    d.year - (if d.month <= 2 then 1 else 0)
  }

  function MarchMonth(d: Date): int {
    if d.month > 2 then d.month - 3 else d.month + 9
  }

  function ToDays(d: Date): int {
    var y := MarchYear(d);
    var era := Quot(if y >= 0 then y else y - 399, 400);
    var yoe := y - era * 400;
    var doy := MonthStart(MarchMonth(d)) + d.day - 1;
    var doe := DaysToYear(yoe) + doy;
    era * 146097 + doe - 719468
  }

  function YearOfEra(doe: int): int {
    (doe - doe / 1460 + doe / 36524 - doe / 146096) / 365
  }

  function MonthOfDay(doy: int): int {
    (5 * doy + 2) / 153
  }

  function FromDays(days: int): Date {
    var z := days + 719468;
    var era := Quot(if z >= 0 then z else z - 146096, 146097);
    var doe := z - era * 146097;
    var yoe := YearOfEra(doe);
    var y := yoe + era * 400;
    var doy := doe - DaysToYear(yoe);
    var mp := MonthOfDay(doy);
    var d := doy - MonthStart(mp) + 1;
    var m := if mp < 10 then mp + 3 else mp - 9;
    Date(y + (if m <= 2 then 1 else 0), m, d)
  }

  function NextDay(d: Date): Date {
    if d.day < LastDay(d.year, d.month) then d.(day := d.day + 1)
    else if d.month < 12 then Date(d.year, d.month + 1, 1)
    else Date(d.year + 1, 1, 1)
  }

  // ----- laying out an era without division -----

  /** Century, four-year group, year and day of one era of years that start in March. */
  ghost predicate Laid(c: int, f: int, k: int, doy: int) {
    && 0 <= c < 4 && 0 <= f < 25 && 0 <= k < 4 && 0 <= doy < 366
    && (doy == 365 ==> k == 3 && (f == 24 ==> c == 3))
  }

  lemma YearStartLaid(c: int, f: int, k: int)
    requires Laid(c, f, k, 0)
    ensures DaysToYear(100 * c + 4 * f + k) == 36524 * c + 1461 * f + 365 * k
  {
  }

  lemma YearFound(c: int, f: int, k: int, doy: int)
    requires Laid(c, f, k, doy)
    ensures var doe := 36524 * c + 1461 * f + 365 * k + doy;
      0 <= doe <= 146096 && YearOfEra(doe) == 100 * c + 4 * f + k
    ensures DaysToYear(100 * c + 4 * f + k) == 36524 * c + 1461 * f + 365 * k
  {
    YearStartLaid(c, f, k);
    hide DaysToYear;
    var doe := 36524 * c + 1461 * f + 365 * k + doy;
    var rest := 24 * c + f + 365 * k + doy;
    assert doe == 1460 * (25 * c + f) + rest && 0 <= rest < 2 * 1460;
    assert doe / 1460 == 25 * c + f + (if rest < 1460 then 0 else 1);
    assert doe / 36524 == c + (if doe == 146096 then 1 else 0);
    assert doe / 146096 == if doe == 146096 then 1 else 0;
  }

  lemma LayOut(doe: int) returns (c: int, f: int, k: int, doy: int)
    requires 0 <= doe <= 146096
    ensures Laid(c, f, k, doy) && doe == 36524 * c + 1461 * f + 365 * k + doy
  {
    c := if doe == 146096 then 3 else doe / 36524;
    var inCentury := doe - 36524 * c;
    f := inCentury / 1461;
    var inGroup := inCentury - 1461 * f;
    k := if inGroup == 1460 then 3 else inGroup / 365;
    doy := inGroup - 365 * k;
  }

  /** Months counted from March. */
  function MarchLength(mp: int): int {
    if mp == 11 then 29 else if mp in {1, 3, 6, 8} then 30 else 31
  }

  lemma MonthFound(mp: int, d: int)
    requires 0 <= mp <= 11 && 1 <= d <= MarchLength(mp)
    ensures var doy := MonthStart(mp) + d - 1; 0 <= doy <= 365 && MonthOfDay(doy) == mp
    ensures mp < 11 ==> MonthStart(mp + 1) == MonthStart(mp) + MarchLength(mp)
    ensures mp == 11 ==> MonthStart(mp) == 337
  {
  }

  lemma MonthLaidOut(doy: int)
    requires 0 <= doy <= 365
    ensures var mp := MonthOfDay(doy); var d := doy - MonthStart(mp) + 1;
      0 <= mp <= 11 && 1 <= d <= MarchLength(mp) && (doy == 365 <==> mp == 11 && d == 29)
  {
  }

  /** Valid dates are exactly the March-based months and days, with 29 February in leap years only. */
  lemma MarchForm(y: int, mp: int, d: int)
    requires 0 <= mp <= 11
    ensures var m := if mp < 10 then mp + 3 else mp - 9;
      Valid(Date(y + (if m <= 2 then 1 else 0), m, d)) <==>
      1 <= d <= MarchLength(mp) && (mp == 11 && d == 29 ==> IsLeap(y + 1))
  {
  }

  lemma LeapYearLaid(era: int, c: int, f: int, k: int)
    requires Laid(c, f, k, 0)
    ensures IsLeap(400 * era + 100 * c + 4 * f + k + 1) <==> Laid(c, f, k, 365)
  {
    var y := 400 * era + 100 * c + 4 * f + k + 1;
    var inGroup, inCentury, inEra := k + 1, 4 * f + k + 1, 100 * c + 4 * f + k + 1;
    if k == 3 {
      QuotientIs(y, 4, 100 * era + 25 * c + f + 1, 0);
    } else {
      QuotientIs(y, 4, 100 * era + 25 * c + f, inGroup);
    }
    if inCentury == 100 {
      QuotientIs(y, 100, 4 * era + c + 1, 0);
    } else {
      QuotientIs(y, 100, 4 * era + c, inCentury);
    }
    if inEra == 400 {
      QuotientIs(y, 400, era + 1, 0);
    } else {
      QuotientIs(y, 400, era, inEra);
    }
  }

  lemma SplitYear(y: int) returns (era: int, c: int, f: int, k: int)
    ensures y == 400 * era + 100 * c + 4 * f + k && Laid(c, f, k, 0)
    ensures era == y / 400 && y / 100 == 4 * era + c && y / 4 == 100 * era + 25 * c + f
  {
    era := y / 400;
    var inEra := y % 400;
    c := inEra / 100;
    var inCentury := inEra % 100;
    f, k := inCentury / 4, inCentury % 4;
    QuotientIs(y, 100, 4 * era + c, inCentury);
    QuotientIs(y, 4, 100 * era + 25 * c + f, k);
  }

  // ----- the bijection -----

  lemma DateFromMarch(d: Date)
    requires Valid(d)
    ensures var m := if MarchMonth(d) < 10 then MarchMonth(d) + 3 else MarchMonth(d) - 9;
      d == Date(MarchYear(d) + (if m <= 2 then 1 else 0), m, d.day)
  {
  }

  lemma DayOfMarchYear(d: Date)
    requires Valid(d)
    ensures 0 <= MarchMonth(d) <= 11 && 1 <= d.day <= MarchLength(MarchMonth(d))
    ensures 0 <= MonthStart(MarchMonth(d)) + d.day - 1 < if IsLeap(MarchYear(d) + 1) then 366 else 365
  {
    MarchForm(MarchYear(d), MarchMonth(d), d.day);
    hide IsLeap, MonthStart, MonthOfDay;
    MonthFound(MarchMonth(d), d.day);
    MonthLaidOut(MonthStart(MarchMonth(d)) + d.day - 1);
  }

  lemma LaidYear(era: int, c: int, f: int, k: int)
    requires Laid(c, f, k, 0)
    ensures var y := 400 * era + 100 * c + 4 * f + k;
      Quot(if y >= 0 then y else y - 399, 400) == era && y - era * 400 == 100 * c + 4 * f + k
  {
    EraFloors(400 * era + 100 * c + 4 * f + k, 400, era, 100 * c + 4 * f + k);
  }

  lemma ToDaysLaid(d: Date, era: int, c: int, f: int, k: int)
    requires Valid(d) && Laid(c, f, k, 0) && MarchYear(d) == 400 * era + 100 * c + 4 * f + k
    ensures Laid(c, f, k, MonthStart(MarchMonth(d)) + d.day - 1)
    ensures ToDays(d) == era * 146097 + 36524 * c + 1461 * f + 365 * k + MonthStart(MarchMonth(d)) + d.day - 1 - 719468
  {
    hide Quot, DaysToYear, IsLeap, Valid, MonthStart, MarchYear, MarchMonth, MarchLength;
    DayOfMarchYear(d);
    LeapYearLaid(era, c, f, k);
    YearFound(c, f, k, 0);
    LaidYear(era, c, f, k);
  }

  lemma FromDaysLaid(era: int, c: int, f: int, k: int, mp: int, d: int)
    requires 0 <= mp <= 11 && 1 <= d <= MarchLength(mp)
    requires Laid(c, f, k, MonthStart(mp) + d - 1)
    ensures var m := if mp < 10 then mp + 3 else mp - 9;
      FromDays(era * 146097 + 36524 * c + 1461 * f + 365 * k + MonthStart(mp) + d - 1 - 719468) ==
      Date(400 * era + 100 * c + 4 * f + k + (if m <= 2 then 1 else 0), m, d)
  {
    hide Quot, DaysToYear, YearOfEra, MonthStart, MonthOfDay;
    var doy := MonthStart(mp) + d - 1;
    var doe := 36524 * c + 1461 * f + 365 * k + doy;
    MonthFound(mp, d);
    YearFound(c, f, k, doy);
    EraFloors(era * 146097 + doe, 146097, era, doe);
  }

  lemma FromDaysPlaced(z: int) returns (era: int, c: int, f: int, k: int, mp: int)
    ensures 0 <= mp <= 11 && 1 <= FromDays(z).day <= MarchLength(mp)
    ensures Laid(c, f, k, MonthStart(mp) + FromDays(z).day - 1)
    ensures z == era * 146097 + 36524 * c + 1461 * f + 365 * k + MonthStart(mp) + FromDays(z).day - 1 - 719468
    ensures var m := if mp < 10 then mp + 3 else mp - 9;
      FromDays(z) == Date(400 * era + 100 * c + 4 * f + k + (if m <= 2 then 1 else 0), m, FromDays(z).day)
    ensures MonthStart(mp) + FromDays(z).day - 1 == 365 <==> mp == 11 && FromDays(z).day == 29
  {
    hide FromDays, MonthStart, MonthOfDay, MarchLength;
    era := (z + 719468) / 146097;
    var doy;
    c, f, k, doy := LayOut((z + 719468) % 146097);
    MonthLaidOut(doy);
    mp := MonthOfDay(doy);
    FromDaysLaid(era, c, f, k, mp, doy - MonthStart(mp) + 1);
  }

  /** Every day number comes from a valid date, and from the one `FromDays` gives. */
  lemma DaysRoundTrip(z: int)
    ensures Valid(FromDays(z)) && ToDays(FromDays(z)) == z
  {
    hide FromDays, ToDays, Valid, IsLeap, MonthStart, MarchLength;
    var era, c, f, k, mp := FromDaysPlaced(z);
    LeapYearLaid(era, c, f, k);
    MarchForm(400 * era + 100 * c + 4 * f + k, mp, FromDays(z).day);
    ToDaysLaid(FromDays(z), era, c, f, k);
  }

  /** `FromDays` undoes `ToDays` on every valid date. */
  lemma DateRoundTrip(d: Date)
    requires Valid(d)
    ensures FromDays(ToDays(d)) == d
  {
    var era, c, f, k := SplitYear(MarchYear(d));
    hide FromDays, ToDays, Valid, IsLeap, MonthStart, MarchYear, MarchMonth, MarchLength;
    DateFromMarch(d);
    DayOfMarchYear(d);
    ToDaysLaid(d, era, c, f, k);
    FromDaysLaid(era, c, f, k, MarchMonth(d), d.day);
  }

  // ----- calendar order -----

  /** The days before the March of year `y`, with floored divisions. */
  function DaysBeforeMarch(y: int): int {
    365 * y + y / 4 - y / 100 + y / 400
  }

  /** `ToDays` without eras; it holds even for dates that are not valid. */
  lemma ToDaysClosed(d: Date)
    ensures ToDays(d) == DaysBeforeMarch(MarchYear(d)) + MonthStart(MarchMonth(d)) + d.day - 1 - 719468
  {
    hide Quot, DaysToYear, MonthStart, MarchYear, MarchMonth;
    var era, c, f, k := SplitYear(MarchYear(d));
    LaidYear(era, c, f, k);
    YearFound(c, f, k, 0);
  }

  lemma MarchYearLength(y: int)
    ensures DaysBeforeMarch(y + 1) == DaysBeforeMarch(y) + if IsLeap(y + 1) then 366 else 365
  {
    NextQuotient(y, 4);
    NextQuotient(y, 100);
    NextQuotient(y, 400);
    MultiplesNest(y + 1);
  }

  lemma MultiplesNest(y: int)
    ensures y % 400 == 0 ==> y % 100 == 0
    ensures y % 100 == 0 ==> y % 4 == 0
  {
    QuotientIs(y, 100, y / 400 * 4 + y % 400 / 100, y % 400 % 100);
    QuotientIs(y, 4, y / 100 * 25 + y % 100 / 4, y % 100 % 4);
  }

  /** The next day in years that start in March: only after February does the year change. */
  lemma NextDayMarchForm(d: Date)
    requires Valid(d)
    ensures Valid(NextDay(d))
    ensures var n := NextDay(d);
      || (MarchYear(n) == MarchYear(d) && MarchMonth(n) == MarchMonth(d) && n.day == d.day + 1)
      || (MarchYear(n) == MarchYear(d) && MarchMonth(n) == MarchMonth(d) + 1 <= 11 && n.day == 1
          && d.day == MarchLength(MarchMonth(d)))
      || (MarchYear(n) == MarchYear(d) + 1 && MarchMonth(d) == 11 && MarchMonth(n) == 0 && n.day == 1
          && d.day == if IsLeap(MarchYear(n)) then 29 else 28)
  {
    hide IsLeap;
  }

  /** The next calendar day is the next day number. */
  lemma NextDayIsNext(d: Date)
    requires Valid(d)
    ensures Valid(NextDay(d)) && ToDays(NextDay(d)) == ToDays(d) + 1
  {
    NextDayMarchForm(d);
    assert 0 <= MarchMonth(d) <= 11 && MonthStart(0) == 0;
    hide ToDays, IsLeap, DaysBeforeMarch, MonthStart, Valid, MarchLength, NextDay, MarchYear, MarchMonth;
    ToDaysClosed(d);
    ToDaysClosed(NextDay(d));
    MonthFound(MarchMonth(d), 1);
    MarchYearLength(MarchYear(d));
  }

  /** 1970-01-01 is day 0; with `NextDayIsNext` this pins every day number. */
  lemma Epoch()
    ensures ToDays(Date(1970, 1, 1)) == 0
  {
  }

  lemma {:induction false} MarchYearsGrow(a: int, b: int)
    requires a <= b
    ensures DaysBeforeMarch(b) >= DaysBeforeMarch(a)
    ensures a < b ==> DaysBeforeMarch(b) >= DaysBeforeMarch(a) + if IsLeap(a + 1) then 366 else 365
    decreases b - a
  {
    if a < b {
      MarchYearsGrow(a, b - 1);
      MarchYearLength(b - 1);
    }
  }

  lemma BeforeMarchForm(a: Date, b: Date)
    requires Valid(a) && Valid(b) && Before(a, b)
    ensures || MarchYear(a) < MarchYear(b)
            || (MarchYear(a) == MarchYear(b) && MarchMonth(a) < MarchMonth(b))
            || (MarchYear(a) == MarchYear(b) && MarchMonth(a) == MarchMonth(b) && a.day < b.day)
  {
  }

  lemma EarlierIsSmaller(a: Date, b: Date)
    requires Valid(a) && Valid(b) && Before(a, b)
    ensures ToDays(a) < ToDays(b)
  {
    hide ToDays, IsLeap, DaysBeforeMarch, Valid, MonthStart, MarchYear, MarchMonth, MarchLength, Before;
    BeforeMarchForm(a, b);
    ToDaysClosed(a);
    ToDaysClosed(b);
    DayOfMarchYear(a);
    DayOfMarchYear(b);
    if MarchYear(a) < MarchYear(b) {
      MarchYearsGrow(MarchYear(a), MarchYear(b));
    } else if MarchMonth(a) < MarchMonth(b) {
      MonthStartsGrow(MarchMonth(a), MarchMonth(b));
    }
  }

  lemma {:induction false} MonthStartsGrow(a: int, b: int)
    requires 0 <= a < b <= 11
    ensures MonthStart(b) >= MonthStart(a) + MarchLength(a)
    decreases b - a
  {
    MonthFound(a, 1);
    if a + 1 < b {
      MonthStartsGrow(a + 1, b);
    }
  }

  /** Calendar order is the order of day numbers. */
  lemma OrderPreserved(a: Date, b: Date)
    requires Valid(a) && Valid(b)
    ensures Before(a, b) <==> ToDays(a) < ToDays(b)
  {
    if Before(a, b) {
      EarlierIsSmaller(a, b);
    } else if a != b {
      EarlierIsSmaller(b, a);
    }
  }

  // ----- the bounds the comments claim -----

  lemma ToDaysBounds(d: Date)
    requires Valid(d)
    ensures var y := MarchYear(d);
      var yoe := y - Quot(if y >= 0 then y else y - 399, 400) * 400;
      var doy := MonthStart(MarchMonth(d)) + d.day - 1;
      0 <= yoe <= 399 && 0 <= doy <= 365 && 0 <= DaysToYear(yoe) + doy <= 146096
  {
    hide ToDays, Quot, DaysToYear, Valid;
    var era, c, f, k := SplitYear(MarchYear(d));
    ToDaysLaid(d, era, c, f, k);
    YearFound(c, f, k, MonthStart(MarchMonth(d)) + d.day - 1);
    EraFloors(MarchYear(d), 400, era, 100 * c + 4 * f + k);
  }

  lemma FromDaysBounds(days: int)
    ensures var z := days + 719468;
      var doe := z - Quot(if z >= 0 then z else z - 146096, 146097) * 146097;
      var doy := doe - DaysToYear(YearOfEra(doe));
      && 0 <= doe <= 146096 && 0 <= YearOfEra(doe) <= 399 && 0 <= doy <= 365
      && 0 <= MonthOfDay(doy) <= 11
      && 1 <= FromDays(days).day <= 31 && 1 <= FromDays(days).month <= 12
  {
    hide FromDays, Quot, DaysToYear, YearOfEra;
    var z := days + 719468;
    EraFloors(z, 146097, z / 146097, z % 146097);
    var c, f, k, doy := LayOut(z % 146097);
    YearFound(c, f, k, doy);
    MonthLaidOut(doy);
    DaysRoundTrip(days);
  }

  // ----- the 16-bit year -----

  /** The date with its year as the source stores it, in a `short`. */
  function Stored(d: Date): Date {
    d.(year := (d.year + 32768) % 65536 - 32768)
  }

  lemma StoredSame(y: int)
    ensures (y + 32768) % 65536 - 32768 == y <==> -32768 <= y <= 32767
    ensures -32768 <= (y + 32768) % 65536 - 32768 <= 32767
  {
  }

  /** What the source's `from_days` returns is a date that leads back to the same day exactly when the
      year fits a `short`; it is also `ok()` exactly when it is not the smallest `short`. */
  lemma StoredRoundTrip(z: int)
    ensures Valid(Stored(FromDays(z))) && ToDays(Stored(FromDays(z))) == z <==> -32768 <= FromDays(z).year <= 32767
    ensures Ok(Stored(FromDays(z))) && ToDays(Stored(FromDays(z))) == z <==> -32767 <= FromDays(z).year <= 32767
  {
    hide ToDays, FromDays, IsLeap, LastDay;
    var d := FromDays(z);
    DaysRoundTrip(z);
    StoredSame(d.year);
    if Valid(Stored(d)) {
      DateRoundTrip(Stored(d));
    }
  }

  // ----- month lengths -----

  lemma DaysWithinMonth(y: int, m: int, d: int)
    ensures ToDays(Date(y, m, d)) == ToDays(Date(y, m, 1)) + d - 1
  {
    hide Quot, DaysToYear, MonthStart;
  }

  /** From the first of a month to the first of the next it is as many days as the calendar says. */
  lemma MonthLengths(y: int, m: int)
    requires 1 <= m <= 12
    ensures ToDays(if m == 12 then Date(y + 1, 1, 1) else Date(y, m + 1, 1)) - ToDays(Date(y, m, 1)) ==
            if m == 2 && y % 4 == 0 && (y % 100 != 0 || y % 400 == 0) then 29
            else [31, 28, 31, 30, 31, 30, 31, 31, 30, 31, 30, 31][m - 1]
  {
    hide ToDays;
    var last := Date(y, m, LastDay(y, m));
    NextDayIsNext(last);
    DaysWithinMonth(y, m, last.day);
  }
}
