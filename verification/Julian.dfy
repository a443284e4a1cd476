/** The proleptic Julian calendar, and its distance from the Gregorian one. */
module Julian {
  import opened Dates
  import G = Gregorian

  function IsLeap(y: int): bool {
    Rem(y, 4) == 0
  }

  function LastDay(y: int, m: int): int {
    if m == 2 then (if IsLeap(y) then 29 else 28) else if m in {4, 6, 9, 11} then 30 else 31
  }

  predicate Valid(d: Date) {
    1 <= d.month <= 12 && 1 <= d.day <= LastDay(d.year, d.month)
  }

  function ToDays(d: Date): int {
    var y := G.MarchYear(d);
    var era := Quot(if y >= 0 then y else y - 3, 4);
    var yoe := y - era * 4;
    var doy := G.MonthStart(G.MarchMonth(d)) + d.day - 1;
    var doe := yoe * 365 + doy;
    era * 1461 + doe - 719470
  }

  function FromDays(days: int): Date {
    var z := days + 719470;
    var era := Quot(if z >= 0 then z else z - 1460, 1461);
    var doe := z - era * 1461;
    var yoe := (doe - doe / 1460) / 365;
    var y := yoe + era * 4;
    var doy := doe - 365 * yoe;
    var mp := G.MonthOfDay(doy);
    var d := doy - G.MonthStart(mp) + 1;
    var m := if mp < 10 then mp + 3 else mp - 9;
    Date(y + (if m <= 2 then 1 else 0), m, d)
  }

  function NextDay(d: Date): Date {
    if d.day < LastDay(d.year, d.month) then d.(day := d.day + 1)
    else if d.month < 12 then Date(d.year, d.month + 1, 1)
    else Date(d.year + 1, 1, 1)
  }

  lemma LeapIsMultipleOfFour(y: int)
    ensures IsLeap(y) <==> y % 4 == 0
  {
  }

  /** Valid dates counted in years that start in March. */
  lemma MarchForm(y: int, mp: int, d: int)
    requires 0 <= mp <= 11
    ensures var m := if mp < 10 then mp + 3 else mp - 9;
      Valid(Date(y + (if m <= 2 then 1 else 0), m, d)) <==>
      1 <= d <= G.MarchLength(mp) && (mp == 11 && d == 29 ==> y % 4 == 3)
  {
    LeapIsMultipleOfFour(y + 1);
    NextQuotient(y, 4);
    hide IsLeap;
  }

  lemma DayOfMarchYear(d: Date)
    requires Valid(d)
    ensures 0 <= G.MarchMonth(d) <= 11 && 1 <= d.day <= G.MarchLength(G.MarchMonth(d))
    ensures 0 <= G.MonthStart(G.MarchMonth(d)) + d.day - 1 < if G.MarchYear(d) % 4 == 3 then 366 else 365
    ensures var m := if G.MarchMonth(d) < 10 then G.MarchMonth(d) + 3 else G.MarchMonth(d) - 9;
      d == Date(G.MarchYear(d) + (if m <= 2 then 1 else 0), m, d.day)
  {
    MarchForm(G.MarchYear(d), G.MarchMonth(d), d.day);
    hide IsLeap, G.MonthStart, G.MonthOfDay;
    G.MonthFound(G.MarchMonth(d), d.day);
    G.MonthLaidOut(G.MonthStart(G.MarchMonth(d)) + d.day - 1);
  }

  /** `ToDays` without eras; it holds even for dates that are not valid. */
  lemma ToDaysClosed(d: Date)
    ensures var y := G.MarchYear(d);
      ToDays(d) == 365 * y + y / 4 + G.MonthStart(G.MarchMonth(d)) + d.day - 1 - 719470
  {
    hide Quot, G.MonthStart, G.MarchYear, G.MarchMonth;
    EraFloors(G.MarchYear(d), 4, G.MarchYear(d) / 4, G.MarchYear(d) % 4);
  }

  lemma FromDaysLaid(era: int, yoe: int, mp: int, d: int)
    requires 0 <= yoe < 4 && 0 <= mp <= 11 && 1 <= d <= G.MarchLength(mp)
    requires G.MonthStart(mp) + d - 1 == 365 ==> yoe == 3
    ensures var m := if mp < 10 then mp + 3 else mp - 9;
      FromDays(era * 1461 + yoe * 365 + G.MonthStart(mp) + d - 1 - 719470) ==
      Date(4 * era + yoe + (if m <= 2 then 1 else 0), m, d)
  {
    hide Quot, G.MonthStart, G.MonthOfDay;
    G.MonthFound(mp, d);
    var doe := yoe * 365 + G.MonthStart(mp) + d - 1;
    EraFloors(era * 1461 + doe, 1461, era, doe);
  }

  lemma DaysRoundTrip(z: int)
    ensures Valid(FromDays(z)) && ToDays(FromDays(z)) == z
  {
    hide ToDays, FromDays, Valid, G.MonthStart, G.MonthOfDay, G.MarchLength;
    var era, doe := (z + 719470) / 1461, (z + 719470) % 1461;
    var yoe := if doe == 1460 then 3 else doe / 365;
    var doy := doe - 365 * yoe;
    G.MonthLaidOut(doy);
    var mp := G.MonthOfDay(doy);
    FromDaysLaid(era, yoe, mp, doy - G.MonthStart(mp) + 1);
    QuotientIs(4 * era + yoe, 4, era, yoe);
    MarchForm(4 * era + yoe, mp, doy - G.MonthStart(mp) + 1);
    ToDaysClosed(FromDays(z));
  }

  lemma DateRoundTrip(d: Date)
    requires Valid(d)
    ensures FromDays(ToDays(d)) == d
  {
    hide ToDays, FromDays, Valid, G.MonthStart, G.MarchYear, G.MarchMonth, G.MarchLength;
    var y := G.MarchYear(d);
    DayOfMarchYear(d);
    ToDaysClosed(d);
    FromDaysLaid(y / 4, y % 4, G.MarchMonth(d), d.day);
  }

  lemma NextDayMarchForm(d: Date)
    requires Valid(d)
    ensures Valid(NextDay(d))
    ensures var n := NextDay(d);
      || (G.MarchYear(n) == G.MarchYear(d) && G.MarchMonth(n) == G.MarchMonth(d) && n.day == d.day + 1)
      || (G.MarchYear(n) == G.MarchYear(d) && G.MarchMonth(n) == G.MarchMonth(d) + 1 <= 11 && n.day == 1
          && d.day == G.MarchLength(G.MarchMonth(d)))
      || (G.MarchYear(n) == G.MarchYear(d) + 1 && G.MarchMonth(d) == 11 && G.MarchMonth(n) == 0 && n.day == 1
          && d.day == if G.MarchYear(n) % 4 == 0 then 29 else 28)
  {
    LeapIsMultipleOfFour(d.year);
    hide IsLeap;
  }

  /** The next calendar day is the next day number. */
  lemma NextDayIsNext(d: Date)
    requires Valid(d)
    ensures Valid(NextDay(d)) && ToDays(NextDay(d)) == ToDays(d) + 1
  {
    NextDayMarchForm(d);
    assert 0 <= G.MarchMonth(d) <= 11 && G.MonthStart(0) == 0;
    hide ToDays, G.MonthStart, Valid, G.MarchLength, NextDay, G.MarchYear, G.MarchMonth;
    ToDaysClosed(d);
    ToDaysClosed(NextDay(d));
    G.MonthFound(G.MarchMonth(d), 1);
    NextQuotient(G.MarchYear(d), 4);
  }

  /** For the same year, month and day the Julian count is ahead by the leap days the Gregorian calendar
      has dropped, two of them before the calendars' common origin. */
  lemma AheadOfGregorian(d: Date)
    ensures var y := d.year - (if d.month <= 2 then 1 else 0);
      ToDays(d) - G.ToDays(d) == y / 100 - y / 400 - 2
  {
    hide ToDays, G.ToDays, G.MonthStart;
    ToDaysClosed(d);
    G.ToDaysClosed(d);
  }

  lemma DaysWithinMonth(y: int, m: int, d: int)
    ensures ToDays(Date(y, m, d)) == ToDays(Date(y, m, 1)) + d - 1
  {
    hide Quot, G.MonthStart;
  }

  /** From the first of a month to the first of the next it is as many days as the calendar says. */
  lemma MonthLengths(y: int, m: int)
    requires 1 <= m <= 12
    ensures ToDays(if m == 12 then Date(y + 1, 1, 1) else Date(y, m + 1, 1)) - ToDays(Date(y, m, 1)) ==
            if m == 2 && y % 4 == 0 then 29 else [31, 28, 31, 30, 31, 30, 31, 31, 30, 31, 30, 31][m - 1]
  {
    LeapIsMultipleOfFour(y);
    hide ToDays, IsLeap;
    var last := Date(y, m, LastDay(y, m));
    NextDayIsNext(last);
    DaysWithinMonth(y, m, last.day);
  }
}
