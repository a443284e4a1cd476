/** The tabular Islamic calendar: eras of 30 years with 11 leap years. */
module Islamic {
  import opened Dates
  import J = Julian

  function YearOfEra(y: int): int {
    var y0 := y - 1;
    y0 - Quot(if y0 >= 0 then y0 else y0 - 29, 30) * 30
  }

  /** The source's 11-entry table. */
  function IsLeap(y: int): bool {
    YearOfEra(y) in {1, 4, 6, 9, 12, 15, 17, 20, 23, 25, 28}
  }

  function LastDay(y: int, m: int): int {
    if m == 12 && IsLeap(y) then 30 else if m % 2 == 1 then 30 else 29
  }

  predicate Valid(d: Date) {
    1 <= d.month <= 12 && 1 <= d.day <= LastDay(d.year, d.month)
  }

  /** The leap days before year `yoe` of an era. */
  function LeapDays(yoe: int): int {
    (11 * (yoe + 1) + 3) / 30
  }

  /** The days before month `m` of a year. */
  function MonthStart(m: int): int {
    29 * (m - 1) + m / 2
  }

  function ToDays(d: Date): int {
    var y := d.year - 1;
    var era := Quot(if y >= 0 then y else y - 29, 30);
    var yoe := y - era * 30;
    var doy := MonthStart(d.month) + d.day - 1;
    var doe := yoe * 354 + LeapDays(yoe) + doy;
    era * 10631 + doe - 492148
  }

  function YearOfDay(doe: int): int {
    (30 * doe + 10646) / 10631 - 1
  }

  function MonthOfDay(doy: int): int {
    (11 * doy + 330) / 325
  }

  function FromDays(days: int): Date {
    var z := days + 492148;
    var era := Quot(if z >= 0 then z else z - 10630, 10631);
    var doe := z - era * 10631;
    var yoe := YearOfDay(doe);
    var y := yoe + era * 30 + 1;
    var doy := doe - (yoe * 354 + LeapDays(yoe));
    var m := MonthOfDay(doy);
    var d := doy - MonthStart(m) + 1;
    Date(y, m, d)
  }

  function NextDay(d: Date): Date {
    if d.day < LastDay(d.year, d.month) then d.(day := d.day + 1)
    else if d.month < 12 then Date(d.year, d.month + 1, 1)
    else Date(d.year + 1, 1, 1)
  }

  predicate LeapPosition(yoe: int) {
    yoe in {1, 4, 6, 9, 12, 15, 17, 20, 23, 25, 28}
  }

  /** The table marks exactly the years after which the closed form gains a day. */
  lemma TableIsClosedForm(yoe: int)
    requires 0 <= yoe < 30
    ensures LeapDays(yoe + 1) == LeapDays(yoe) + if LeapPosition(yoe) then 1 else 0
    ensures LeapDays(0) == 0 && LeapDays(30) == 11
  {
    if yoe < 10 {
      FirstYears(yoe);
    } else if yoe < 20 {
      MiddleYears(yoe);
    } else {
      LastYears(yoe);
    }
    assert LeapDays(0) == 0 && LeapDays(30) == 11;
    hide LeapDays, LeapPosition;
  }

  lemma FirstYears(yoe: int)
    requires 0 <= yoe < 10
    ensures LeapDays(yoe + 1) == LeapDays(yoe) + if LeapPosition(yoe) then 1 else 0
  {
  }

  lemma MiddleYears(yoe: int)
    requires 10 <= yoe < 20
    ensures LeapDays(yoe + 1) == LeapDays(yoe) + if LeapPosition(yoe) then 1 else 0
  {
  }

  lemma LastYears(yoe: int)
    requires 20 <= yoe < 30
    ensures LeapDays(yoe + 1) == LeapDays(yoe) + if LeapPosition(yoe) then 1 else 0
  {
  }

  lemma YearInEra(era: int, yoe: int)
    requires 0 <= yoe < 30
    ensures YearOfEra(30 * era + yoe + 1) == yoe
    ensures var y := 30 * era + yoe; Quot(if y >= 0 then y else y - 29, 30) == era
    ensures IsLeap(30 * era + yoe + 1) <==> LeapPosition(yoe)
  {
    EraFloors(30 * era + yoe, 30, era, yoe);
  }

  /** A year is leap exactly when the closed form says its era gains a day over it. */
  lemma LeapTableAgrees(y: int)
    ensures 0 <= YearOfEra(y) < 30
    ensures IsLeap(y) <==> LeapDays(YearOfEra(y) + 1) == LeapDays(YearOfEra(y)) + 1
  {
    hide LeapDays;
    YearInEra((y - 1) / 30, (y - 1) % 30);
    TableIsClosedForm((y - 1) % 30);
  }

  lemma YearFound(yoe: int, doy: int)
    requires 0 <= yoe < 30 && 0 <= doy < if LeapPosition(yoe) then 355 else 354
    ensures var doe := yoe * 354 + LeapDays(yoe) + doy; 0 <= doe < 10631 && YearOfDay(doe) == yoe
  {
    TableIsClosedForm(yoe);
    assert 30 * LeapDays(yoe) <= 11 * (yoe + 1) + 3 < 30 * LeapDays(yoe) + 30;
    assert LeapPosition(yoe) ==> 30 * LeapDays(yoe) + 30 <= 11 * (yoe + 2) + 3;
    hide LeapDays, LeapPosition;
  }

  lemma YearOfDayBounds(doe: int)
    requires 0 <= doe < 10631
    ensures var yoe := YearOfDay(doe);
      0 <= yoe < 30 && 0 <= doe - (yoe * 354 + LeapDays(yoe)) < if LeapPosition(yoe) then 355 else 354
  {
    var yoe := YearOfDay(doe);
    TableIsClosedForm(yoe);
    assert 30 * LeapDays(yoe) <= 11 * (yoe + 1) + 3 < 30 * LeapDays(yoe) + 30;
    assert 30 * LeapDays(yoe + 1) <= 11 * (yoe + 2) + 3 < 30 * LeapDays(yoe + 1) + 30;
    hide LeapDays, LeapPosition;
  }

  function MonthLength(m: int): int {
    if m == 12 || m % 2 == 1 then 30 else 29
  }

  lemma MonthFound(m: int, d: int)
    requires 1 <= m <= 12 && 1 <= d <= MonthLength(m)
    ensures 0 <= MonthStart(m) + d - 1 <= 354 && MonthOfDay(MonthStart(m) + d - 1) == m
    ensures m < 12 ==> MonthStart(m + 1) == MonthStart(m) + MonthLength(m)
    ensures MonthStart(m) + d - 1 == 354 ==> m == 12 && d == 30
  {
  }

  lemma MonthLaidOut(doy: int)
    requires 0 <= doy <= 354
    ensures var m := MonthOfDay(doy); 1 <= m <= 12 && 1 <= doy - MonthStart(m) + 1 <= MonthLength(m)
    ensures var m := MonthOfDay(doy); doy == 354 <==> m == 12 && doy - MonthStart(m) + 1 == 30
  {
  }

  lemma ValidForm(d: Date)
    ensures Valid(d) <==>
            1 <= d.month <= 12 && 1 <= d.day <= MonthLength(d.month) && (d.month == 12 && d.day == 30 ==> IsLeap(d.year))
  {
    hide IsLeap;
  }

  lemma DayOfYear(d: Date)
    requires Valid(d)
    ensures 1 <= d.month <= 12 && 1 <= d.day <= MonthLength(d.month)
    ensures 0 <= MonthStart(d.month) + d.day - 1 < if IsLeap(d.year) then 355 else 354
  {
    ValidForm(d);
    hide IsLeap, MonthOfDay, MonthStart;
    MonthFound(d.month, d.day);
  }

  lemma ToDaysLaid(d: Date, era: int, yoe: int)
    requires 0 <= yoe < 30 && d.year == 30 * era + yoe + 1
    ensures ToDays(d) == era * 10631 + yoe * 354 + LeapDays(yoe) + MonthStart(d.month) + d.day - 1 - 492148
  {
    hide Quot, LeapDays, MonthStart, IsLeap;
    YearInEra(era, yoe);
  }

  lemma FromDaysLaid(era: int, yoe: int, m: int, d: int)
    requires 0 <= yoe < 30 && 1 <= m <= 12 && 1 <= d <= MonthLength(m)
    requires MonthStart(m) + d - 1 < if LeapPosition(yoe) then 355 else 354
    ensures FromDays(era * 10631 + yoe * 354 + LeapDays(yoe) + MonthStart(m) + d - 1 - 492148) ==
            Date(30 * era + yoe + 1, m, d)
  {
    hide Quot, LeapDays, MonthStart, YearOfDay, MonthOfDay, LeapPosition;
    var doe := yoe * 354 + LeapDays(yoe) + MonthStart(m) + d - 1;
    MonthFound(m, d);
    YearFound(yoe, MonthStart(m) + d - 1);
    EraFloors(era * 10631 + doe, 10631, era, doe);
  }

  lemma DaysRoundTrip(z: int)
    ensures Valid(FromDays(z)) && ToDays(FromDays(z)) == z
  {
    hide ToDays, FromDays, Valid, IsLeap, LeapDays, MonthStart, YearOfDay, MonthOfDay, LeapPosition, MonthLength;
    var era, doe := (z + 492148) / 10631, (z + 492148) % 10631;
    YearOfDayBounds(doe);
    var yoe := YearOfDay(doe);
    var doy := doe - (yoe * 354 + LeapDays(yoe));
    MonthLaidOut(doy);
    var m := MonthOfDay(doy);
    FromDaysLaid(era, yoe, m, doy - MonthStart(m) + 1);
    YearInEra(era, yoe);
    ValidForm(FromDays(z));
    ToDaysLaid(FromDays(z), era, yoe);
  }

  lemma DateRoundTrip(d: Date)
    requires Valid(d)
    ensures FromDays(ToDays(d)) == d
  {
    hide ToDays, FromDays, Valid, IsLeap, LeapDays, MonthStart, LeapPosition, MonthLength;
    var era, yoe := (d.year - 1) / 30, (d.year - 1) % 30;
    DayOfYear(d);
    YearInEra(era, yoe);
    ToDaysLaid(d, era, yoe);
    FromDaysLaid(era, yoe, d.month, d.day);
  }

  /** The distance between consecutive new years is 355 days exactly in leap years. */
  lemma YearLength(y: int)
    ensures ToDays(Date(y + 1, 1, 1)) - ToDays(Date(y, 1, 1)) == if IsLeap(y) then 355 else 354
  {
    hide ToDays, IsLeap, LeapPosition;
    var era, yoe := (y - 1) / 30, (y - 1) % 30;
    YearInEra(era, yoe);
    TableIsClosedForm(yoe);
    hide LeapDays;
    ToDaysLaid(Date(y, 1, 1), era, yoe);
    if yoe == 29 {
      ToDaysLaid(Date(y + 1, 1, 1), era + 1, 0);
    } else {
      ToDaysLaid(Date(y + 1, 1, 1), era, yoe + 1);
    }
  }

  /** The next calendar day is the next day number. */
  lemma NextDayIsNext(d: Date)
    requires Valid(d)
    ensures Valid(NextDay(d)) && ToDays(NextDay(d)) == ToDays(d) + 1
  {
    hide ToDays, IsLeap, LeapDays, MonthStart, YearOfEra;
    var era, yoe := (d.year - 1) / 30, (d.year - 1) % 30;
    MonthFound(d.month, 1);
    ToDaysLaid(d, era, yoe);
    if d.day == LastDay(d.year, d.month) && d.month == 12 {
      YearLength(d.year);
      ToDaysLaid(Date(d.year, 1, 1), era, yoe);
      assert MonthStart(1) == 0 && MonthStart(12) == 325 by { MonthStarts(); }
    } else {
      ToDaysLaid(NextDay(d), era, yoe);
    }
  }

  lemma MonthStarts()
    ensures MonthStart(1) == 0 && MonthStart(12) == 325
  {
  }

  /** The calendar starts on 16 July 622 of the Julian calendar; with `NextDayIsNext` this pins every day number. */
  lemma Epoch()
    ensures ToDays(Date(1, 1, 1)) == J.ToDays(Date(622, 7, 16))
  {
  }

  lemma DaysWithinMonth(y: int, m: int, d: int)
    ensures ToDays(Date(y, m, d)) == ToDays(Date(y, m, 1)) + d - 1
  {
    hide Quot, LeapDays, MonthStart;
  }

  lemma LeapPlaces(y: int)
    ensures IsLeap(y) <==> (y - 1) % 30 in {1, 4, 6, 9, 12, 15, 17, 20, 23, 25, 28}
  {
    hide IsLeap;
    YearInEra((y - 1) / 30, (y - 1) % 30);
  }

  lemma LastDayIs(y: int, m: int)
    requires 1 <= m <= 12
    ensures LastDay(y, m) == if m == 12 && IsLeap(y) then 30 else [30, 29, 30, 29, 30, 29, 30, 29, 30, 29, 30, 29][m - 1]
    ensures 1 <= LastDay(y, m)
    ensures NextDay(Date(y, m, LastDay(y, m))) == if m == 12 then Date(y + 1, 1, 1) else Date(y, m + 1, 1)
  {
    hide IsLeap;
  }

  /** From the first of a month to the first of the next it is as many days as the calendar says: 30 and 29 in
      turn, and 30 for the last month of the 11 leap years of an era of 30. */
  lemma MonthLengths(y: int, m: int)
    requires 1 <= m <= 12
    ensures ToDays(if m == 12 then Date(y + 1, 1, 1) else Date(y, m + 1, 1)) - ToDays(Date(y, m, 1)) ==
            if m == 12 && (y - 1) % 30 in {1, 4, 6, 9, 12, 15, 17, 20, 23, 25, 28} then 30
            else [30, 29, 30, 29, 30, 29, 30, 29, 30, 29, 30, 29][m - 1]
  {
    hide ToDays, IsLeap;
    var last := Date(y, m, LastDay(y, m));
    LeapPlaces(y);
    NextDayIsNext(last);
    DaysWithinMonth(y, m, last.day);
    LastDayIs(y, m);
    hide LastDay, NextDay, Valid;
  }
}
