/** Weekdays, the last given weekday of a month, and ISO 8601 week dates. */
module IsoWeek {
  import opened Dates
  import G = Gregorian

  // ----- weekdays, 0 for Sunday to 6 for Saturday -----

  const TWO_32 := 0x1_0000_0000

  /** Days from 1970-01-01, a Thursday, to a weekday. */
  function Weekday(z: int): int {
    (z + 4) % 7
  }

  /** The source's computation in 32-bit unsigned arithmetic. */
  function WeekdayUnsigned(z: int): int {
    var u := z % TWO_32;
    if z >= -4 then (u + 4) % TWO_32 % 7 else u % 7
  }

  /** It is the floored remainder on every `int`: before 1969-12-28 the wrap adds 4 modulo 7 by itself. */
  lemma UnsignedWeekdayAgrees(z: int)
    requires -0x8000_0000 <= z < 0x8000_0000
    ensures WeekdayUnsigned(z) == Weekday(z)
  {
    if z < 0 {
      QuotientIs(z, TWO_32, -1, z + TWO_32);
      if z >= -4 {
        QuotientIs(z + TWO_32 + 4, TWO_32, 1, z + 4);
      } else {
        QuotientIs(z + TWO_32, 7, (z + 4) / 7 + 613566756, (z + 4) % 7);
      }
    }
  }

  /** ISO numbering: 1 for Monday to 7 for Sunday, computed with truncated remainders. */
  function IsoWeekday(z: int): int {
    var w := if z >= -4 then Rem(z + 4, 7) else Rem(z + 5, 7) + 6;
    if w != 0 then w else 7
  }

  lemma IsoWeekdayAgrees(z: int)
    ensures IsoWeekday(z) == if Weekday(z) == 0 then 7 else Weekday(z)
    ensures IsoWeekday(z) == (z + 3) % 7 + 1
  {
    if z < -4 {
      var q, r := (-(z + 5)) / 7, (-(z + 5)) % 7;
      QuotientIs(z + 4, 7, -q - 1, 6 - r);
      if r == 6 {
        QuotientIs(z + 3, 7, -q - 2, 6);
      } else {
        QuotientIs(z + 3, 7, -q - 1, 5 - r);
      }
    }
  }

  /** 1970-01-01 is a Thursday and weekdays follow each other, in both numberings. */
  lemma WeekdaysFollow(z: int)
    ensures Weekday(G.ToDays(Date(1970, 1, 1))) == 4 && IsoWeekday(G.ToDays(Date(1970, 1, 1))) == 4
    ensures Weekday(z + 1) == if Weekday(z) == 6 then 0 else Weekday(z) + 1
    ensures IsoWeekday(z + 1) == if IsoWeekday(z) == 7 then 1 else IsoWeekday(z) + 1
  {
    G.Epoch();
    IsoWeekdayAgrees(0);
    IsoWeekdayAgrees(z);
    IsoWeekdayAgrees(z + 1);
    hide IsoWeekday, G.ToDays;
  }

  /** Days from weekday `y` forward to weekday `x`. */
  function WeekdayMinus(x: int, y: int): int {
    var wdu := x - y;
    var wk := Quot(if wdu >= 0 then wdu else wdu - 6, 7);
    wdu - wk * 7
  }

  /** The ISO header's version, on unsigned numbers. */
  function IsoWeekdayMinus(x: int, y: int): int {
    var diff := (x - y) % TWO_32;
    if diff <= 6 then diff else (diff + 7) % TWO_32
  }

  lemma WeekdayMinusFloors(x: int, y: int)
    requires 0 <= x <= 7 && 0 <= y <= 7
    ensures WeekdayMinus(x, y) == (x - y) % 7
    ensures 1 <= x && 1 <= y ==> IsoWeekdayMinus(x, y) == (x - y) % 7
  {
  }

  // ----- the last weekday of a month -----

  /** `year_month_weekday_last` to days. */
  function LastWeekday(y: int, m: int, wd: int): int {
    var d := G.ToDays(Date(y, m, G.LastDay(y, m)));
    d - WeekdayMinus(Weekday(d), wd)
  }

  lemma WithinMonth(y: int, m: int, back: int)
    requires 1 <= m <= 12 && 0 <= back < G.LastDay(y, m)
    ensures G.ToDays(Date(y, m, G.LastDay(y, m))) - back == G.ToDays(Date(y, m, G.LastDay(y, m) - back))
  {
    hide G.MonthStart, G.DaysToYear, Quot, G.LastDay;
  }

  /** It has the weekday asked for, lies in the month, and a week later the month is over. */
  lemma LastWeekdayIsLast(y: int, m: int, wd: int)
    requires 1 <= m <= 12 && 0 <= wd <= 6
    ensures var d := LastWeekday(y, m, wd);
      Weekday(d) == wd
      && G.FromDays(d).year == y && G.FromDays(d).month == m
      && G.FromDays(d).day + 7 > G.LastDay(y, m)
  {
    hide G.ToDays, G.FromDays, WeekdayMinus;
    var last := G.LastDay(y, m);
    var end := G.ToDays(Date(y, m, last));
    WeekdayMinusFloors(Weekday(end), wd);
    var back := (Weekday(end) - wd) % 7;
    WithinMonth(y, m, back);
    G.DateRoundTrip(Date(y, m, last - back));
  }

  // ----- week dates -----

  datatype WeekDate = WeekDate(year: int, weeknum: int, weekday: int)

  const MON := 1
  const THU := 4

  function LastThursdayOfDecember(y: int): int {
    LastWeekday(y, 12, THU)
  }

  function LastWeek(y: int): int {
    var s0 := LastThursdayOfDecember(y - 1);
    var s1 := LastThursdayOfDecember(y);
    Quot(s1 - s0, 7)
  }

  /** The source's `ok()`, years unbounded. */
  predicate Ok(d: WeekDate) {
    1 <= d.weekday <= 7 && 1 <= d.weeknum <= LastWeek(d.year)
  }

  function ToDays(d: WeekDate): int {
    LastThursdayOfDecember(d.year - 1) + WeekdayMinus(MON, THU) + 7 * (d.weeknum - 1) + IsoWeekdayMinus(d.weekday, MON)
  }

  function FromDays(dp: int): WeekDate {
    var wd := IsoWeekday(dp);
    var y := G.FromDays(dp + 3).year;
    var start := LastThursdayOfDecember(y - 1) + IsoWeekdayMinus(MON, THU);
    if dp < start then
      var y' := y - 1;
      var start' := LastThursdayOfDecember(y' - 1) + IsoWeekdayMinus(MON, THU);
      WeekDate(y', Quot(dp - start', 7) + 1, wd)
    else
      WeekDate(y, Quot(dp - start, 7) + 1, wd)
  }

  // ----- where week years start -----

  function NewYear(y: int): int {
    G.ToDays(Date(y, 1, 1))
  }

  /** The Monday of week 1. */
  function WeekYearStart(y: int): int {
    LastThursdayOfDecember(y - 1) + 4
  }

  lemma WeekYearStartNearNewYear(y: int)
    ensures NewYear(y) - 3 <= WeekYearStart(y) <= NewYear(y) + 3
    ensures WeekYearStart(y) % 7 == 4
  {
    hide G.ToDays, WeekdayMinus;
    var eve := G.ToDays(Date(y - 1, 12, 31));
    G.NextDayIsNext(Date(y - 1, 12, 31));
    WeekdayMinusFloors(Weekday(eve), THU);
  }

  lemma YearLength(y: int)
    ensures 365 <= NewYear(y + 1) - NewYear(y) <= 366
  {
    hide G.ToDays, G.DaysBeforeMarch, G.IsLeap;
    G.ToDaysClosed(Date(y, 1, 1));
    G.ToDaysClosed(Date(y + 1, 1, 1));
    G.MarchYearLength(y - 1);
  }

  lemma WeekYearLength(y: int)
    ensures WeekYearStart(y + 1) - WeekYearStart(y) in {364, 371}
  {
    hide LastThursdayOfDecember, G.ToDays, WeekYearStart, NewYear;
    WeekYearStartNearNewYear(y);
    WeekYearStartNearNewYear(y + 1);
    YearLength(y);
  }

  /** The last week of every year is week 52 or week 53. */
  lemma LastWeekIs52Or53(y: int)
    ensures LastWeek(y) == (WeekYearStart(y + 1) - WeekYearStart(y)) / 7
    ensures LastWeek(y) in {52, 53}
  {
    hide LastThursdayOfDecember;
    WeekYearLength(y);
  }

  /** A day belongs to the Gregorian year whose new year is the last one not after it. */
  lemma YearOfDay(t: int, y: int)
    ensures G.FromDays(t).year == y <==> NewYear(y) <= t < NewYear(y + 1)
  {
    hide G.ToDays, G.FromDays;
    var d := G.FromDays(t);
    G.DaysRoundTrip(t);
    G.OrderPreserved(d, Date(y, 1, 1));
    G.OrderPreserved(d, Date(y + 1, 1, 1));
  }

  lemma {:induction false} WeekYearsGrow(a: int, b: int)
    requires a <= b
    ensures WeekYearStart(a) <= WeekYearStart(b) && (a < b ==> WeekYearStart(a + 1) <= WeekYearStart(b))
    decreases b - a
  {
    hide LastThursdayOfDecember, WeekYearStart;
    if a < b {
      WeekYearsGrow(a, b - 1);
      WeekYearLength(b - 1);
    }
  }

  lemma StartsAsComputed(y: int)
    ensures LastThursdayOfDecember(y - 1) + IsoWeekdayMinus(MON, THU) == WeekYearStart(y)
    ensures LastThursdayOfDecember(y - 1) + WeekdayMinus(MON, THU) == WeekYearStart(y)
  {
    hide LastThursdayOfDecember;
    WeekdayMinusFloors(MON, THU);
  }

  /** The day lies in the week year of its Gregorian year three days later, or in the one before. */
  lemma WeekYearNearby(dp: int, y: int)
    requires y == G.FromDays(dp + 3).year
    ensures WeekYearStart(y - 1) <= dp < WeekYearStart(y + 1)
  {
    hide LastThursdayOfDecember, WeekYearStart, NewYear, G.FromDays;
    YearOfDay(dp + 3, y);
    WeekYearStartNearNewYear(y - 1);
    WeekYearStartNearNewYear(y);
    WeekYearStartNearNewYear(y + 1);
    YearLength(y - 1);
  }

  lemma WeekAndDay(dp: int, start: int)
    requires start % 7 == 4 && start <= dp
    ensures Quot(dp - start, 7) == (dp - start) / 7
    ensures IsoWeekday(dp) == (dp - start) % 7 + 1
  {
    hide IsoWeekday;
    IsoWeekdayAgrees(dp);
  }

  /** `FromDays` finds the week year the day lies in and counts from its start. */
  lemma FromDaysPlaced(dp: int)
    ensures var d := FromDays(dp);
      && WeekYearStart(d.year) <= dp < WeekYearStart(d.year + 1)
      && d == WeekDate(d.year, (dp - WeekYearStart(d.year)) / 7 + 1, (dp - WeekYearStart(d.year)) % 7 + 1)
  {
    hide LastThursdayOfDecember, WeekYearStart, NewYear, IsoWeekday, IsoWeekdayMinus, Quot, G.FromDays;
    var y := G.FromDays(dp + 3).year;
    WeekYearNearby(dp, y);
    var at := if dp < WeekYearStart(y) then y - 1 else y;
    StartsAsComputed(y);
    StartsAsComputed(y - 1);
    WeekYearStartNearNewYear(at);
    WeekAndDay(dp, WeekYearStart(at));
  }

  /** Every day number has an `ok()` week date that leads back to it. */
  lemma DaysRoundTrip(dp: int)
    ensures Ok(FromDays(dp)) && ToDays(FromDays(dp)) == dp
  {
    hide LastThursdayOfDecember, WeekYearStart, FromDays, IsoWeekdayMinus, WeekdayMinus, LastWeek;
    var d := FromDays(dp);
    FromDaysPlaced(dp);
    StartsAsComputed(d.year);
    LastWeekIs52Or53(d.year);
    WeekYearLength(d.year);
    WeekdayMinusFloors(d.weekday, MON);
  }

  /** `FromDays` undoes `ToDays` on every `ok()` week date. */
  lemma WeekDateRoundTrip(d: WeekDate)
    requires Ok(d)
    ensures FromDays(ToDays(d)) == d
  {
    hide LastThursdayOfDecember, WeekYearStart, FromDays, IsoWeekdayMinus, WeekdayMinus, LastWeek;
    var dp := ToDays(d);
    var back := FromDays(dp);
    FromDaysPlaced(dp);
    StartsAsComputed(d.year);
    LastWeekIs52Or53(d.year);
    WeekYearLength(d.year);
    WeekdayMinusFloors(d.weekday, MON);
    if back.year < d.year {
      WeekYearsGrow(back.year, d.year);
    } else if d.year < back.year {
      WeekYearsGrow(d.year, back.year);
    }
  }

  /** The week year is the Gregorian year of the week's Thursday. */
  lemma WeekYearIsYearOfThursday(dp: int)
    ensures var thursday := dp - (FromDays(dp).weekday - 1) + 3;
      Weekday(thursday) == THU && G.FromDays(thursday).year == FromDays(dp).year
  {
    hide LastThursdayOfDecember, WeekYearStart, FromDays, NewYear, G.FromDays;
    var d := FromDays(dp);
    FromDaysPlaced(dp);
    WeekYearStartNearNewYear(d.year);
    WeekYearStartNearNewYear(d.year + 1);
    WeekYearLength(d.year);
    YearOfDay(dp - (d.weekday - 1) + 3, d.year);
  }
}
