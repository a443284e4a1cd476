/** The Solar Hijri calendar: eras of 2820 years, each 22 periods of 128 years and 4 more years; a period is
    a cycle of 29 years and three of 33; in a cycle, after its first year, every fourth year is leap. */
module SolarHijri {
  import opened Dates
  import G = Gregorian

  const EPOCH := 2121446
  const DAYS_IN_ERA := 1029983
  const YEARS_IN_ERA := 2820
  const UNIX_TIME_SHIFT := 2440588
  const DAYS_IN_FIRST_CYCLE := 10592
  const DAYS_IN_OTHER_CYCLES := 12053
  const DAYS_IN_PERIOD := 46751

  function EraOfYear(y0: int): int {
    Quot(if y0 >= 0 then y0 else y0 - YEARS_IN_ERA + 1, YEARS_IN_ERA)
  }

  function IsLeap(year: int): bool {
    var y := year - 475;
    var yoe := y - EraOfYear(y) * YEARS_IN_ERA;
    var yoc := if yoe < 22 * 128 then (if yoe % 128 < 29 then yoe % 128 else (yoe % 128 - 29) % 33)
               else yoe - 22 * 128 + 33;
    yoc != 0 && yoc % 4 == 0
  }

  function LastDay(y: int, m: int): int {
    if m <= 6 then 31 else if m < 12 then 30 else if IsLeap(y) then 30 else 29
  }

  predicate Valid(d: Date) {
    1 <= d.month <= 12 && 1 <= d.day <= LastDay(d.year, d.month)
  }

  // ----- the conversions -----

  function MonthStart(m: int): int {
    30 * (m - 1) + (if m > 6 then 6 else m - 1)
  }

  /** The days of the cycles before cycle `cycle` of a period. */
  function CycleStart(cycle: int): int {
    if cycle > 0 then DAYS_IN_FIRST_CYCLE + (cycle - 1) * DAYS_IN_OTHER_CYCLES else 0
  }

  /** The days of the years before year `yoc` of a cycle, by groups of four. */
  function YearStart(yoc: int): int {
    var group := if yoc < 1 then 0 else (yoc - 1) / 4;
    var yog := if yoc < 1 then -1 else (yoc - 1) % 4;
    group * 1461 + (yog + 1) * 365
  }

  /** The days of the years before year `yoe` of an era. */
  function DaysToYear(yoe: int): int {
    var period := yoe / 128;
    var yop := yoe % 128;
    var cycle := if yop < 29 then 0 else (yop - 29) / 33 + 1;
    var yoc := if yop < 29 then yop else (yop - 29) % 33;
    period * DAYS_IN_PERIOD + CycleStart(cycle) + YearStart(yoc)
  }

  function ToDays(d: Date): int {
    var y := d.year - 475;
    var era := EraOfYear(y);
    var fdoe := EPOCH + era * DAYS_IN_ERA;
    var yoe := y - era * YEARS_IN_ERA;
    var doy := MonthStart(d.month) + d.day - 1;
    var doe := fdoe + DaysToYear(yoe) + doy;
    doe - UNIX_TIME_SHIFT
  }

  /** Year of era and day of year of day `x` of an era. */
  function YearAndDay(x: int): (int, int) {
    var period := if x < 22 * DAYS_IN_PERIOD then x / DAYS_IN_PERIOD else 22;
    var dop := x % DAYS_IN_PERIOD;
    var cycle := if dop < DAYS_IN_FIRST_CYCLE then 0 else (dop - DAYS_IN_FIRST_CYCLE) / DAYS_IN_OTHER_CYCLES + 1;
    var doc := if dop < DAYS_IN_FIRST_CYCLE then dop else (dop - DAYS_IN_FIRST_CYCLE) % DAYS_IN_OTHER_CYCLES;
    InCycle(x, period, cycle, doc)
  }

  /** The same once the period, the cycle and the day of the cycle are known. */
  function InCycle(x: int, period: int, cycle: int, doc: int): (int, int) {
    var group := if doc < 365 && period != 22 then -1 else ((if doc < 365 then 365 else doc) - 365) / 1461;
    var yog := if doc < 365 && period != 22 then -1
               else (if period != 22 then (doc - 365) % 1461 else doc) / 365;
    var yog4 := if yog == 4 then 3 else yog;
    var yoc := if group == -1 then 0 else (if period != 22 then 1 else 0) + group * 4 + yog4;
    var rest := x - period * DAYS_IN_PERIOD - CycleStart(cycle) - (group * 1461 + (yog4 + 1) * 365);
    var doy := if group == -1 then doc
               else if period != 22 then (if Rem(yoc - 1, 4) == 0 then (if group >= 0 then rest else 365) else rest)
               else if yog == 4 then 365 else x - period * DAYS_IN_PERIOD - yog * 365;
    var yoe := if period != 22 then period * 128 + (if cycle > 0 then 29 + (cycle - 1) * 33 else 0) + yoc
               else 22 * 128 + yog4;
    (yoe, doy)
  }

  function MonthOfDay(doy: int): int {
    if doy < 186 then doy / 31 + 1 else (doy - 186) / 30 + 7
  }

  function FromDays(days: int): Date {
    var z := days + UNIX_TIME_SHIFT;
    var delta := z - EPOCH;
    var era := Quot(if delta >= 0 then delta else delta - DAYS_IN_ERA + 1, DAYS_IN_ERA);
    var fdoe := EPOCH + era * DAYS_IN_ERA;
    var (yoe, doy) := YearAndDay(z - fdoe);
    var y := yoe + 475 + era * YEARS_IN_ERA;
    var m := MonthOfDay(doy);
    var d := doy - (MonthStart(m) - 1);
    Date(y, m, d)
  }

  function NextDay(d: Date): Date {
    if d.day < LastDay(d.year, d.month) then d.(day := d.day + 1)
    else if d.month < 12 then Date(d.year, d.month + 1, 1)
    else Date(d.year + 1, 1, 1)
  }

  // ----- laying out an era without division -----

  /** A period, a cycle of it, and a year of the cycle; the 23rd period is cut off after 4 years. */
  ghost predicate LaidYear(p: int, c: int, yoc: int) {
    if p == 22 then c == 0 && 0 <= yoc < 4
    else 0 <= p < 22 && 0 <= c < 4 && 0 <= yoc < if c == 0 then 29 else 33
  }

  function FirstYear(p: int, c: int): int {
    128 * p + if c > 0 then 29 + (c - 1) * 33 else 0
  }

  predicate LeapInCycle(p: int, yoc: int) {
    if p == 22 then yoc == 3 else yoc != 0 && yoc % 4 == 0
  }

  function LengthInCycle(p: int, yoc: int): int {
    if LeapInCycle(p, yoc) then 366 else 365
  }

  lemma SplitYear(yoe: int) returns (p: int, c: int, yoc: int)
    requires 0 <= yoe < YEARS_IN_ERA
    ensures LaidYear(p, c, yoc) && yoe == FirstYear(p, c) + yoc
  {
    p := yoe / 128;
    var yop := yoe % 128;
    c := if yop < 29 then 0 else (yop - 29) / 33 + 1;
    yoc := if yop < 29 then yop else (yop - 29) % 33;
  }

  lemma YearSplits(p: int, c: int, yoc: int)
    requires LaidYear(p, c, yoc)
    ensures var yoe := FirstYear(p, c) + yoc;
      0 <= yoe < YEARS_IN_ERA && yoe / 128 == p
      && (if yoe % 128 < 29 then c == 0 && yoe % 128 == yoc else c == (yoe % 128 - 29) / 33 + 1 && (yoe % 128 - 29) % 33 == yoc)
  {
    var yop := if c > 0 then 29 + (c - 1) * 33 + yoc else yoc;
    QuotientIs(FirstYear(p, c) + yoc, 128, p, yop);
    if c > 0 {
      QuotientIs(yop - 29, 33, c - 1, yoc);
    }
  }

  lemma DaysToYearLaid(p: int, c: int, yoc: int)
    requires LaidYear(p, c, yoc)
    ensures DaysToYear(FirstYear(p, c) + yoc) == p * DAYS_IN_PERIOD + CycleStart(c) + YearStart(yoc)
  {
    hide CycleStart, YearStart, FirstYear;
    YearSplits(p, c, yoc);
  }

  lemma LeapLaid(era: int, p: int, c: int, yoc: int)
    requires LaidYear(p, c, yoc)
    ensures var y := era * YEARS_IN_ERA + FirstYear(p, c) + yoc;
      EraOfYear(y) == era && (IsLeap(y + 475) <==> LeapInCycle(p, yoc))
  {
    var yoe := FirstYear(p, c) + yoc;
    YearSplits(p, c, yoc);
    assert p == 22 ==> yoe - 22 * 128 + 33 == yoc + 33;
    assert p < 22 ==> yoe < 22 * 128;
    assert p == 22 ==> yoe >= 22 * 128;
    hide Quot, FirstYear;
    EraFloors(era * YEARS_IN_ERA + yoe, YEARS_IN_ERA, era, yoe);
  }

  /** Within a cycle a year is followed after its length by the next, and cycles end where the next begin. */
  lemma YearStartStep(yoc: int)
    requires 0 <= yoc < 33
    ensures YearStart(yoc + 1) == YearStart(yoc) + LengthInCycle(0, yoc)
    ensures 365 * yoc <= YearStart(yoc) <= 366 * yoc
    ensures YearStart(0) == 0 && YearStart(29) == DAYS_IN_FIRST_CYCLE && YearStart(33) == DAYS_IN_OTHER_CYCLES
  {
  }

  // ----- the year found for a day -----

  lemma CycleFound(p: int, c: int, doc: int)
    requires 0 <= p < 22 && 0 <= c < 4
    requires 0 <= doc < if c == 0 then DAYS_IN_FIRST_CYCLE else DAYS_IN_OTHER_CYCLES
    ensures var x := p * DAYS_IN_PERIOD + CycleStart(c) + doc;
      var dop := x % DAYS_IN_PERIOD;
      && 0 <= x < 22 * DAYS_IN_PERIOD && x / DAYS_IN_PERIOD == p && dop == CycleStart(c) + doc
      && (if dop < DAYS_IN_FIRST_CYCLE then c == 0
          else c == (dop - DAYS_IN_FIRST_CYCLE) / DAYS_IN_OTHER_CYCLES + 1
               && (dop - DAYS_IN_FIRST_CYCLE) % DAYS_IN_OTHER_CYCLES == doc)
    ensures c == 0 ==> CycleStart(c) == 0
  {
    QuotientIs(p * DAYS_IN_PERIOD + CycleStart(c) + doc, DAYS_IN_PERIOD, p, CycleStart(c) + doc);
    if c > 0 {
      QuotientIs(CycleStart(c) + doc - DAYS_IN_FIRST_CYCLE, DAYS_IN_OTHER_CYCLES, c - 1, doc);
    }
  }

  lemma FirstYearOfCycleFound(p: int, c: int, doy: int)
    requires LaidYear(p, c, 0) && p < 22 && 0 <= doy < 365
    ensures YearAndDay(p * DAYS_IN_PERIOD + CycleStart(c) + doy) == (FirstYear(p, c), doy)
  {
    CycleFound(p, c, doy);
    hide CycleStart, Rem;
  }

  lemma GroupFound(g: int, j: int, doy: int)
    requires 0 <= g && 0 <= j < 4 && 0 <= doy < if j == 3 then 366 else 365
    ensures var after := g * 1461 + j * 365 + doy;
      after / 1461 == g && after % 1461 / 365 == if doy == 365 then 4 else j
  {
    QuotientIs(g * 1461 + j * 365 + doy, 1461, g, j * 365 + doy);
    if doy < 365 {
      QuotientIs(j * 365 + doy, 365, j, doy);
    }
  }

  /** Day `doy` of year `j` of group `g`, both counted after the cycle's first year. */
  lemma GroupYearInCycle(x: int, p: int, c: int, g: int, j: int, doy: int)
    requires p < 22 && 0 <= g && 0 <= j < 4 && 0 <= doy < if j == 3 then 366 else 365
    requires x == p * DAYS_IN_PERIOD + CycleStart(c) + g * 1461 + (j + 1) * 365 + doy
    ensures InCycle(x, p, c, g * 1461 + (j + 1) * 365 + doy) == (FirstYear(p, c) + 1 + 4 * g + j, doy)
  {
    assert g * 1461 + (j + 1) * 365 + doy - 365 == g * 1461 + j * 365 + doy;
    GroupFound(g, j, doy);
    hide CycleStart, Rem;
  }

  lemma GroupYearFound(p: int, c: int, g: int, j: int, doy: int)
    requires LaidYear(p, c, 1 + 4 * g + j) && p < 22 && 0 <= g && 0 <= j < 4
    requires 0 <= doy < if j == 3 then 366 else 365
    ensures YearAndDay(p * DAYS_IN_PERIOD + CycleStart(c) + g * 1461 + (j + 1) * 365 + doy) ==
            (FirstYear(p, c) + 1 + 4 * g + j, doy)
  {
    hide InCycle, FirstYear, CycleStart;
    var doc := g * 1461 + (j + 1) * 365 + doy;
    assert 365 <= doc < if c == 0 then DAYS_IN_FIRST_CYCLE else DAYS_IN_OTHER_CYCLES;
    CycleFound(p, c, doc);
    GroupYearInCycle(p * DAYS_IN_PERIOD + CycleStart(c) + doc, p, c, g, j, doy);
  }

  lemma LastPeriodFound(yoc: int, doy: int)
    requires 0 <= yoc < 4 && 0 <= doy < if yoc == 3 then 366 else 365
    ensures YearAndDay(22 * DAYS_IN_PERIOD + yoc * 365 + doy) == (22 * 128 + yoc, doy)
  {
    var dop := yoc * 365 + doy;
    QuotientIs(22 * DAYS_IN_PERIOD + dop, DAYS_IN_PERIOD, 22, dop);
    if doy < 365 {
      QuotientIs(dop, 365, yoc, doy);
    }
  }

  lemma YearFound(p: int, c: int, yoc: int, doy: int)
    requires LaidYear(p, c, yoc) && 0 <= doy < LengthInCycle(p, yoc)
    ensures YearAndDay(p * DAYS_IN_PERIOD + CycleStart(c) + YearStart(yoc) + doy) == (FirstYear(p, c) + yoc, doy)
  {
    hide YearAndDay, CycleStart, FirstYear;
    if p == 22 {
      assert CycleStart(0) == 0 && FirstYear(22, 0) == 22 * 128 by { LastPeriodStart(); }
      LastPeriodFound(yoc, doy);
    } else if yoc == 0 {
      FirstYearOfCycleFound(p, c, doy);
    } else {
      GroupYearFound(p, c, (yoc - 1) / 4, (yoc - 1) % 4, doy);
    }
  }

  lemma LastPeriodStart()
    ensures CycleStart(0) == 0 && FirstYear(22, 0) == 22 * 128
  {
  }

  /** Every day of an era lies in some year. */
  lemma LayOut(x: int) returns (p: int, c: int, yoc: int, doy: int)
    requires 0 <= x < DAYS_IN_ERA
    ensures LaidYear(p, c, yoc) && 0 <= doy < LengthInCycle(p, yoc)
    ensures x == p * DAYS_IN_PERIOD + CycleStart(c) + YearStart(yoc) + doy
  {
    p := if x < 22 * DAYS_IN_PERIOD then x / DAYS_IN_PERIOD else 22;
    var dop := x - p * DAYS_IN_PERIOD;
    if p == 22 {
      c := 0;
      yoc := if dop == 1460 then 3 else dop / 365;
      doy := dop - yoc * 365;
    } else {
      c := if dop < DAYS_IN_FIRST_CYCLE then 0 else (dop - DAYS_IN_FIRST_CYCLE) / DAYS_IN_OTHER_CYCLES + 1;
      yoc, doy := LayOutCycle(c, dop - CycleStart(c));
    }
  }

  lemma LayOutCycle(c: int, doc: int) returns (yoc: int, doy: int)
    requires 0 <= doc < if c == 0 then DAYS_IN_FIRST_CYCLE else DAYS_IN_OTHER_CYCLES
    ensures 0 <= yoc < if c == 0 then 29 else 33
    ensures 0 <= doy < LengthInCycle(0, yoc) && doc == YearStart(yoc) + doy
  {
    if doc < 365 {
      yoc, doy := 0, doc;
    } else {
      var g, r := (doc - 365) / 1461, (doc - 365) % 1461;
      var j := if r == 1460 then 3 else r / 365;
      yoc, doy := 1 + 4 * g + j, r - j * 365;
      QuotientIs(yoc - 1, 4, g, j);
      QuotientIs(yoc, 4, if j == 3 then g + 1 else g, if j == 3 then 0 else j + 1);
    }
  }

  // ----- months -----

  function MonthLength(m: int): int {
    if m <= 6 then 31 else 30
  }

  lemma MonthFound(m: int, d: int)
    requires 1 <= m <= 12 && 1 <= d <= MonthLength(m)
    ensures 0 <= MonthStart(m) + d - 1 <= 365 && MonthOfDay(MonthStart(m) + d - 1) == m
    ensures m < 12 ==> MonthStart(m + 1) == MonthStart(m) + MonthLength(m)
    ensures MonthStart(m) + d - 1 == 365 ==> m == 12 && d == 30
  {
  }

  lemma MonthLaidOut(doy: int)
    requires 0 <= doy <= 365
    ensures var m := MonthOfDay(doy); 1 <= m <= 12 && 1 <= doy - MonthStart(m) + 1 <= MonthLength(m)
    ensures var m := MonthOfDay(doy); doy == 365 <==> m == 12 && doy - MonthStart(m) + 1 == 30
  {
  }

  lemma ValidForm(d: Date)
    ensures Valid(d) <==>
            1 <= d.month <= 12 && 1 <= d.day <= MonthLength(d.month) && (d.month == 12 && d.day == 30 ==> IsLeap(d.year))
  {
    hide IsLeap;
  }

  lemma DayOfYear(d: Date)
    requires Valid(d)
    ensures 1 <= d.month <= 12 && 1 <= d.day <= MonthLength(d.month)
    ensures 0 <= MonthStart(d.month) + d.day - 1 < if IsLeap(d.year) then 366 else 365
  {
    ValidForm(d);
    hide IsLeap, MonthOfDay, MonthStart;
    MonthFound(d.month, d.day);
  }

  // ----- the bijection -----

  lemma ToDaysLaid(d: Date, era: int, p: int, c: int, yoc: int)
    requires LaidYear(p, c, yoc) && d.year == era * YEARS_IN_ERA + FirstYear(p, c) + yoc + 475
    ensures ToDays(d) == EPOCH + era * DAYS_IN_ERA + p * DAYS_IN_PERIOD + CycleStart(c) + YearStart(yoc)
                         + MonthStart(d.month) + d.day - 1 - UNIX_TIME_SHIFT
  {
    hide EraOfYear, DaysToYear, CycleStart, YearStart, MonthStart, FirstYear, IsLeap, LeapInCycle;
    LeapLaid(era, p, c, yoc);
    DaysToYearLaid(p, c, yoc);
  }

  lemma StartWithinEra(p: int, c: int, yoc: int, doy: int)
    requires LaidYear(p, c, yoc) && 0 <= doy < LengthInCycle(p, yoc)
    ensures 0 <= p * DAYS_IN_PERIOD + CycleStart(c) + YearStart(yoc) + doy < DAYS_IN_ERA
  {
    YearStartsGrow(yoc, if c == 0 then 28 else 32);
    YearStartStep(28);
    YearStartStep(32);
  }

  lemma {:induction false} YearStartsGrow(a: int, b: int)
    requires 0 <= a <= b < 33
    ensures YearStart(a) + LengthInCycle(0, a) <= YearStart(b) + LengthInCycle(0, b)
    decreases b - a
  {
    if a < b {
      YearStartsGrow(a, b - 1);
      YearStartStep(b - 1);
    }
  }

  lemma FromDaysLaid(era: int, p: int, c: int, yoc: int, m: int, d: int)
    requires LaidYear(p, c, yoc) && 1 <= m <= 12 && 1 <= d <= MonthLength(m)
    requires 0 <= MonthStart(m) + d - 1 < LengthInCycle(p, yoc)
    ensures FromDays(EPOCH + era * DAYS_IN_ERA + p * DAYS_IN_PERIOD + CycleStart(c) + YearStart(yoc)
                     + MonthStart(m) + d - 1 - UNIX_TIME_SHIFT) ==
            Date(era * YEARS_IN_ERA + FirstYear(p, c) + yoc + 475, m, d)
  {
    hide Quot, YearAndDay, CycleStart, YearStart, MonthStart, MonthOfDay, FirstYear, LaidYear, LengthInCycle;
    var doy := MonthStart(m) + d - 1;
    var x := p * DAYS_IN_PERIOD + CycleStart(c) + YearStart(yoc) + doy;
    MonthFound(m, d);
    YearFound(p, c, yoc, doy);
    StartWithinEra(p, c, yoc, doy);
    EraFloors(era * DAYS_IN_ERA + x, DAYS_IN_ERA, era, x);
  }

  /** Every day number comes from a valid date, and from the one `FromDays` gives. */
  lemma DaysRoundTrip(z: int)
    ensures Valid(FromDays(z)) && ToDays(FromDays(z)) == z
  {
    hide FromDays, ToDays, Valid, IsLeap, CycleStart, YearStart, MonthStart, MonthOfDay, FirstYear, MonthLength, LaidYear, LeapInCycle, EraOfYear;
    var delta := z + UNIX_TIME_SHIFT - EPOCH;
    var era := delta / DAYS_IN_ERA;
    var p, c, yoc, doy := LayOut(delta % DAYS_IN_ERA);
    MonthLaidOut(doy);
    var m := MonthOfDay(doy);
    FromDaysLaid(era, p, c, yoc, m, doy - MonthStart(m) + 1);
    LeapLaid(era, p, c, yoc);
    ValidForm(FromDays(z));
    ToDaysLaid(FromDays(z), era, p, c, yoc);
  }

  /** `FromDays` undoes `ToDays` on every valid date. */
  lemma DateRoundTrip(d: Date)
    requires Valid(d)
    ensures FromDays(ToDays(d)) == d
  {
    hide FromDays, ToDays, Valid, IsLeap, CycleStart, YearStart, MonthStart, FirstYear, MonthLength, LaidYear, LeapInCycle, EraOfYear;
    var y := d.year - 475;
    var p, c, yoc := SplitYear(y % YEARS_IN_ERA);
    DayOfYear(d);
    LeapLaid(y / YEARS_IN_ERA, p, c, yoc);
    ToDaysLaid(d, y / YEARS_IN_ERA, p, c, yoc);
    FromDaysLaid(y / YEARS_IN_ERA, p, c, yoc, d.month, d.day);
  }

  // ----- the length of a year -----

  /** The next year's place, and its distance. */
  lemma NextYearLaid(era: int, p: int, c: int, yoc: int) returns (era': int, p': int, c': int, yoc': int)
    requires LaidYear(p, c, yoc)
    ensures LaidYear(p', c', yoc')
    ensures era' * YEARS_IN_ERA + FirstYear(p', c') + yoc' == era * YEARS_IN_ERA + FirstYear(p, c) + yoc + 1
    ensures era' * DAYS_IN_ERA + p' * DAYS_IN_PERIOD + CycleStart(c') + YearStart(yoc') ==
            era * DAYS_IN_ERA + p * DAYS_IN_PERIOD + CycleStart(c) + YearStart(yoc) + LengthInCycle(p, yoc)
  {
    YearStartStep(yoc);
    if p == 22 {
      era', p', c', yoc' := if yoc < 3 then era else era + 1, if yoc < 3 then 22 else 0, 0, if yoc < 3 then yoc + 1 else 0;
    } else if yoc + 1 < (if c == 0 then 29 else 33) {
      era', p', c', yoc' := era, p, c, yoc + 1;
    } else {
      era', p', c', yoc' := era, if c < 3 then p else p + 1, if c < 3 then c + 1 else 0, 0;
    }
  }

  /** Consecutive new years are 366 days apart exactly when the first year is leap. */
  lemma YearLength(y: int)
    ensures ToDays(Date(y + 1, 1, 1)) - ToDays(Date(y, 1, 1)) == if IsLeap(y) then 366 else 365
  {
    hide ToDays, IsLeap, CycleStart, YearStart, MonthStart, FirstYear, LaidYear, LeapInCycle, EraOfYear;
    var p, c, yoc := SplitYear((y - 475) % YEARS_IN_ERA);
    var era := (y - 475) / YEARS_IN_ERA;
    LeapLaid(era, p, c, yoc);
    var era', p', c', yoc' := NextYearLaid(era, p, c, yoc);
    ToDaysLaid(Date(y, 1, 1), era, p, c, yoc);
    ToDaysLaid(Date(y + 1, 1, 1), era', p', c', yoc');
  }

  lemma SameYear(d: Date, m: int, day: int)
    ensures ToDays(Date(d.year, m, day)) - ToDays(d) == MonthStart(m) + day - (MonthStart(d.month) + d.day)
  {
    hide EraOfYear, DaysToYear, MonthStart;
  }

  /** The next calendar day is the next day number. */
  lemma NextDayIsNext(d: Date)
    requires Valid(d)
    ensures Valid(NextDay(d)) && ToDays(NextDay(d)) == ToDays(d) + 1
  {
    hide ToDays, IsLeap, MonthOfDay;
    MonthFound(d.month, 1);
    var n := NextDay(d);
    SameYear(d, n.month, n.day);
    SameYear(d, 1, 1);
    YearLength(d.year);
  }

  lemma FirstNewYear()
    ensures ToDays(Date(1, 1, 1)) == -492267
  {
    hide ToDays;
    ToDaysLaid(Date(1, 1, 1), -1, 18, 1, 13);
  }

  lemma UnixNewYear()
    ensures ToDays(Date(1348, 10, 11)) == 0
  {
    hide ToDays;
    ToDaysLaid(Date(1348, 10, 11), 0, 6, 3, 10);
  }

  /** The calendar starts on 22 March 622 of the Gregorian calendar, and 11 Dey 1348 is 1970-01-01; with
      `NextDayIsNext` either pins every day number. */
  lemma Epoch()
    ensures ToDays(Date(1, 1, 1)) == G.ToDays(Date(622, 3, 22))
    ensures ToDays(Date(1348, 10, 11)) == G.ToDays(Date(1970, 1, 1))
  {
    hide ToDays;
    FirstNewYear();
    UnixNewYear();
  }

  /** From the first of a month to the first of the next it is as many days as the calendar says. */
  lemma MonthLengths(y: int, m: int)
    requires 1 <= m <= 12
    ensures ToDays(if m == 12 then Date(y + 1, 1, 1) else Date(y, m + 1, 1)) - ToDays(Date(y, m, 1)) ==
            if m == 12 && IsLeap(y) then 30 else [31, 31, 31, 31, 31, 31, 30, 30, 30, 30, 30, 29][m - 1]
  {
    hide ToDays, IsLeap;
    var last := Date(y, m, LastDay(y, m));
    NextDayIsNext(last);
    SameYear(last, m, 1);
  }

  /** The leap years, era by era: 22 periods of 128 years, each a cycle of 29 and three of 33 with every fourth
      year after the first leap, and then the last of 4 more years. */
  lemma LeapYears(y: int)
    ensures var yoe := (y - 475) % 2820; var yop := yoe % 128;
      IsLeap(y) <==>
      if yoe >= 2816 then yoe == 2819
      else var yoc := if yop < 29 then yop else if yop < 62 then yop - 29 else if yop < 95 then yop - 62 else yop - 95;
           yoc > 0 && yoc % 4 == 0
  {
    var yoe := (y - 475) % YEARS_IN_ERA;
    hide IsLeap, EraOfYear;
    var p, c, yoc := SplitYear(yoe);
    LeapLaid((y - 475) / YEARS_IN_ERA, p, c, yoc);
    YearSplits(p, c, yoc);
  }
}
