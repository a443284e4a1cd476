/** What the calendars share: dates, their order, and C++ integer division. */
module Dates {
  datatype Date = Date(year: int, month: int, day: int)

  /** C++ `/` on a positive divisor: truncation towards zero. */
  function Quot(a: int, n: int): int
    requires n > 0
  {
    if a >= 0 then a / n else -((-a) / n)
  }

  /** C++ `%` on a positive divisor. */
  function Rem(a: int, n: int): int
    requires n > 0
  {
    a - n * Quot(a, n)
  }

  /** Year first, then month, then day. */
  predicate Before(a: Date, b: Date) {
    || a.year < b.year
    || (a.year == b.year && a.month < b.month)
    || (a.year == b.year && a.month == b.month && a.day < b.day)
  }

  /** The calendars' era step: adjusting before a truncating division floors it. */
  lemma EraFloors(y: int, n: int, era: int, yoe: int)
    requires n > 0 && y == era * n + yoe && 0 <= yoe < n
    ensures Quot(if y >= 0 then y else y - (n - 1), n) == era
  {
    if y >= 0 {
      QuotientIs(y, n, era, yoe);
    } else {
      QuotientIs(-(y - (n - 1)), n, -era, n - 1 - yoe);
    }
  }

  lemma QuotientIs(a: int, n: int, q: int, r: int)
    requires n > 0 && a == q * n + r && 0 <= r < n
    ensures a / n == q && a % n == r
  {
    var d := a / n - q;
    assert d * n == r - a % n;
    MultipleIsFar(d, n);
  }

  lemma MultipleIsFar(d: int, n: int)
    requires n > 0
    ensures d >= 1 ==> d * n >= n
    ensures d <= -1 ==> d * n <= -n
  {
  }

  /** A floored quotient grows by one exactly at the multiples of the divisor. */
  lemma NextQuotient(a: int, n: int)
    requires n > 0
    ensures (a + 1) / n == a / n + if (a + 1) % n == 0 then 1 else 0
  {
    if a % n == n - 1 {
      QuotientIs(a + 1, n, a / n + 1, 0);
    } else {
      QuotientIs(a + 1, n, a / n, a % n + 1);
    }
  }
}
