/** UTC with leap seconds over an arbitrary table. Times count ticks, `tps` of them to the second; the table
    lists, in seconds, the system times at which one more leap second has been inserted. */
module UtcClock {
  import opened Dates

  ghost predicate Increasing(leaps: seq<int>) {
    forall i, j :: 0 <= i < j < |leaps| ==> leaps[i] < leaps[j]
  }

  /** A number of seconds in ticks. */
  function Ticks(seconds: int, tps: int): int {
    seconds * tps
  }

  // ----- the conversions -----

  /** `std::upper_bound`: the index of the first entry after time `t`. */
  function UpperBound(leaps: seq<int>, tps: int, t: int): (k: nat)
    ensures k <= |leaps|
    ensures k > 0 ==> Ticks(leaps[k - 1], tps) <= t
    ensures forall i :: k <= i < |leaps| ==> Ticks(leaps[i], tps) > t
  {
    if leaps == [] then 0
    else if Ticks(leaps[|leaps| - 1], tps) <= t then |leaps|
    else UpperBound(leaps[..|leaps| - 1], tps, t)
  }

  function FromSys(leaps: seq<int>, tps: int, t: int): int {
    t + Ticks(UpperBound(leaps, tps, t), tps)
  }

  /** Whether `u` falls in an inserted second, and the number of leap seconds up to it. */
  function LeapSecondInfo(leaps: seq<int>, tps: int, u: int): (bool, int) {
    var lt := UpperBound(leaps, tps, u);
    var tp := u - Ticks(lt, tps);
    if lt > 0 && tp < Ticks(leaps[lt - 1], tps) then
      if tp >= Ticks(leaps[lt - 1], tps) - tps then (true, lt) else (false, lt - 1)
    else (false, lt)
  }

  method IsLeapSecond(leaps: seq<int>, tps: int, u: int) returns (ls: bool, ds: int)
    ensures (ls, ds) == LeapSecondInfo(leaps, tps, u)
  {
    var tp := u;
    var lt := UpperBound(leaps, tps, tp);
    ds := lt;
    tp := tp - Ticks(ds, tps);
    ls := false;
    if lt > 0 {
      if tp < Ticks(leaps[lt - 1], tps) {
        if tp >= Ticks(leaps[lt - 1], tps) - tps {
          ls := true;
        } else {
          ds := ds - 1;
        }
      }
    }
  }

  function FloorSeconds(tp: int, tps: int): int
    requires tps > 0
  {
    tp / tps * tps
  }

  /** An instant within an inserted second becomes the last tick before it. */
  function SysOf(leaps: seq<int>, tps: int, u: int): int
    requires tps > 0
  {
    var (ls, ds) := LeapSecondInfo(leaps, tps, u);
    var tp := u - Ticks(ds, tps);
    if ls then FloorSeconds(tp, tps) + tps - 1 else tp
  }

  method ToSys(leaps: seq<int>, tps: int, u: int) returns (tp: int)
    requires tps > 0
    ensures tp == SysOf(leaps, tps, u)
  {
    var ls, ds := IsLeapSecond(leaps, tps, u);
    tp := u - Ticks(ds, tps);
    if ls {
      tp := FloorSeconds(tp, tps) + tps - 1;
    }
  }

  // ----- counting table entries -----

  lemma Scale(a: int, b: int, tps: int)
    requires tps > 0
    ensures a <= b <==> Ticks(a, tps) <= Ticks(b, tps)
    ensures a < b ==> Ticks(a, tps) + tps <= Ticks(b, tps)
  {
    MultipleIsFar(b - a, tps);
  }

  lemma Plus(a: int, b: int, tps: int)
    ensures Ticks(a + b, tps) == Ticks(a, tps) + Ticks(b, tps)
    ensures Ticks(1, tps) == tps && Ticks(a + 1, tps) == Ticks(a, tps) + tps
    ensures Ticks(a - 1, tps) == Ticks(a, tps) - tps
    ensures Ticks(a + b + 1, tps) == Ticks(a, tps) + Ticks(b, tps) + tps
  {
  }

  lemma CountIs(leaps: seq<int>, tps: int, t: int, k: nat)
    requires tps > 0 && Increasing(leaps) && k <= |leaps|
    requires k > 0 ==> Ticks(leaps[k - 1], tps) <= t
    requires k < |leaps| ==> Ticks(leaps[k], tps) > t
    ensures UpperBound(leaps, tps, t) == k
  {
    hide Ticks, UpperBound;
    forall i | 0 <= i < k ensures Ticks(leaps[i], tps) <= t {
      Scale(leaps[i], leaps[k - 1], tps);
    }
    forall i | k <= i < |leaps| ensures Ticks(leaps[i], tps) > t {
      Scale(leaps[k], leaps[i], tps);
    }
  }

  /** On an increasing table the entries before the index are exactly those that are not after the time. */
  lemma UpperBoundSplits(leaps: seq<int>, tps: int, t: int, i: nat)
    requires tps > 0 && Increasing(leaps) && i < |leaps|
    ensures i < UpperBound(leaps, tps, t) <==> Ticks(leaps[i], tps) <= t
  {
    hide Ticks, UpperBound;
    var k := UpperBound(leaps, tps, t);
    if i < k {
      Scale(leaps[i], leaps[k - 1], tps);
    }
  }

  lemma CountAtLeast(leaps: seq<int>, tps: int, t: int, i: nat)
    requires i < |leaps| && Ticks(leaps[i], tps) <= t
    ensures UpperBound(leaps, tps, t) > i
  {
  }

  lemma CountGrows(leaps: seq<int>, tps: int, s: int, t: int)
    requires s <= t
    ensures UpperBound(leaps, tps, s) <= UpperBound(leaps, tps, t)
  {
    hide Ticks, UpperBound;
    var k := UpperBound(leaps, tps, s);
    if k > 0 {
      CountAtLeast(leaps, tps, t, k - 1);
    }
  }

  /** Later system times are later in UTC, whatever the table. */
  lemma FromSysIncreases(leaps: seq<int>, tps: int, s: int, t: int)
    requires tps > 0 && s < t
    ensures FromSys(leaps, tps, s) < FromSys(leaps, tps, t)
  {
    hide Ticks, UpperBound;
    CountGrows(leaps, tps, s, t);
    Scale(UpperBound(leaps, tps, s), UpperBound(leaps, tps, t), tps);
  }

  /** UTC is ahead by one second for each table entry that is not after the time. */
  lemma FromSysCounts(leaps: seq<int>, tps: int, t: int, k: nat)
    requires tps > 0 && Increasing(leaps) && k <= |leaps|
    requires forall i :: 0 <= i < |leaps| ==> (i < k <==> leaps[i] * tps <= t)
    ensures FromSys(leaps, tps, t) == t + k * tps
  {
    hide UpperBound;
    CountIs(leaps, tps, t, k);
  }

  // ----- the inserted seconds -----

  ghost predicate InImage(leaps: seq<int>, tps: int, u: int) {
    exists t :: FromSys(leaps, tps, t) == u
  }

  /** `u` lies in the second that entry `i` inserts. */
  ghost predicate Inserted(leaps: seq<int>, tps: int, u: int, i: int) {
    0 <= i < |leaps| && Ticks(leaps[i] + i, tps) <= u < Ticks(leaps[i] + i + 1, tps)
  }

  lemma InsertedIsNoImage(leaps: seq<int>, tps: int, u: int, i: int)
    requires tps > 0 && Increasing(leaps) && Inserted(leaps, tps, u, i)
    ensures !InImage(leaps, tps, u)
  {
    hide Ticks, UpperBound;
    Plus(leaps[i], i, tps);
    Plus(leaps[i], i + 1, tps);
    forall t ensures FromSys(leaps, tps, t) != u {
      var k := UpperBound(leaps, tps, t);
      if k <= i {
        Scale(k, i, tps);
      } else {
        CountAtLeast(leaps, tps, t, k - 1);
        Scale(i + 1, k, tps);
        Scale(leaps[i], leaps[k - 1], tps);
      }
    }
  }

  /** Every instant outside the inserted seconds is some system time's. */
  lemma {:induction false} OutsideIsImage(leaps: seq<int>, tps: int, u: int, k: nat)
    requires tps > 0 && Increasing(leaps) && k <= |leaps|
    requires k > 0 ==> Ticks(leaps[k - 1] + k, tps) <= u
    requires forall i :: !Inserted(leaps, tps, u, i)
    ensures InImage(leaps, tps, u)
    decreases |leaps| - k
  {
    if k < |leaps| && Ticks(leaps[k] + k + 1, tps) <= u {
      OutsideIsImage(leaps, tps, u, k + 1);
    } else {
      assert !Inserted(leaps, tps, u, k);
      if k < |leaps| {
        Plus(leaps[k], k, tps);
      }
      if k > 0 {
        Plus(leaps[k - 1], k, tps);
      }
      hide Ticks, UpperBound;
      CountIs(leaps, tps, u - Ticks(k, tps), k);
      assert FromSys(leaps, tps, u - Ticks(k, tps)) == u;
    }
  }

  /** The instants no system time reaches are exactly the inserted seconds. */
  lemma ImageIsOutside(leaps: seq<int>, tps: int, u: int)
    requires tps > 0 && Increasing(leaps)
    ensures InImage(leaps, tps, u) <==> forall i :: !Inserted(leaps, tps, u, i)
  {
    if forall i :: !Inserted(leaps, tps, u, i) {
      OutsideIsImage(leaps, tps, u, 0);
    } else {
      var i :| Inserted(leaps, tps, u, i);
      InsertedIsNoImage(leaps, tps, u, i);
    }
  }

  // ----- the gaps the algorithms need -----

  /** Entry `i + 1` comes at least `i` seconds after entry `i`. */
  ghost predicate GapsForRoundTrip(leaps: seq<int>) {
    forall i :: 0 <= i < |leaps| - 1 ==> leaps[i + 1] - leaps[i] >= i
  }

  /** Entry `i + 1` comes more than `i` seconds after entry `i`. */
  ghost predicate GapsForDetection(leaps: seq<int>) {
    forall i :: 0 <= i < |leaps| - 1 ==> leaps[i + 1] - leaps[i] >= i + 1
  }

  lemma ImageCount(leaps: seq<int>, tps: int, t: int)
    requires tps > 0 && Increasing(leaps) && GapsForRoundTrip(leaps)
    ensures var c := UpperBound(leaps, tps, t);
      c <= UpperBound(leaps, tps, FromSys(leaps, tps, t)) <= c + 1
  {
    hide Ticks, UpperBound;
    var c := UpperBound(leaps, tps, t);
    var u := FromSys(leaps, tps, t);
    Scale(0, c, tps);
    Plus(0, 0, tps);
    CountGrows(leaps, tps, t, u);
    if c + 1 < |leaps| {
      assert leaps[c + 1] - leaps[c] >= c;
      Plus(leaps[c], c, tps);
      Scale(leaps[c] + c, leaps[c + 1], tps);
      CountAtMost(leaps, tps, u, c + 1);
    }
  }

  lemma CountAtMost(leaps: seq<int>, tps: int, t: int, k: nat)
    requires tps > 0 && Increasing(leaps) && k < |leaps| && Ticks(leaps[k], tps) > t
    ensures UpperBound(leaps, tps, t) <= k
  {
    hide Ticks, UpperBound;
    var n := UpperBound(leaps, tps, t);
    if n > 0 && leaps[n - 1] > leaps[k] {
      Scale(leaps[k], leaps[n - 1], tps);
    }
  }

  /** An image instant is not taken for a leap second and its count is right. */
  lemma ImageInfo(leaps: seq<int>, tps: int, t: int)
    requires tps > 0 && Increasing(leaps) && GapsForRoundTrip(leaps)
    ensures LeapSecondInfo(leaps, tps, FromSys(leaps, tps, t)) == (false, UpperBound(leaps, tps, t))
    ensures SysOf(leaps, tps, FromSys(leaps, tps, t)) == t
  {
    hide Ticks, FloorSeconds, UpperBound;
    ImageCount(leaps, tps, t);
    Plus(UpperBound(leaps, tps, t), 0, tps);
  }

  lemma InsertedInfo(leaps: seq<int>, tps: int, u: int, i: int)
    requires tps > 0 && Increasing(leaps) && GapsForDetection(leaps) && Inserted(leaps, tps, u, i)
    ensures LeapSecondInfo(leaps, tps, u) == (true, i + 1)
    ensures SysOf(leaps, tps, u) == Ticks(leaps[i], tps) - 1
  {
    var tp := u - Ticks(i + 1, tps);
    QuotientIs(u - Ticks(leaps[i] + i, tps) + (leaps[i] - 1) * tps, tps, leaps[i] - 1, u - Ticks(leaps[i] + i, tps));
    Plus(leaps[i], i, tps);
    Plus(i, 0, tps);
    assert tp == u - Ticks(leaps[i] + i, tps) + (leaps[i] - 1) * tps;
    assert FloorSeconds(tp, tps) + tps - 1 == Ticks(leaps[i], tps) - 1;
    hide Ticks, UpperBound;
    Scale(leaps[i], leaps[i] + i, tps);
    if i + 1 < |leaps| {
      assert leaps[i + 1] - leaps[i] >= i + 1;
      Scale(leaps[i] + i + 1, leaps[i + 1], tps);
    }
    CountIs(leaps, tps, u, i + 1);
  }

  /** `to_sys` undoes `from_sys` at every time if and only if the table has the gaps it needs. */
  lemma RoundTripIffGaps(leaps: seq<int>, tps: int)
    requires tps > 0 && Increasing(leaps)
    ensures (forall t :: SysOf(leaps, tps, FromSys(leaps, tps, t)) == t) <==> GapsForRoundTrip(leaps)
  {
    if GapsForRoundTrip(leaps) {
      forall t ensures SysOf(leaps, tps, FromSys(leaps, tps, t)) == t {
        ImageInfo(leaps, tps, t);
      }
    } else {
      var i :| 0 <= i < |leaps| - 1 && leaps[i + 1] - leaps[i] < i;
      NarrowGapBreaksRoundTrip(leaps, tps, i);
    }
  }

  lemma NarrowGapBreaksRoundTrip(leaps: seq<int>, tps: int, i: nat)
    requires tps > 0 && Increasing(leaps) && i < |leaps| - 1 && leaps[i + 1] - leaps[i] < i
    ensures SysOf(leaps, tps, FromSys(leaps, tps, Ticks(leaps[i], tps) - 1)) < Ticks(leaps[i], tps) - 1
  {
    hide Ticks, UpperBound;
    var t := Ticks(leaps[i], tps) - 1;
    if i > 0 {
      Scale(leaps[i - 1], leaps[i], tps);
    }
    CountIs(leaps, tps, t, i);
    var u := FromSys(leaps, tps, t);
    Plus(leaps[i], i, tps);
    Scale(leaps[i + 1], leaps[i] + i - 1, tps);
    Plus(leaps[i] + i, 0, tps);
    CountAtLeast(leaps, tps, u, i + 1);
    CountedTooFar(leaps, tps, u, i);
  }

  lemma CountedTooFar(leaps: seq<int>, tps: int, u: int, i: nat)
    requires tps > 0 && UpperBound(leaps, tps, u) >= i + 2
    ensures SysOf(leaps, tps, u) < u - Ticks(i, tps)
  {
    hide Ticks, UpperBound;
    var lt := UpperBound(leaps, tps, u);
    Scale(i + 2, lt, tps);
    Plus(i, 1, tps);
    Plus(i + 1, 0, tps);
    Plus(lt, 0, tps);
    FloorIsBelow(u - Ticks(lt, tps), tps);
    hide FloorSeconds;
  }

  lemma FloorIsBelow(tp: int, tps: int)
    requires tps > 0
    ensures FloorSeconds(tp, tps) <= tp
  {
    assert tp == tp / tps * tps + tp % tps;
  }

  /** `is_leap_second` is true on exactly the instants no system time reaches, if and only if the table
      has the gaps it needs. */
  lemma DetectionIffGaps(leaps: seq<int>, tps: int)
    requires tps > 0 && Increasing(leaps)
    ensures (forall u :: LeapSecondInfo(leaps, tps, u).0 <==> !InImage(leaps, tps, u)) <==> GapsForDetection(leaps)
  {
    if GapsForDetection(leaps) {
      forall u ensures LeapSecondInfo(leaps, tps, u).0 <==> !InImage(leaps, tps, u) {
        DetectionAt(leaps, tps, u);
      }
    } else {
      var i :| 0 <= i < |leaps| - 1 && leaps[i + 1] - leaps[i] < i + 1;
      NarrowGapHidesSecond(leaps, tps, i);
    }
  }

  lemma DetectionAt(leaps: seq<int>, tps: int, u: int)
    requires tps > 0 && Increasing(leaps) && GapsForDetection(leaps)
    ensures LeapSecondInfo(leaps, tps, u).0 <==> !InImage(leaps, tps, u)
  {
    if InImage(leaps, tps, u) {
      var t :| FromSys(leaps, tps, t) == u;
      ImageInfo(leaps, tps, t);
    } else {
      ImageIsOutside(leaps, tps, u);
      var i :| Inserted(leaps, tps, u, i);
      InsertedInfo(leaps, tps, u, i);
    }
  }

  lemma NarrowGapHidesSecond(leaps: seq<int>, tps: int, i: nat)
    requires tps > 0 && Increasing(leaps) && i < |leaps| - 1 && leaps[i + 1] - leaps[i] < i + 1
    ensures !LeapSecondInfo(leaps, tps, Ticks(leaps[i] + i, tps)).0 && !InImage(leaps, tps, Ticks(leaps[i] + i, tps))
  {
    hide Ticks, UpperBound;
    var u := Ticks(leaps[i] + i, tps);
    Plus(leaps[i], i, tps);
    assert Inserted(leaps, tps, u, i);
    InsertedIsNoImage(leaps, tps, u, i);
    Scale(leaps[i + 1], leaps[i] + i, tps);
    CountAtLeast(leaps, tps, u, i + 1);
    var lt := UpperBound(leaps, tps, u);
    Scale(i + 2, lt, tps);
    Plus(i + 1, 0, tps);
    Plus(i, 0, tps);
    Scale(leaps[i], leaps[lt - 1], tps);
  }
}
