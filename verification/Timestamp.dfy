/** Timestamps of the form `%FT%TZ`: reading them, printing them, and going back 24 hours. */
module Timestamp {
  import opened Options
  import opened Dates
  import opened Decimal
  import G = Gregorian

  // ----- reading, as functions of the text still unread -----

  /** The length of the leading run of digits, at most `max`. */
  function DigitRun(s: string, max: nat): (k: nat)
    ensures k <= max && k <= |s| && AllDigits(s[..k])
    ensures k < max && k < |s| ==> !IsDigit(s[k])
    decreases max
  {
    if max == 0 || s == "" || !IsDigit(s[0]) then 0 else 1 + DigitRun(s[1..], max - 1)
  }

  /** At least `m` and at most `max` digits. */
  function TakeUnsigned(s: string, m: nat, max: nat): Option<(int, string)> {
    var k := DigitRun(s, max);
    if k < m then None else Some((Val(s[..k]), s[k..]))
  }

  function AtLeastOne(m: nat): nat {
    if m == 0 then 1 else m
  }

  /** An optional sign and then digits, at least `m` and at most `max`; with `m` zero there may be neither. */
  function TakeSigned(s: string, m: nat, max: nat): Option<(int, string)> {
    if s != "" && s[0] in {'-', '+'} then
      var (x, rest) :- TakeUnsigned(s[1..], AtLeastOne(m), max);
      Some((if s[0] == '-' then -x else x, rest))
    else if s != "" && IsDigit(s[0]) then
      TakeUnsigned(s, AtLeastOne(m), max)
    else if m > 0 then None
    else Some((0, s))
  }

  function TakeChar(s: string, c: char): Option<string> {
    if s != "" && s[0] == c then Some(s[1..]) else None
  }

  /** Whole and fractional digits read so far, and whether the decimal point has been seen. */
  datatype Scan = Scan(whole: int, fraction: int, places: nat, point: bool)

  predicate Continues(a: Scan, c: char) {
    IsDigit(c) || (c == '.' && !a.point)
  }

  function Scanned(a: Scan, c: char): Scan {
    if c == '.' && !a.point then a.(point := true)
    else if a.point then a.(fraction := 10 * a.fraction + DigitOf(c), places := a.places + 1)
    else a.(whole := 10 * a.whole + DigitOf(c))
  }

  /** Up to `max` characters of a decimal number: what they say and how many there were. */
  function ScanRun(s: string, max: nat, a: Scan): (Scan, nat)
    decreases max
  {
    if max == 0 || s == "" || !Continues(a, s[0]) then (a, 0)
    else var (b, k) := ScanRun(s[1..], max - 1, Scanned(a, s[0])); (b, k + 1)
  }

  function PowerOfTen(n: nat): (p: int)
    ensures p > 0
  {
    if n == 0 then 1 else 10 * PowerOfTen(n - 1)
  }

  /** To the nearest whole number, ties to even. */
  function Rounded(a: Scan): int {
    var up := a.whole + a.fraction / PowerOfTen(a.places);
    var left := 2 * (a.fraction % PowerOfTen(a.places));
    if left < PowerOfTen(a.places) || (left == PowerOfTen(a.places) && up % 2 == 0) then up else up + 1
  }

  const START := Scan(0, 0, 0, false)

  /** At least `m` and at most `max` characters of a decimal number, rounded to whole seconds. */
  function TakeSeconds(s: string, m: nat, max: nat): Option<(int, string)> {
    var (a, k) := ScanRun(s, max, START);
    if k < m || k > |s| then None else Some((Rounded(a), s[k..]))
  }

  datatype Fields = Fields(ymd: Date, hour: int, minute: int, second: int)

  /** `%F`. */
  function TakeDate(s: string): Option<(Date, string)> {
    var (y, s1) :- TakeSigned(s, 1, 4);
    var s2 :- TakeChar(s1, '-');
    var (m, s3) :- TakeUnsigned(s2, 1, 2);
    var s4 :- TakeChar(s3, '-');
    var (d, s5) :- TakeUnsigned(s4, 1, 2);
    Some((Date(y, m, d), s5))
  }

  /** `%T`, after the date. */
  function TakeTime(ymd: Date, s: string): Option<(Fields, string)> {
    var (h, s1) :- TakeUnsigned(s, 1, 2);
    var s2 :- TakeChar(s1, ':');
    var (m, s3) :- TakeUnsigned(s2, 1, 2);
    var s4 :- TakeChar(s3, ':');
    var (sec, s5) :- TakeSeconds(s4, 1, 2);
    Some((Fields(ymd, h, m, sec), s5))
  }

  /** `%FT%TZ`; what follows the `Z` is not looked at. */
  function TakeFields(s: string): Option<Fields> {
    var (ymd, s1) :- TakeDate(s);
    var s2 :- TakeChar(s1, 'T');
    var (fields, s3) :- TakeTime(ymd, s2);
    var _ :- TakeChar(s3, 'Z');
    Some(fields)
  }

  predicate Conventional(f: Fields) {
    G.Ok(f.ymd) && f.hour < 24 && f.minute < 60 && f.second < 60
  }

  /** The instant, in seconds from 1970-01-01T00:00:00, a timestamp denotes. */
  function Parse(s: string): Option<int> {
    var f :- TakeFields(s);
    if Conventional(f) then Some(G.ToDays(f.ymd) * 86400 + f.hour * 3600 + f.minute * 60 + f.second) else None
  }

  predicate IsDateValid(s: string) {
    Parse(s).Some?
  }

  lemma EmptyVal()
    ensures Val("") == 0
  {
  }

  lemma RunOneMore(text: string, count: nat, rest: string, max: nat)
    requires count < |text| && rest == text[count..] && IsDigit(rest[0]) && max > 0
    ensures rest[1..] == text[count + 1..]
    ensures Val(text[..count + 1]) == 10 * Val(text[..count]) + DigitOf(rest[0])
    ensures DigitRun(rest, max) == 1 + DigitRun(rest[1..], max - 1)
  {
    hide Val;
    ValOfConcat(text[..count], text[count]);
    assert text[..count + 1] == text[..count] + [text[count]];
  }

  lemma RunStops(rest: string, max: nat)
    requires max == 0 || rest == "" || !IsDigit(rest[0])
    ensures DigitRun(rest, max) == 0
  {
  }

  // ----- the stream reader -----

  class Stream {
    var rest: string
    var failed: bool

    constructor (text: string)
      ensures rest == text && !failed
    {
      rest, failed := text, false;
    }

    method ReadUnsigned(m: nat, max: nat) returns (x: int)
      requires max > 0
      modifies this
      ensures var k := DigitRun(old(rest), max);
        x == Val(old(rest)[..k]) && rest == old(rest)[k..] && failed == (old(failed) || k < m)
    {
      hide Val, DigitRun;
      EmptyVal();
      x := 0;
      var count := 0;
      ghost var text, k := rest, DigitRun(rest, max);
      while rest != "" && IsDigit(rest[0])
        invariant count <= k && count < max && failed == old(failed)
        invariant rest == text[count..] && x == Val(text[..count])
        invariant k == count + DigitRun(rest, max - count)
        decreases max - count
      {
        RunOneMore(text, count, rest, max - count);
        x := 10 * x + DigitOf(rest[0]);
        rest := rest[1..];
        count := count + 1;
        if count == max {
          break;
        }
      }
      RunStops(rest, max - count);
      if count < m {
        failed := true;
      }
    }

    method ReadSigned(m: nat, max: nat) returns (x: int)
      requires max > 0 && !failed
      modifies this
      ensures failed <==> TakeSigned(old(rest), m, max).None?
      ensures !failed ==> TakeSigned(old(rest), m, max) == Some((x, rest))
    {
      if rest != "" {
        var c := rest[0];
        if IsDigit(c) || c == '-' || c == '+' {
          if c == '-' || c == '+' {
            rest := rest[1..];
          }
          x := ReadUnsigned(AtLeastOne(m), max);
          if !failed {
            if c == '-' {
              x := -x;
            }
            return;
          }
        }
      }
      if m > 0 {
        failed := true;
      }
      x := 0;
    }

    method ReadSeconds(m: nat, max: nat) returns (x: int)
      requires max > 0 && !failed
      modifies this
      ensures failed <==> TakeSeconds(old(rest), m, max).None?
      ensures !failed ==> TakeSeconds(old(rest), m, max) == Some((x, rest))
    {
      var a := START;
      var count := 0;
      ghost var text, run := rest, ScanRun(rest, max, START);
      while rest != "" && Continues(a, rest[0])
        invariant count < max && !failed && count <= |text| && rest == text[count..]
        invariant ScanRun(rest, max - count, a) == (run.0, run.1 - count)
        decreases max - count
      {
        a := Scanned(a, rest[0]);
        rest := rest[1..];
        count := count + 1;
        if count == max {
          break;
        }
      }
      if count < m {
        failed := true;
        return 0;
      }
      x := Rounded(a);
    }

    method ReadChar(c: char)
      requires !failed
      modifies this
      ensures failed <==> TakeChar(old(rest), c).None?
      ensures !failed ==> TakeChar(old(rest), c) == Some(rest)
    {
      if rest == "" || rest[0] != c {
        failed := true;
        return;
      }
      rest := rest[1..];
    }
  }

  /** `from_stream` with the format `%FT%TZ`: each read happens only while none has failed. */
  method ReadDate(st: Stream) returns (ymd: Date)
    requires !st.failed
    modifies st
    ensures st.failed <==> TakeDate(old(st.rest)).None?
    ensures !st.failed ==> TakeDate(old(st.rest)) == Some((ymd, st.rest))
  {
    ymd := Date(-32768, 0, 0);
    var y := st.ReadSigned(1, 4);
    if st.failed { return; }
    st.ReadChar('-');
    if st.failed { return; }
    var m := st.ReadUnsigned(1, 2);
    if st.failed { return; }
    st.ReadChar('-');
    if st.failed { return; }
    var d := st.ReadUnsigned(1, 2);
    ymd := Date(y, m, d);
  }

  method ReadTime(st: Stream, ymd: Date) returns (f: Fields)
    requires !st.failed
    modifies st
    ensures st.failed <==> TakeTime(ymd, old(st.rest)).None?
    ensures !st.failed ==> TakeTime(ymd, old(st.rest)) == Some((f, st.rest))
  {
    f := Fields(ymd, 0, 0, 0);
    var h := st.ReadUnsigned(1, 2);
    if st.failed { return; }
    st.ReadChar(':');
    if st.failed { return; }
    var m := st.ReadUnsigned(1, 2);
    if st.failed { return; }
    st.ReadChar(':');
    if st.failed { return; }
    var sec := st.ReadSeconds(1, 2);
    f := Fields(ymd, h, m, sec);
  }

  method FromStream(date: string) returns (t: Option<int>)
    ensures t == Parse(date)
  {
    hide TakeDate, TakeTime;
    var st := new Stream(date);
    t := None;
    var ymd := ReadDate(st);
    if st.failed { return; }
    st.ReadChar('T');
    if st.failed { return; }
    var f := ReadTime(st, ymd);
    if st.failed { return; }
    st.ReadChar('Z');
    if st.failed { return; }
    if Conventional(f) {
      t := Some(G.ToDays(f.ymd) * 86400 + f.hour * 3600 + f.minute * 60 + f.second);
    }
  }

  // ----- printing -----

  /** The source's split of an instant into a day and a time of day: truncate, then correct below zero. */
  function SplitDay(t: int): (int, int) {
    var ld := Quot(t, 86400);
    if ld * 86400 <= t then (ld, t - ld * 86400) else (ld - 1, 86400 - (ld * 86400 - t))
  }

  lemma SplitDayFloors(t: int)
    ensures SplitDay(t) == (t / 86400, t % 86400)
  {
    if t < 0 {
      if (-t) % 86400 == 0 {
        QuotientIs(t, 86400, -((-t) / 86400), 0);
      } else {
        QuotientIs(t, 86400, -((-t) / 86400) - 1, 86400 - (-t) % 86400);
      }
    }
  }

  /** A year printed with `width(4)`, `fill('0')`: the zeros go before the minus sign. */
  function YearText(y: int): string {
    PadLeft(Number(y), 4)
  }

  function Two(n: int): string {
    PadLeft(Number(n), 2)
  }

  /** `hh_mm_ss` of a time of day, `%T`, and the closing `Z`. */
  function TimeText(tod: int): string {
    var h := tod / 3600;
    var m := tod / 60 - h * 60;
    var s := tod - h * 3600 - m * 60;
    Two(h) + (":" + (Two(m) + (":" + (Two(s) + "Z"))))
  }

  function Print(t: int): string {
    var (ld, tod) := SplitDay(t);
    var d := G.FromDays(ld);
    YearText(d.year) + ("-" + (Two(d.month) + ("-" + (Two(d.day) + ("T" + TimeText(tod))))))
  }

  function Date24HAgo(date: string): string {
    match Parse(date)
    case Some(cur) => Print(cur - 86400)
    case None => ""
  }

  // ----- reading back what was printed -----

  predicate NoDigitFirst(s: string) {
    s == "" || !IsDigit(s[0])
  }

  lemma {:induction false} RunOfDigits(ds: string, r: string, max: nat)
    requires AllDigits(ds) && |ds| <= max && (|ds| == max || NoDigitFirst(r))
    ensures DigitRun(ds + r, max) == |ds|
    decreases |ds|
  {
    if ds == "" {
      assert ds + r == r;
    } else {
      assert (ds + r)[1..] == ds[1..] + r;
      RunOfDigits(ds[1..], r, max - 1);
    }
  }

  lemma TakesDigits(ds: string, r: string, max: nat)
    requires AllDigits(ds) && 1 <= |ds| <= max && (|ds| == max || NoDigitFirst(r))
    ensures TakeUnsigned(ds + r, 1, max) == Some((Val(ds), r))
  {
    RunOfDigits(ds, r, max);
    assert (ds + r)[..|ds|] == ds && (ds + r)[|ds|..] == r;
  }

  lemma TakesTwo(n: int, r: string)
    requires 0 <= n < 100
    ensures TakeUnsigned(Two(n) + r, 1, 2) == Some((n, r))
    ensures TakeSeconds(Two(n) + r, 1, 2) == Some((n, r))
  {
    hide Two, Val, TakeUnsigned, TakeSeconds;
    TwoIsTwo(n);
    TakesDigits(Two(n), r, 2);
    TakesSecondsText(Two(n), r);
  }

  lemma ValOfTwo(t: string)
    requires |t| == 2
    ensures Val(t) == 10 * DigitOf(t[0]) + DigitOf(t[1])
  {
    assert t[..1][..0] == "";
    assert Val(t[..1]) == DigitOf(t[0]);
  }

  lemma WholeStaysWhole(n: int)
    ensures Rounded(Scan(n, 0, 0, false)) == n
  {
    assert PowerOfTen(0) == 1;
  }

  lemma TakesSecondsText(t: string, r: string)
    requires |t| == 2 && AllDigits(t)
    ensures TakeSeconds(t + r, 1, 2) == Some((Val(t), r))
  {
    hide Val, Rounded, ScanRun, DigitOf;
    ValOfTwo(t);
    ScansTwo(t, r);
    WholeStaysWhole(10 * DigitOf(t[0]) + DigitOf(t[1]));
    assert (t + r)[2..] == r;
  }

  lemma TwoIsTwo(n: nat)
    requires n < 100
    ensures |Two(n)| == 2 && AllDigits(Two(n)) && Val(Two(n)) == n
  {
    hide Val, Digits;
    PaddedNumber(n, 2);
    DigitsLength(n);
  }

  lemma ScansTwo(t: string, r: string)
    requires |t| == 2 && AllDigits(t)
    ensures ScanRun(t + r, 2, START) == (Scan(10 * DigitOf(t[0]) + DigitOf(t[1]), 0, 0, false), 2)
  {
    var a := Scanned(START, t[0]);
    assert (t + r)[1..] == [t[1]] + r;
    assert ([t[1]] + r)[1..] == r;
    assert ScanRun([t[1]] + r, 1, a) == (Scanned(a, t[1]), 1);
  }

  lemma TakesChar(c: char, r: string)
    ensures TakeChar([c] + r, c) == Some(r)
  {
    assert ([c] + r)[1..] == r;
  }

  lemma TimeReadsBack(ymd: Date, tod: int)
    requires 0 <= tod < 86400
    ensures var h, m, s := tod / 3600, tod / 60 % 60, tod % 60;
      TakeTime(ymd, TimeText(tod)) == Some((Fields(ymd, h, m, s), "Z"))
      && 0 <= h < 24 && tod == h * 3600 + m * 60 + s
  {
    var h, m, s := tod / 3600, tod / 60 % 60, tod % 60;
    QuotientIs(tod / 60, 60, h, tod / 60 - h * 60);
    hide Two, TakeUnsigned, TakeSeconds, TakeChar;
    var r3 := Two(s) + "Z";
    var r2 := ":" + r3;
    var r1 := Two(m) + r2;
    var r0 := ":" + r1;
    assert TimeText(tod) == Two(h) + r0;
    TakesTwo(h, r0);
    TakesChar(':', r1);
    TakesTwo(m, r2);
    TakesChar(':', r3);
    TakesTwo(s, "Z");
  }

  // ----- which years can be read back -----

  /** The years whose printed form is read as the same year. */
  predicate ReadableYear(y: int) {
    0 <= y <= 9999 || -9999 <= y <= -100
  }

  lemma ReadableYearReadsBack(y: int, r: string)
    requires ReadableYear(y)
    ensures TakeSigned(YearText(y) + ("-" + r), 1, 4) == Some((y, "-" + r))
  {
    hide Digits, Val, DigitRun, PadLeft;
    var after := "-" + r;
    if y >= 0 {
      PaddedNumber(y, 4);
      DigitsLength(y);
      TakesDigits(YearText(y), after, 4);
      assert IsDigit(YearText(y)[0]);
    } else {
      DigitsOfNumber(-y);
      DigitsLength(-y);
      SignedText(y);
      TakesDigits(Digits(-y), after, 4);
      assert ("-" + Digits(-y) + after)[1..] == Digits(-y) + after;
    }
  }

  lemma SignedText(y: int)
    requires y <= -100
    ensures YearText(y) == "-" + Digits(-y)
  {
    DigitsLength(-y);
  }

  lemma LongRunStops(ds: string, r: string)
    requires AllDigits(ds) && |ds| >= 5
    ensures TakeUnsigned(ds + r, 1, 4).Some? && TakeChar(TakeUnsigned(ds + r, 1, 4).value.1, '-').None?
  {
    var tail := ds[4..] + r;
    assert ds + r == ds[..4] + tail;
    TakesDigits(ds[..4], tail, 4);
    assert IsDigit(tail[0]);
  }

  lemma LongYearFails(y: int, r: string)
    requires y > 9999 || y < -9999
    ensures TakeDate(YearText(y) + r).None?
  {
    hide Digits, Val, DigitRun;
    if y > 0 {
      DigitsOfNumber(y);
      DigitsLength(y);
      assert YearText(y) == Digits(y) && IsDigit(Digits(y)[0]);
      LongRunStops(Digits(y), r);
    } else {
      DigitsOfNumber(-y);
      DigitsLength(-y);
      SignedText(y);
      assert ("-" + Digits(-y) + r)[1..] == Digits(-y) + r;
      LongRunStops(Digits(-y), r);
    }
  }

  /** A small negative year prints as zeros, a minus sign and one or two digits: the digits are taken for
      the month, the month for the day, and the `T` is not where it should be. */
  lemma SmallNegativeYearFails(y: int, month: int, r: string)
    requires -99 <= y <= -1 && 0 <= month < 100
    ensures TakeDate(YearText(y) + ("-" + (Two(month) + ("-" + r)))).Some?
    ensures TakeChar(TakeDate(YearText(y) + ("-" + (Two(month) + ("-" + r)))).value.1, 'T').None?
  {
    hide Digits, Val, DigitRun, TakeUnsigned, PadLeft;
    ZerosThenSign(y);
    var ds := Digits(-y);
    var zeros := Zeros(3 - |ds|);
    var s3 := "-" + r;
    var s2 := Two(month) + s3;
    var s1 := ds + ("-" + s2);
    assert YearText(y) + ("-" + s2) == zeros + ("-" + s1);
    DigitsOfNumber(-y);
    DigitsLength(-y);
    TakesDigits(zeros, "-" + s1, 4);
    TakesChar('-', s1);
    TakesDigits(ds, "-" + s2, 2);
    TakesChar('-', s2);
    TakesTwo(month, s3);
  }

  lemma ZerosThenSign(y: int)
    requires -99 <= y <= -1
    ensures 1 <= |Digits(-y)| <= 2 && YearText(y) == Zeros(3 - |Digits(-y)|) + ("-" + Digits(-y))
  {
    DigitsLength(-y);
  }

  // ----- printing and reading are inverse -----

  /** The Gregorian year of the day an instant lies in. */
  function YearOf(t: int): int {
    G.FromDays(t / 86400).year
  }

  lemma DateReadsBack(d: Date, r: string)
    requires G.Valid(d) && ReadableYear(d.year)
    ensures TakeDate(YearText(d.year) + ("-" + (Two(d.month) + ("-" + (Two(d.day) + r))))) == Some((d, r))
  {
    hide Two, TakeUnsigned, TakeSigned, YearText;
    var s3 := Two(d.day) + r;
    var s2 := "-" + s3;
    var s1 := Two(d.month) + s2;
    ReadableYearReadsBack(d.year, s1);
    TakesChar('-', s1);
    TakesTwo(d.month, s2);
    TakesChar('-', s3);
    TakesTwo(d.day, r);
  }

  lemma PrintedForm(t: int)
    ensures var d := G.FromDays(t / 86400);
      G.Valid(d) && Print(t) == YearText(d.year) + ("-" + (Two(d.month) + ("-" + (Two(d.day) + ("T" + TimeText(t % 86400))))))
  {
    hide G.FromDays, G.ToDays, SplitDay, YearText, Two, TimeText;
    SplitDayFloors(t);
    G.DaysRoundTrip(t / 86400);
  }

  lemma FieldsReadBack(t: int)
    requires ReadableYear(YearOf(t))
    ensures var tod := t % 86400;
      TakeFields(Print(t)) == Some(Fields(G.FromDays(t / 86400), tod / 3600, tod / 60 % 60, tod % 60))
  {
    hide TakeDate, TakeTime, YearText, Two, TimeText, Print, G.FromDays, G.Valid, TakeChar;
    var d := G.FromDays(t / 86400);
    PrintedForm(t);
    DateReadsBack(d, "T" + TimeText(t % 86400));
    TakesChar('T', TimeText(t % 86400));
    TimeReadsBack(d, t % 86400);
    TakesChar('Z', "");
    assert ['Z'] + "" == "Z";
  }

  /** A printed instant is read back as itself exactly when its year is readable, and otherwise not at all. */
  lemma PrintParse(t: int)
    ensures Parse(Print(t)) == if ReadableYear(YearOf(t)) then Some(t) else None
  {
    hide TakeFields, Print, G.FromDays, G.ToDays, YearText, TakeDate, Two, TimeText, G.LastDay;
    var d := G.FromDays(t / 86400);
    G.DaysRoundTrip(t / 86400);
    if ReadableYear(d.year) {
      FieldsReadBack(t);
      TimeReadsBack(d, t % 86400);
    } else {
      UnreadableFails(t);
    }
  }

  lemma UnreadableFails(t: int)
    requires !ReadableYear(YearOf(t))
    ensures TakeFields(Print(t)).None?
  {
    hide Print, G.FromDays, YearText, TakeDate, Two, TimeText, G.LastDay;
    var d := G.FromDays(t / 86400);
    PrintedForm(t);
    var r := Two(d.day) + ("T" + TimeText(t % 86400));
    if -99 <= d.year <= -1 {
      SmallNegativeYearFails(d.year, d.month, r);
    } else {
      LongYearFails(d.year, "-" + (Two(d.month) + ("-" + r)));
    }
  }

  /** Going back 24 hours from a valid timestamp: the answer is a valid timestamp exactly when the previous
      day's year is readable, and then it denotes exactly 86400 seconds earlier. */
  lemma DayAgoIsDayAgo(date: string)
    requires IsDateValid(date)
    ensures var before := Parse(date).value - 86400;
      && (IsDateValid(Date24HAgo(date)) <==> ReadableYear(YearOf(before)))
      && (IsDateValid(Date24HAgo(date)) ==> Parse(Date24HAgo(date)) == Some(before))
  {
    hide Parse, Print;
    PrintParse(Parse(date).value - 86400);
  }

  /** A concrete failing input: midnight of 0000-01-01 is valid, and the day before it is printed unreadably. */
  lemma YearZeroFails()
    ensures var s := Print(G.ToDays(Date(0, 1, 1)) * 86400); IsDateValid(s) && !IsDateValid(Date24HAgo(s))
  {
    hide Parse, Print, G.ToDays, G.FromDays;
    var eve := Date(-1, 12, 31);
    var t := G.ToDays(Date(0, 1, 1)) * 86400;
    G.NextDayIsNext(eve);
    G.DateRoundTrip(eve);
    G.DateRoundTrip(Date(0, 1, 1));
    QuotientIs(t, 86400, G.ToDays(Date(0, 1, 1)), 0);
    QuotientIs(t - 86400, 86400, G.ToDays(eve), 0);
    PrintParse(t);
    DayAgoIsDayAgo(Print(t));
  }
}
