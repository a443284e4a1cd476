/** The texts that are timestamps, told character by character: which ones are read and as what, and which ones
    are printed. */
module TimestampText {
  import opened Options
  import opened Dates
  import opened Decimal
  import opened Timestamp
  import G = Gregorian

  // ----- the grammar -----

  /** The pieces of a timestamp; `rest` is what follows the `Z`. */
  datatype Parts = Parts(sign: string, year: string, month: string, day: string,
                         hour: string, minute: string, second: string, rest: string)

  predicate DigitsUpTo(s: string, max: nat) {
    1 <= |s| <= max && AllDigits(s)
  }

  /** One or two characters, digits or one decimal point. */
  predicate SecondText(s: string) {
    1 <= |s| <= 2 && s != ".." && forall i :: 0 <= i < |s| ==> IsDigit(s[i]) || s[i] == '.'
  }

  predicate Shaped(p: Parts) {
    && p.sign in {"", "+", "-"} && DigitsUpTo(p.year, 4)
    && DigitsUpTo(p.month, 2) && DigitsUpTo(p.day, 2)
    && DigitsUpTo(p.hour, 2) && DigitsUpTo(p.minute, 2) && SecondText(p.second)
  }

  function DateText(sign: string, year: string, month: string, day: string, after: string): string {
    sign + (year + ("-" + (month + ("-" + (day + after)))))
  }

  function ClockText(hour: string, minute: string, second: string, after: string): string {
    hour + (":" + (minute + (":" + (second + after))))
  }

  function Text(p: Parts): string {
    DateText(p.sign, p.year, p.month, p.day, "T" + ClockText(p.hour, p.minute, p.second, "Z" + p.rest))
  }

  // ----- what the pieces stand for -----

  /** Whole digits count as they are; of a single digit after the point, only 6 to 9 round up to 1. */
  function SecondValue(s: string): int {
    if |s| == 2 && s[0] != '.' && s[1] != '.' then Val(s)
    else if |s| >= 1 && s[0] != '.' then DigitOf(s[0])
    else if |s| == 2 && DigitOf(s[1]) >= 6 then 1
    else 0
  }

  function DateValue(sign: string, year: string, month: string, day: string): Date {
    Date(if sign == "-" then -Val(year) else Val(year), Val(month), Val(day))
  }

  function PartsDate(p: Parts): Date {
    DateValue(p.sign, p.year, p.month, p.day)
  }

  /** The date and the time of day are those of the instant. */
  predicate Denotes(p: Parts, t: int) {
    && PartsDate(p) == G.FromDays(t / 86400)
    && Val(p.hour) == t % 86400 / 3600
    && Val(p.minute) == t % 86400 / 60 % 60
    && SecondValue(p.second) == t % 86400 % 60
  }

  /** A calendar date and a time of day. */
  predicate Proper(p: Parts) {
    && 1 <= Val(p.month) <= 12 && 1 <= Val(p.day) <= G.LastDay(PartsDate(p).year, Val(p.month))
    && Val(p.hour) < 24 && Val(p.minute) < 60 && SecondValue(p.second) < 60
  }

  // ----- seconds -----

  lemma ScanOne(c: char, r: string)
    ensures ScanRun([c] + r, 2, START) ==
            if Continues(START, c) then (ScanRun(r, 1, Scanned(START, c)).0, ScanRun(r, 1, Scanned(START, c)).1 + 1)
            else (START, 0)
  {
    assert ([c] + r)[1..] == r;
  }

  lemma ScanTwo(a: Scan, s: string)
    ensures ScanRun(s, 1, a) == if s != "" && Continues(a, s[0]) then (Scanned(a, s[0]), 1) else (a, 0)
  {
    if s != "" && Continues(a, s[0]) {
      assert ScanRun(s[1..], 0, Scanned(a, s[0])) == (Scanned(a, s[0]), 0);
    }
  }

  lemma RoundedShort(n: int, d: int, point: bool)
    requires 0 <= d < 10
    ensures Rounded(Scan(n, 0, 0, point)) == n
    ensures Rounded(Scan(0, d, 1, point)) == if d >= 6 then 1 else 0
  {
    assert PowerOfTen(0) == 1 && PowerOfTen(1) == 10;
  }

  lemma RoundOne(c: char)
    requires Continues(START, c)
    ensures Rounded(Scanned(START, c)) == SecondValue([c])
  {
    hide Rounded;
    if c == '.' {
      RoundedShort(0, 0, true);
    } else {
      RoundedShort(DigitOf(c), 0, false);
    }
  }

  lemma SecondValueOfTwo(c: char, d: char)
    ensures SecondValue([c, d]) == if c == '.' then (if DigitOf(d) >= 6 then 1 else 0)
                                   else if d == '.' then DigitOf(c) else Val([c, d])
  {
    hide Val;
  }

  lemma RoundPointDigit(d: char)
    requires IsDigit(d)
    ensures Rounded(Scanned(Scanned(START, '.'), d)) == SecondValue(['.', d])
  {
    hide Rounded, Val;
    RoundedShort(0, DigitOf(d), true);
  }

  lemma RoundDigitPoint(c: char)
    requires IsDigit(c)
    ensures Rounded(Scanned(Scanned(START, c), '.')) == SecondValue([c, '.'])
  {
    hide Rounded, Val;
    RoundedShort(DigitOf(c), 0, true);
  }

  lemma RoundTwoDigits(c: char, d: char)
    requires IsDigit(c) && IsDigit(d)
    ensures Rounded(Scanned(Scanned(START, c), d)) == SecondValue([c, d])
  {
    hide Rounded, Val, SecondValue;
    SecondValueOfTwo(c, d);
    ValOfTwo([c, d]);
    RoundedShort(10 * DigitOf(c) + DigitOf(d), 0, false);
  }

  lemma RoundTwo(c: char, d: char)
    requires Continues(START, c) && Continues(Scanned(START, c), d)
    ensures Rounded(Scanned(Scanned(START, c), d)) == SecondValue([c, d])
  {
    hide Rounded, Val, SecondValue;
    if c == '.' {
      RoundPointDigit(d);
    } else if d == '.' {
      RoundDigitPoint(c);
    } else {
      RoundTwoDigits(c, d);
    }
  }

  /** Up to two characters are read, as long as they continue a decimal number, and the value is theirs. */
  lemma SecondsRead(s: string)
    ensures TakeSeconds(s, 1, 2) ==
            if s == "" || !Continues(START, s[0]) then None
            else if |s| == 1 || !Continues(Scanned(START, s[0]), s[1]) then Some((SecondValue(s[..1]), s[1..]))
            else Some((SecondValue(s[..2]), s[2..]))
  {
    hide Rounded, ScanRun, SecondValue, Continues, Scanned;
    if s == "" {
      EmptyScan();
    } else {
      assert s == [s[0]] + s[1..] && s[..1] == [s[0]];
      ScanOne(s[0], s[1..]);
      ScanTwo(Scanned(START, s[0]), s[1..]);
      if Continues(START, s[0]) {
        RoundOne(s[0]);
        if |s| > 1 && Continues(Scanned(START, s[0]), s[1]) {
          RoundTwo(s[0], s[1]);
          assert s[..2] == [s[0], s[1]];
        }
      }
    }
  }

  lemma EmptyScan()
    ensures ScanRun("", 2, START) == (START, 0)
  {
  }

  /** Seconds before a `Z` are read whole. */
  lemma SecondsForward(sec: string, rest: string)
    requires SecondText(sec)
    ensures TakeSeconds(sec + ("Z" + rest), 1, 2) == Some((SecondValue(sec), "Z" + rest))
  {
    var s := sec + ("Z" + rest);
    hide TakeSeconds, SecondValue;
    SecondsRead(s);
    assert s[0] == sec[0] && s[|sec|] == 'Z' && s[..|sec|] == sec && s[|sec|..] == "Z" + rest;
    assert |sec| == 2 ==> s[1] == sec[1];
  }

  lemma SecondsInverse(s: string) returns (sec: string)
    requires TakeSeconds(s, 1, 2).Some?
    ensures SecondText(sec) && s == sec + TakeSeconds(s, 1, 2).value.1 && TakeSeconds(s, 1, 2).value.0 == SecondValue(sec)
  {
    hide TakeSeconds, SecondValue;
    SecondsRead(s);
    sec := s[..|s| - |TakeSeconds(s, 1, 2).value.1|];
  }

  // ----- numbers -----

  lemma UnsignedInverse(s: string, max: nat) returns (ds: string)
    requires TakeUnsigned(s, 1, max).Some?
    ensures DigitsUpTo(ds, max) && s == ds + TakeUnsigned(s, 1, max).value.1 && TakeUnsigned(s, 1, max).value.0 == Val(ds)
  {
    hide Val, DigitRun;
    ds := s[..DigitRun(s, max)];
  }

  lemma CharInverse(s: string, c: char)
    requires TakeChar(s, c).Some?
    ensures s == [c] + TakeChar(s, c).value
  {
  }

  lemma SignedForward(sign: string, ds: string, r: string)
    requires sign in {"", "+", "-"} && DigitsUpTo(ds, 4) && NoDigitFirst(r)
    ensures TakeSigned(sign + (ds + r), 1, 4) == Some((if sign == "-" then -Val(ds) else Val(ds), r))
  {
    hide TakeUnsigned, Val;
    TakesDigits(ds, r, 4);
    if sign == "" {
      assert sign + (ds + r) == ds + r && (ds + r)[0] == ds[0];
    } else {
      assert (sign + (ds + r))[1..] == ds + r;
    }
  }

  lemma SignedInverse(s: string) returns (sign: string, ds: string)
    requires TakeSigned(s, 1, 4).Some?
    ensures sign in {"", "+", "-"} && DigitsUpTo(ds, 4) && s == sign + (ds + TakeSigned(s, 1, 4).value.1)
    ensures TakeSigned(s, 1, 4).value.0 == if sign == "-" then -Val(ds) else Val(ds)
  {
    hide TakeUnsigned, Val;
    if s[0] in {'-', '+'} {
      sign := if s[0] == '-' then "-" else "+";
      ds := UnsignedInverse(s[1..], 4);
      assert s == sign + s[1..];
    } else {
      sign := "";
      ds := UnsignedInverse(s, 4);
      assert s == sign + s;
    }
  }

  // ----- dates and times of day -----

  lemma DateForward(sign: string, year: string, month: string, day: string, r: string)
    requires sign in {"", "+", "-"} && DigitsUpTo(year, 4) && DigitsUpTo(month, 2) && DigitsUpTo(day, 2) && NoDigitFirst(r)
    ensures TakeDate(DateText(sign, year, month, day, r)) == Some((DateValue(sign, year, month, day), r))
  {
    hide TakeUnsigned, TakeSigned, Val;
    var s2 := "-" + (day + r);
    var s1 := "-" + (month + s2);
    SignedForward(sign, year, s1);
    TakesChar('-', month + s2);
    TakesDigits(month, s2, 2);
    TakesChar('-', day + r);
    TakesDigits(day, r, 2);
  }

  lemma DateInverse(s: string) returns (sign: string, year: string, month: string, day: string)
    requires TakeDate(s).Some?
    ensures sign in {"", "+", "-"} && DigitsUpTo(year, 4) && DigitsUpTo(month, 2) && DigitsUpTo(day, 2)
    ensures s == DateText(sign, year, month, day, TakeDate(s).value.1)
    ensures TakeDate(s).value.0 == DateValue(sign, year, month, day)
  {
    hide TakeUnsigned, TakeSigned, TakeChar, Val;
    sign, year := SignedInverse(s);
    var s1 := TakeSigned(s, 1, 4).value.1;
    CharInverse(s1, '-');
    var s2 := TakeChar(s1, '-').value;
    month := UnsignedInverse(s2, 2);
    var s3 := TakeUnsigned(s2, 1, 2).value.1;
    CharInverse(s3, '-');
    day := UnsignedInverse(TakeChar(s3, '-').value, 2);
  }

  lemma ClockForward(ymd: Date, hour: string, minute: string, second: string, rest: string)
    requires DigitsUpTo(hour, 2) && DigitsUpTo(minute, 2) && SecondText(second)
    ensures TakeTime(ymd, ClockText(hour, minute, second, "Z" + rest)) ==
            Some((Fields(ymd, Val(hour), Val(minute), SecondValue(second)), "Z" + rest))
  {
    hide TakeUnsigned, TakeSeconds, Val, SecondValue;
    var s2 := ":" + (second + ("Z" + rest));
    var s1 := ":" + (minute + s2);
    TakesDigits(hour, s1, 2);
    TakesChar(':', minute + s2);
    TakesDigits(minute, s2, 2);
    TakesChar(':', second + ("Z" + rest));
    SecondsForward(second, rest);
  }

  lemma ClockInverse(ymd: Date, s: string) returns (hour: string, minute: string, second: string)
    requires TakeTime(ymd, s).Some?
    ensures DigitsUpTo(hour, 2) && DigitsUpTo(minute, 2) && SecondText(second)
    ensures s == ClockText(hour, minute, second, TakeTime(ymd, s).value.1)
    ensures TakeTime(ymd, s).value.0 == Fields(ymd, Val(hour), Val(minute), SecondValue(second))
  {
    hide TakeUnsigned, TakeSeconds, TakeChar, Val, SecondValue;
    hour := UnsignedInverse(s, 2);
    var s1 := TakeUnsigned(s, 1, 2).value.1;
    CharInverse(s1, ':');
    var s2 := TakeChar(s1, ':').value;
    minute := UnsignedInverse(s2, 2);
    var s3 := TakeUnsigned(s2, 1, 2).value.1;
    CharInverse(s3, ':');
    second := SecondsInverse(TakeChar(s3, ':').value);
  }

  // ----- whole timestamps -----

  function PartsFields(p: Parts): Fields {
    Fields(PartsDate(p), Val(p.hour), Val(p.minute), SecondValue(p.second))
  }

  lemma FieldsForward(p: Parts)
    requires Shaped(p)
    ensures TakeFields(Text(p)) == Some(PartsFields(p))
  {
    hide TakeDate, TakeTime, TakeChar, DateText, ClockText, DateValue, SecondValue, Val, SecondText;
    var clock := ClockText(p.hour, p.minute, p.second, "Z" + p.rest);
    DateForward(p.sign, p.year, p.month, p.day, "T" + clock);
    TakesChar('T', clock);
    ClockForward(PartsDate(p), p.hour, p.minute, p.second, p.rest);
    TakesChar('Z', p.rest);
  }

  lemma FieldsInverse(s: string) returns (p: Parts)
    requires TakeFields(s).Some?
    ensures Shaped(p) && s == Text(p) && TakeFields(s) == Some(PartsFields(p))
  {
    hide TakeDate, TakeTime, TakeChar, DateText, ClockText, DateValue, SecondValue, Val, SecondText;
    var sign, year, month, day := DateInverse(s);
    var (ymd, s1) := TakeDate(s).value;
    CharInverse(s1, 'T');
    var s2 := TakeChar(s1, 'T').value;
    var hour, minute, second := ClockInverse(ymd, s2);
    var s3 := TakeTime(ymd, s2).value.1;
    CharInverse(s3, 'Z');
    p := Parts(sign, year, month, day, hour, minute, second, TakeChar(s3, 'Z').value);
  }

  // ----- which texts are accepted, and as what -----

  lemma {:induction false} ValIsNatural(ds: string)
    requires AllDigits(ds)
    ensures Val(ds) >= 0 && (|ds| <= 4 ==> Val(ds) < 10000)
    decreases |ds|
  {
    if ds != "" {
      ValIsNatural(ds[..|ds| - 1]);
      ShortVal(ds);
    }
  }

  lemma {:induction false} ShortVal(ds: string)
    requires AllDigits(ds)
    ensures |ds| == 0 ==> Val(ds) == 0
    ensures |ds| == 1 ==> Val(ds) < 10
    ensures |ds| == 2 ==> Val(ds) < 100
    ensures |ds| == 3 ==> Val(ds) < 1000
    ensures |ds| == 4 ==> Val(ds) < 10000
    decreases |ds|
  {
    if ds != "" {
      ShortVal(ds[..|ds| - 1]);
    }
  }

  lemma ConventionalIsProper(p: Parts)
    requires Shaped(p)
    ensures Conventional(PartsFields(p)) <==> Proper(p)
    ensures Val(p.hour) >= 0 && Val(p.minute) >= 0 && SecondValue(p.second) >= 0
  {
    hide Val, G.LastDay;
    ValIsNatural(p.year);
    ValIsNatural(p.hour);
    ValIsNatural(p.minute);
    if |p.second| == 2 && p.second[0] != '.' && p.second[1] != '.' {
      ValIsNatural(p.second);
    }
  }

  /** The one instant that a proper text denotes. */
  lemma DenotesOne(p: Parts, t: int)
    requires Val(p.hour) >= 0 && Val(p.minute) >= 0 && SecondValue(p.second) >= 0
    ensures Denotes(p, t) <==>
            Proper(p) && t == G.ToDays(PartsDate(p)) * 86400 + Val(p.hour) * 3600 + Val(p.minute) * 60 + SecondValue(p.second)
  {
    hide Val, SecondValue, G.ToDays, G.FromDays, G.LastDay;
    var tod := Val(p.hour) * 3600 + Val(p.minute) * 60 + SecondValue(p.second);
    if Proper(p) && t == G.ToDays(PartsDate(p)) * 86400 + tod {
      G.DateRoundTrip(PartsDate(p));
      QuotientIs(t, 86400, G.ToDays(PartsDate(p)), tod);
      ClockSplits(tod, Val(p.hour), Val(p.minute), SecondValue(p.second));
    }
    if Denotes(p, t) {
      G.DaysRoundTrip(t / 86400);
      ClockJoins(t % 86400);
    }
  }

  lemma ClockSplits(tod: int, h: int, m: int, s: int)
    requires 0 <= m < 60 && 0 <= s < 60 && tod == h * 3600 + m * 60 + s && 0 <= h
    ensures tod / 3600 == h && tod / 60 % 60 == m && tod % 60 == s
  {
    QuotientIs(tod, 3600, h, m * 60 + s);
    QuotientIs(tod, 60, h * 60 + m, s);
    QuotientIs(h * 60 + m, 60, h, m);
  }

  lemma ClockJoins(tod: int)
    requires 0 <= tod < 86400
    ensures tod == tod / 3600 * 3600 + tod / 60 % 60 * 60 + tod % 60 && tod / 3600 < 24
  {
    QuotientIs(tod / 60, 60, tod / 3600, tod / 60 - tod / 3600 * 60);
  }

  /** A text is read as the instant `t` exactly when it has the form of a timestamp whose date and time of day
      are those of `t`. */
  lemma AcceptedTimestamps(s: string, t: int)
    ensures Parse(s) == Some(t) <==> exists p :: Shaped(p) && s == Text(p) && Denotes(p, t)
  {
    hide TakeFields, Shaped, Text, PartsFields, Conventional, Proper, Denotes;
    if Parse(s) == Some(t) {
      var p := FieldsInverse(s);
      ReadsAs(p, t);
    }
    if p :| Shaped(p) && s == Text(p) && Denotes(p, t) {
      FieldsForward(p);
      ReadsAs(p, t);
    }
  }

  lemma ReadsAs(p: Parts, t: int)
    requires Shaped(p) && TakeFields(Text(p)) == Some(PartsFields(p))
    ensures Parse(Text(p)) == Some(t) <==> Denotes(p, t)
    ensures IsDateValid(Text(p)) <==> Proper(p)
  {
    hide TakeFields, Shaped, Text, Conventional, Proper, Denotes;
    ConventionalIsProper(p);
    DenotesOne(p, t);
  }

  /** The texts accepted: those of the form of a timestamp with a calendar date and a time of day. */
  lemma ValidTimestamps(s: string)
    ensures IsDateValid(s) <==> exists p :: Shaped(p) && s == Text(p) && Proper(p)
  {
    hide TakeFields, Shaped, Text, PartsFields, Conventional, Proper, Denotes;
    if IsDateValid(s) {
      var p := FieldsInverse(s);
      ReadsAs(p, 0);
    }
    if p :| Shaped(p) && s == Text(p) && Proper(p) {
      FieldsForward(p);
      ReadsAs(p, 0);
    }
  }

  // ----- seconds of any width -----

  function NumberText(whole: string, fraction: string, point: bool): string {
    if point then whole + "." + fraction else whole
  }

  /** The scan takes the longest decimal number it may, and holds its digits before and after the point. */
  lemma {:induction false} ScanReads(s: string, max: nat, w: string, f: string, point: bool)
    returns (w': string, f': string, point': bool)
    requires AllDigits(w) && AllDigits(f) && (!point ==> f == "")
    ensures AllDigits(w') && AllDigits(f') && (!point' ==> f' == "")
    ensures var (b, k) := ScanRun(s, max, Scan(Val(w), Val(f), |f|, point));
      && k <= max && k <= |s|
      && b == Scan(Val(w'), Val(f'), |f'|, point')
      && NumberText(w', f', point') == NumberText(w, f, point) + s[..k]
      && (k < max && k < |s| ==> !IsDigit(s[k]) && (s[k] == '.' ==> point'))
    decreases max
  {
    hide Val, ScanRun, NumberText, AllDigits, Scanned;
    var a := Scan(Val(w), Val(f), |f|, point);
    ScanStep(s, max, a);
    if max == 0 || s == "" || !Continues(a, s[0]) {
      w', f', point' := w, f, point;
      assert NumberText(w, f, point) + s[..0] == NumberText(w, f, point);
    } else {
      var w1, f1, point1 := ReadOne(s[0], w, f, point);
      hide Continues;
      w', f', point' := ScanReads(s[1..], max - 1, w1, f1, point1);
      var k := ScanRun(s[1..], max - 1, Scanned(a, s[0])).1;
      assert s[..k + 1] == [s[0]] + s[1..][..k];
      assert NumberText(w, f, point) + [s[0]] + s[1..][..k] == NumberText(w, f, point) + s[..k + 1];
    }
  }

  lemma ScanStep(s: string, max: nat, a: Scan)
    ensures ScanRun(s, max, a) ==
            if max == 0 || s == "" || !Continues(a, s[0]) then (a, 0)
            else (ScanRun(s[1..], max - 1, Scanned(a, s[0])).0, ScanRun(s[1..], max - 1, Scanned(a, s[0])).1 + 1)
  {
  }

  lemma ReadOne(c: char, w: string, f: string, point: bool) returns (w': string, f': string, point': bool)
    requires AllDigits(w) && AllDigits(f) && (!point ==> f == "")
    requires Continues(Scan(Val(w), Val(f), |f|, point), c)
    ensures AllDigits(w') && AllDigits(f') && (!point' ==> f' == "")
    ensures Scanned(Scan(Val(w), Val(f), |f|, point), c) == Scan(Val(w'), Val(f'), |f'|, point')
    ensures NumberText(w', f', point') == NumberText(w, f, point) + [c]
  {
    hide Val;
    if c == '.' && !point {
      w', f', point' := w, f, true;
    } else if point {
      w', f', point' := w, f + [c], true;
      ValOfConcat(f, c);
    } else {
      w', f', point' := w + [c], f, false;
      ValOfConcat(w, c);
    }
  }

  /** The value read is the whole number nearest to the decimal number, and the even one of two equally near. */
  lemma RoundedIsNearest(a: Scan)
    ensures var (p, r) := (PowerOfTen(a.places), Rounded(a));
      var error := r * p - (a.whole * p + a.fraction);
      -p <= 2 * error <= p && (2 * error == p || 2 * error == -p ==> r % 2 == 0)
  {
    hide PowerOfTen;
    var p := PowerOfTen(a.places);
    var up := a.whole + a.fraction / p;
    assert up * p == a.whole * p + a.fraction / p * p;
    assert a.fraction == a.fraction / p * p + a.fraction % p;
    assert (up + 1) * p == up * p + p;
    if up % 2 == 1 {
      QuotientIs(up + 1, 2, up / 2 + 1, 0);
    }
  }

  // ----- printed texts -----

  /** `-MM-DDTHH:MM:SSZ`. */
  predicate FixedTail(s: string) {
    |s| == 16 && forall i :: 0 <= i < 16 ==>
      if i in {0, 3} then s[i] == '-' else if i == 6 then s[i] == 'T'
      else if i in {9, 12} then s[i] == ':' else if i == 15 then s[i] == 'Z' else IsDigit(s[i])
  }

  /** A year from 0 to 9999 is four digits, a later one its digits; before 0 the zeros that fill up four
      characters stand before the minus sign. */
  ghost predicate YearForm(text: string, year: int) {
    if year >= 0 then
      AllDigits(text) && Val(text) == year && |text| >= 4 && (|text| > 4 ==> text[0] != '0')
    else
      exists k: nat, ds: string :: text == Zeros(k) + ("-" + ds) && AllDigits(ds) && ds != "" && ds[0] != '0'
        && Val(ds) == -year && (if k > 0 then |text| == 4 else |text| >= 4)
  }

  lemma {:induction false} NoLeadingZero(n: nat)
    requires n > 0
    ensures Digits(n) != "" && Digits(n)[0] != '0'
    decreases n
  {
    if n >= 10 {
      NoLeadingZero(n / 10);
    }
  }

  lemma YearIsPrinted(y: int)
    ensures YearForm(YearText(y), y)
  {
    hide Val, Digits;
    if y >= 0 {
      PaddedNumber(y, 4);
      if |Digits(y)| > 4 {
        DigitsLength(y);
        NoLeadingZero(y);
      }
    } else {
      var ds := Digits(-y);
      DigitsOfNumber(-y);
      NoLeadingZero(-y);
      var k := if |ds| < 3 then 3 - |ds| else 0;
      assert YearText(y) == Zeros(k) + ("-" + ds);
    }
  }

  lemma TimeIsFixed(tod: int, month: int, day: int)
    requires 0 <= tod < 86400 && 0 <= month < 100 && 0 <= day < 100
    ensures FixedTail("-" + (Two(month) + ("-" + (Two(day) + ("T" + TimeText(tod))))))
  {
    hide Two, AllDigits;
    var h, m, s := tod / 3600, tod / 60 - tod / 3600 * 60, tod % 60;
    assert TimeText(tod) == Two(h) + (":" + (Two(m) + (":" + (Two(s) + "Z"))));
    TwoDigits(month);
    TwoDigits(day);
    TwoDigits(h);
    TwoDigits(m);
    TwoDigits(s);
  }

  lemma TwoDigits(n: int)
    requires 0 <= n < 100
    ensures |Two(n)| == 2 && IsDigit(Two(n)[0]) && IsDigit(Two(n)[1])
  {
    hide Two;
    TwoIsTwo(n);
  }

  /** Every printed instant is its year and 16 characters with the separators in their places. */
  lemma PrintedText(t: int)
    ensures |Print(t)| >= 20 && FixedTail(Print(t)[|Print(t)| - 16..])
    ensures YearForm(Print(t)[..|Print(t)| - 16], YearOf(t))
  {
    hide Print, G.FromDays, G.LastDay, YearText, Two, TimeText, FixedTail, Val;
    var d := G.FromDays(t / 86400);
    PrintedForm(t);
    MonthAndDayAreShort(d);
    TimeIsFixed(t % 86400, d.month, d.day);
    YearIsPrinted(d.year);
    var tail := "-" + (Two(d.month) + ("-" + (Two(d.day) + ("T" + TimeText(t % 86400)))));
    LongEnough(YearText(d.year), d.year, tail);
    assert Print(t)[..|YearText(d.year)|] == YearText(d.year) && Print(t)[|YearText(d.year)|..] == tail;
  }

  lemma MonthAndDayAreShort(d: Date)
    requires G.Valid(d)
    ensures 0 <= d.month < 100 && 0 <= d.day < 100
  {
  }

  lemma LongEnough(text: string, year: int, tail: string)
    requires YearForm(text, year) && FixedTail(tail)
    ensures |text| >= 4 && |tail| == 16
  {
  }

  /** What `Date24HAgo` answers looks like section 5.6 of RFC 3339 wants it: for a previous day in the years 0 to
      9999 it is 20 characters, with digits and separators in fixed places. */
  lemma DayAgoText(date: string)
    requires IsDateValid(date)
    ensures var (s, year) := (Date24HAgo(date), YearOf(Parse(date).value - 86400));
      && |s| >= 20 && FixedTail(s[|s| - 16..]) && YearForm(s[..|s| - 16], year)
      && (0 <= year <= 9999 ==> |s| == 20 && AllDigits(s[..4]) && Val(s[..4]) == year)
  {
    hide Parse, Print, FixedTail, Val;
    var t := Parse(date).value - 86400;
    PrintedText(t);
    if 0 <= YearOf(t) <= 9999 {
      FourDigits(Print(t)[..|Print(t)| - 16], YearOf(t));
    }
  }

  /** Without a leading zero five digits are at least 10000. */
  lemma FourDigits(text: string, year: int)
    requires YearForm(text, year) && 0 <= year <= 9999
    ensures |text| == 4 && AllDigits(text) && Val(text) == year
  {
    if |text| > 4 {
      LongVal(text);
    }
  }

  lemma {:induction false} LongVal(ds: string)
    requires AllDigits(ds) && ds != "" && ds[0] != '0'
    ensures Val(ds) >= 1 && (|ds| >= 2 ==> Val(ds) >= 10) && (|ds| >= 3 ==> Val(ds) >= 100)
    ensures (|ds| >= 4 ==> Val(ds) >= 1000) && (|ds| >= 5 ==> Val(ds) >= 10000)
    decreases |ds|
  {
    if |ds| > 1 {
      LongVal(ds[..|ds| - 1]);
    }
  }

  // ----- numbers of any width -----

  /** A number without a sign is read exactly as its longest run of digits within the greatest width, if that is
      not below the least width. */
  lemma UnsignedReads(s: string, m: nat, max: nat, x: int, rest: string)
    ensures TakeUnsigned(s, m, max) == Some((x, rest)) <==>
            exists ds :: AllDigits(ds) && m <= |ds| <= max && s == ds + rest && x == Val(ds)
                         && (|ds| == max || NoDigitFirst(rest))
  {
    hide Val, DigitRun;
    var k := DigitRun(s, max);
    if TakeUnsigned(s, m, max) == Some((x, rest)) {
      assert s == s[..k] + rest && |s[..k]| == k;
    }
    if ds :| AllDigits(ds) && m <= |ds| <= max && s == ds + rest && x == Val(ds) && (|ds| == max || NoDigitFirst(rest)) {
      RunOfDigits(ds, rest, max);
      assert s[..|ds|] == ds && s[|ds|..] == rest;
    }
  }

  ghost predicate SignedNumber(s: string, m: nat, max: nat, x: int, rest: string, sign: string, ds: string) {
    && sign in {"", "+", "-"} && AllDigits(ds) && 1 <= |ds| && m <= |ds| <= max && s == sign + (ds + rest)
    && x == (if sign == "-" then -Val(ds) else Val(ds)) && (|ds| == max || NoDigitFirst(rest))
  }

  lemma SignedNumberReads(s: string, m: nat, max: nat, x: int, rest: string, sign: string, ds: string)
    requires SignedNumber(s, m, max, x, rest, sign, ds)
    ensures TakeSigned(s, m, max) == Some((x, rest))
  {
    hide TakeUnsigned, Val;
    UnsignedReads(ds + rest, AtLeastOne(m), max, Val(ds), rest);
    if sign == "" {
      assert s == ds + rest && s[0] == ds[0];
    } else {
      assert s[1..] == ds + rest && s[0] == sign[0];
    }
  }

  lemma SignedNumberFound(s: string, m: nat, max: nat, x: int, rest: string) returns (sign: string, ds: string)
    requires TakeSigned(s, m, max) == Some((x, rest)) && s != "" && (s[0] in {'-', '+'} || IsDigit(s[0]))
    ensures SignedNumber(s, m, max, x, rest, sign, ds)
  {
    hide TakeUnsigned, Val, AllDigits;
    sign := if s[0] == '-' then "-" else if s[0] == '+' then "+" else "";
    var u := s[|sign|..];
    assert s == sign + u;
    var (y, r) := TakeUnsigned(u, AtLeastOne(m), max).value;
    UnsignedReads(u, AtLeastOne(m), max, y, r);
    ds :| AllDigits(ds) && AtLeastOne(m) <= |ds| <= max && u == ds + r && y == Val(ds) && (|ds| == max || NoDigitFirst(r));
  }

  /** An optional sign and then at least one digit, and as many as asked for; or, if none is asked for and there is
      neither, nothing at all. */
  lemma SignedReads(s: string, m: nat, max: nat, x: int, rest: string)
    ensures TakeSigned(s, m, max) == Some((x, rest)) <==>
            || (m == 0 && x == 0 && rest == s && (s == "" || (s[0] !in {'-', '+'} && !IsDigit(s[0]))))
            || exists sign, ds :: SignedNumber(s, m, max, x, rest, sign, ds)
  {
    hide TakeUnsigned, SignedNumber;
    if s == "" || (s[0] !in {'-', '+'} && !IsDigit(s[0])) {
    } else if TakeSigned(s, m, max) == Some((x, rest)) {
      var sign, ds := SignedNumberFound(s, m, max, x, rest);
    }
    if sign, ds :| SignedNumber(s, m, max, x, rest, sign, ds) {
      SignedNumberReads(s, m, max, x, rest, sign, ds);
    }
  }
}
