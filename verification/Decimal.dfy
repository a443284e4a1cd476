/** Decimal numbers as text. */
module Decimal {
  predicate IsDigit(c: char) {
    '0' <= c <= '9'
  }

  predicate AllDigits(s: string) {
    forall i :: 0 <= i < |s| ==> IsDigit(s[i])
  }

  function DigitChar(n: int): char
    requires 0 <= n < 10
  {
    '0' + n as char
  }

  function DigitOf(c: char): int {
    c as int - '0' as int
  }

  /** The number a run of digits stands for. */
  function Val(s: string): int {
    if s == "" then 0 else 10 * Val(s[..|s| - 1]) + DigitOf(s[|s| - 1])
  }

  /** The digits of `n`, without leading zeros. */
  function Digits(n: nat): string {
    if n < 10 then [DigitChar(n)] else Digits(n / 10) + [DigitChar(n % 10)]
  }

  /** An integer as the stream operators print it. */
  function Number(n: int): string {
    if n < 0 then "-" + Digits(-n) else Digits(n)
  }

  function Zeros(n: nat): string {
    seq(n, _ => '0')
  }

  /** `fill('0')`, `width(w)` and right adjustment. */
  function PadLeft(s: string, w: nat): string {
    if |s| < w then Zeros(w - |s|) + s else s
  }

  lemma {:induction false} DigitsOfNumber(n: nat)
    ensures Val(Digits(n)) == n && AllDigits(Digits(n)) && |Digits(n)| >= 1
    decreases n
  {
    if n >= 10 {
      DigitsOfNumber(n / 10);
      assert Digits(n)[..|Digits(n)| - 1] == Digits(n / 10);
    } else {
      assert Digits(n)[..0] == "";
    }
  }

  lemma DigitsLength(n: nat)
    ensures n < 10 <==> |Digits(n)| == 1
    ensures 10 <= n < 100 <==> |Digits(n)| == 2
    ensures 100 <= n < 1000 <==> |Digits(n)| == 3
    ensures 1000 <= n < 10000 <==> |Digits(n)| == 4
    ensures n >= 10000 <==> |Digits(n)| >= 5
  {
    DigitsLonger(n);
    if n >= 10 {
      DigitsLonger(n / 10);
      if n >= 100 {
        DigitsLonger(n / 10 / 10);
        if n >= 1000 {
          DigitsLonger(n / 10 / 10 / 10);
        }
      }
    }
  }

  lemma DigitsLonger(n: nat)
    ensures n < 10 ==> |Digits(n)| == 1
    ensures n >= 10 ==> |Digits(n)| == |Digits(n / 10)| + 1 >= 2
  {
  }

  lemma ValOfConcat(s: string, c: char)
    ensures Val(s + [c]) == 10 * Val(s) + DigitOf(c)
  {
    assert (s + [c])[..|s|] == s;
  }

  lemma {:induction false} LeadingZeros(k: nat, s: string)
    ensures Val(Zeros(k) + s) == Val(s)
    decreases k + |s|
  {
    if s == "" {
      assert Zeros(k) + s == Zeros(k);
      if k > 0 {
        LeadingZeros(k - 1, "");
        assert Zeros(k - 1) + "" == Zeros(k - 1);
        assert Zeros(k)[..k - 1] == Zeros(k - 1);
      }
    } else {
      LeadingZeros(k, s[..|s| - 1]);
      assert (Zeros(k) + s)[..k + |s| - 1] == Zeros(k) + s[..|s| - 1];
    }
  }

  /** A number printed with padding: digits only, at least `w` of them, same value. */
  lemma PaddedNumber(n: nat, w: nat)
    ensures Val(PadLeft(Digits(n), w)) == n && AllDigits(PadLeft(Digits(n), w))
    ensures |PadLeft(Digits(n), w)| == if |Digits(n)| < w then w else |Digits(n)|
    ensures |PadLeft(Digits(n), w)| >= 1
  {
    DigitsOfNumber(n);
    if |Digits(n)| < w {
      LeadingZeros(w - |Digits(n)|, Digits(n));
    }
  }
}
