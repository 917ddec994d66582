/** Decimal integers, as `%d` and `std::to_string` print them and as digit loops read them. */
module Decimal {

  predicate IsDigit(c: char) { '0' <= c <= '9' }

  predicate AllDigits(s: string) { forall k :: 0 <= k < |s| ==> IsDigit(s[k]) }

  function DigitValue(c: char): nat
    requires IsDigit(c)
  {
    c as int - '0' as int
  }

  function Digit(d: nat): (c: char)
    requires d < 10
    ensures IsDigit(c) && DigitValue(c) == d
  {
    ('0' as int + d) as char
  }

  function Digits(n: nat): (s: string)
    ensures |s| > 0 && AllDigits(s) && (n > 0 ==> s[0] != '0')
    ensures n == 0 ==> s == "0"
  {
    if n < 10 then [Digit(n)] else Digits(n / 10) + [Digit(n % 10)]
  }

  function Text(n: int): string {
    if n < 0 then "-" + Digits(-n) else Digits(n)
  }

  /** Reading digits left to right, starting from `acc`. */
  function Accumulate(s: string, acc: nat): nat
    requires AllDigits(s)
  {
    if |s| == 0 then acc else Accumulate(s[1..], acc * 10 + DigitValue(s[0]))
  }

  lemma {:induction false} AccumulateAppend(s: string, d: char, acc: nat)
    requires AllDigits(s) && IsDigit(d)
    ensures AllDigits(s + [d]) && Accumulate(s + [d], acc) == Accumulate(s, acc) * 10 + DigitValue(d)
  {
    if |s| == 0 {
      assert s + [d] == [d];
      assert Accumulate([d][1..], acc * 10 + DigitValue(d)) == acc * 10 + DigitValue(d);
    } else {
      AccumulateAppend(s[1..], d, acc * 10 + DigitValue(s[0]));
      assert (s + [d])[1..] == s[1..] + [d];
    }
  }

  /** Reading back what was printed. */
  lemma {:induction false} AccumulateDigits(n: nat)
    ensures Accumulate(Digits(n), 0) == n
  {
    if n < 10 {
      assert Digits(n)[1..] == "";
    } else {
      AccumulateDigits(n / 10);
      AccumulateAppend(Digits(n / 10), Digit(n % 10), 0);
    }
  }

  function Pow(k: nat): nat { if k == 0 then 1 else 10 * Pow(k - 1) }

  lemma {:induction false} DigitsLength(n: nat, k: nat)
    requires k > 0 && n < Pow(k)
    ensures |Digits(n)| <= k
  {
    if n >= 10 {
      DigitsLength(n / 10, k - 1);
    }
  }

  /** A leading run of digits. */
  function Run(t: string): (k: nat)
    ensures k <= |t| && AllDigits(t[..k]) && (k < |t| ==> !IsDigit(t[k]))
  {
    if |t| == 0 || !IsDigit(t[0]) then 0
    else
      var k := Run(t[1..]);
      assert t[..1 + k] == [t[0]] + t[1..][..k];
      1 + k
  }

  /** A text is its run of digits followed by something that is not a digit, in one way only. */
  lemma RunIs(s: string, rest: string)
    requires AllDigits(s) && (|rest| == 0 || !IsDigit(rest[0]))
    ensures Run(s + rest) == |s|
  {
    var t := s + rest;
    var k := Run(t);
    assert forall j :: 0 <= j < |s| ==> IsDigit(t[j]);
    assert forall j :: 0 <= j < k ==> t[j] == t[..k][j];
    assert |rest| > 0 ==> t[|s|] == rest[0];
  }
}
