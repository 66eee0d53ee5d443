/** Decimal numbers as `printf` writes and `sscanf` reads them. */
module Decimal {
  import opened Modular

  predicate IsDigit(c: char) {
    '0' <= c <= '9'
  }

  function Digit(n: nat): char
    requires n < 10
  {
    ['0', '1', '2', '3', '4', '5', '6', '7', '8', '9'][n]
  }

  function DigitValue(c: char): nat
    requires IsDigit(c)
  {
    (c as int) - ('0' as int)
  }

  predicate AllDigits(s: string) {
    forall i :: 0 <= i < |s| ==> IsDigit(s[i])
  }

  /** `%zu` */
  function Dec(n: nat): (s: string)
    ensures |s| > 0
  {
    if n < 10 then [Digit(n)] else Dec(n / 10) + [Digit(n % 10)]
  }

  /** `%d` */
  function Int(n: int): string {
    if n < 0 then "-" + Dec(-n) else Dec(n)
  }

  function DecValue(s: string): nat
    requires AllDigits(s)
  {
    if s == [] then 0 else 10 * DecValue(s[..|s| - 1]) + DigitValue(s[|s| - 1])
  }

  lemma DigitIs(n: nat)
    requires n < 10
    ensures IsDigit(Digit(n)) && DigitValue(Digit(n)) == n
    ensures Digit(n) == '0' <==> n == 0
  {
  }

  /** A printed number is digits without a leading zero, and reads back as itself. */
  lemma {:induction false} DecIs(n: nat)
    ensures AllDigits(Dec(n)) && DecValue(Dec(n)) == n
    ensures Dec(n)[0] == '0' ==> n == 0 && |Dec(n)| == 1
  {
    if n < 10 {
      DigitIs(n);
      assert Dec(n)[..0] == [];
    } else {
      DecIs(n / 10);
      DigitIs(n % 10);
      assert Dec(n)[..|Dec(n)| - 1] == Dec(n / 10);
    }
  }

  function PowerOfTen(k: nat): (p: nat)
    ensures p > 0
  {
    if k == 0 then 1 else 10 * PowerOfTen(k - 1)
  }

  /** The value of a text of digits, leading zeros or not: each digit counts ten times what it would
      one place to the right. */
  lemma {:induction false} DecValueConcat(a: string, b: string)
    requires AllDigits(a) && AllDigits(b)
    ensures DecValue(a + b) == DecValue(a) * PowerOfTen(|b|) + DecValue(b)
    ensures |b| == 1 ==> DecValue(b) == (b[0] as int) - ('0' as int)
  {
    hide DigitValue;
    if b == [] {
      assert a + b == a;
    } else {
      var n := |b| - 1;
      DecValueConcat(a, b[..n]);
      assert (a + b)[..|a + b| - 1] == a + b[..n];
      TenTimes(DecValue(a), PowerOfTen(n), DecValue(b[..n]), DigitValue(b[n]));
      if n == 0 {
        LastDigit(b);
      }
    }
  }

  lemma TenTimes(v: nat, p: nat, w: nat, d: nat)
    ensures 10 * (v * p + w) + d == v * (10 * p) + (10 * w + d)
  {
  }

  lemma LastDigit(b: string)
    requires |b| == 1 && AllDigits(b)
    ensures DecValue(b) == (b[0] as int) - ('0' as int)
  {
    assert DecValue(b[..0]) == 0;
  }

  /** Character `i` of a printed number is the digit of its place. */
  lemma {:induction false} DecPlaces(n: nat, i: nat)
    requires i < |Dec(n)|
    ensures (Dec(n)[i] as int) - ('0' as int) == n / PowerOfTen(|Dec(n)| - 1 - i) % 10
  {
    var k := |Dec(n)| - 1 - i;
    if k == 0 {
      DigitIs(n % 10);
      assert Dec(n)[i] == Digit(n % 10) && n / PowerOfTen(0) == n;
    } else {
      assert Dec(n) == Dec(n / 10) + [Digit(n % 10)];
      DecPlaces(n / 10, i);
      DivTwice(n, PowerOfTen(k - 1));
    }
  }

  /** It has as many digits as it takes. */
  lemma {:induction false} DecLength(n: nat)
    ensures n < PowerOfTen(|Dec(n)|) && (n > 0 ==> PowerOfTen(|Dec(n)| - 1) <= n)
  {
    if n < 10 {
      assert PowerOfTen(1) == 10 && PowerOfTen(0) == 1;
    } else {
      DecLength(n / 10);
      assert |Dec(n)| == |Dec(n / 10)| + 1;
    }
  }

  lemma DivTwice(n: nat, p: nat)
    requires p > 0
    ensures n / 10 / p == n / (10 * p)
  {
    var m := n / 10;
    var q, r := m / p, m % p;
    assert n == q * (10 * p) + (10 * r + n % 10) by {
      assert m == q * p + r && n == 10 * m + n % 10;
      assert 10 * (q * p) == q * (10 * p);
    }
    DivUnique(q, 10 * r + n % 10, 10 * p);
  }

  /** The longest prefix of digits. */
  function Digits(s: string): (k: nat)
    ensures k <= |s| && AllDigits(s[..k])
  {
    if s == [] || !IsDigit(s[0]) then 0
    else
      var k := 1 + Digits(s[1..]);
      assert s[..k] == [s[0]] + s[1..][..k - 1];
      k
  }

  predicate StartsWithDigit(s: string) {
    |s| > 0 && IsDigit(s[0])
  }

  lemma {:induction false} DigitsIs(s: string, r: string)
    requires AllDigits(s) && !StartsWithDigit(r)
    ensures Digits(s + r) == |s|
  {
    if s == [] {
      assert s + r == r;
    } else {
      DigitsIs(s[1..], r);
      assert (s + r)[1..] == s[1..] + r;
    }
  }
}
