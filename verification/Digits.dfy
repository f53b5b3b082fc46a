/** Decimal digit strings and the numbers they denote. */
module Digits {

  predicate IsDigit(c: char) {
    '0' <= c <= '9'
  }

  predicate AllDigits(s: string) {
    forall i :: 0 <= i < |s| ==> IsDigit(s[i])
  }

  function DigitValue(c: char): (d: nat)
    requires IsDigit(c)
    ensures d <= 9
  {
    c as int - '0' as int
  }

  function DigitChar(d: nat): (c: char)
    requires d <= 9
    ensures IsDigit(c) && DigitValue(c) == d
  {
    (d + '0' as int) as char
  }

  function Value(s: string): nat
    requires AllDigits(s)
  {
    if s == [] then 0 else Value(s[..|s| - 1]) * 10 + DigitValue(s[|s| - 1])
  }

  function Numeral(n: nat): (s: string)
    ensures 0 < |s| && AllDigits(s)
  {
    if n < 10 then [DigitChar(n)] else Numeral(n / 10) + [DigitChar(n % 10)]
  }

  function Pow10(n: nat): (p: nat)
    ensures 0 < p
  {
    if n == 0 then 1 else 10 * Pow10(n - 1)
  }

  lemma {:induction false} NumeralDenotes(n: nat)
    ensures Value(Numeral(n)) == n
  {
    if 10 <= n {
      NumeralDenotes(n / 10);
      assert Numeral(n)[..|Numeral(n)| - 1] == Numeral(n / 10);
    }
  }

  lemma {:induction false} ValueOfJoin(a: string, b: string)
    requires AllDigits(a) && AllDigits(b)
    ensures AllDigits(a + b)
    ensures Value(a + b) == Value(a) * Pow10(|b|) + Value(b)
  {
    if b == [] {
      assert a + b == a;
    } else {
      var init := b[..|b| - 1];
      ValueOfJoin(a, init);
      assert (a + b)[..|a + b| - 1] == a + init;
      TimesTen(Value(a), Pow10(|init|), Value(init));
    }
  }

  lemma TimesTen(x: int, p: int, y: int)
    ensures (x * p + y) * 10 == x * (10 * p) + y * 10
  {
  }

  lemma {:induction false} ValueBound(s: string)
    requires AllDigits(s)
    ensures Value(s) < Pow10(|s|)
  {
    if s != [] {
      ValueBound(s[..|s| - 1]);
    }
  }

  lemma LeadingDigit(d: nat, p: nat, r: nat)
    requires d <= 9 && r < p
    ensures 10 * p <= 2 * (d * p + r) <==> 5 <= d
  {
    if 5 <= d {
      assert d * p == 5 * p + (d - 5) * p;
    } else {
      assert 4 * p == d * p + (4 - d) * p;
    }
  }

  lemma ValueOfDigit(c: char)
    requires IsDigit(c)
    ensures Value([c]) == DigitValue(c)
  {
    assert Value([]) == 0;
    assert [c][..0] == [];
  }

  /** A fraction is at least a half exactly when its first digit is at least five. */
  lemma HalfIsFirstDigit(f: string)
    requires AllDigits(f)
    ensures Pow10(|f|) <= 2 * Value(f) <==> f != [] && 5 <= DigitValue(f[0])
  {
    if f != [] {
      var rest := f[1..];
      assert f == [f[0]] + rest;
      ValueOfJoin([f[0]], rest);
      ValueBound(rest);
      ValueOfDigit(f[0]);
      LeadingDigit(DigitValue(f[0]), Pow10(|rest|), Value(rest));
      hide Value;
    }
  }

  /** a / b rounded to the nearest integer, halves up. */
  function HalfUp(a: nat, b: nat): nat
    requires 0 < b
  {
    (2 * a + b) / (2 * b)
  }

  lemma SmallMultiple(k: int, d: int)
    requires 0 - d < k * d < d
    ensures k == 0
  {
  }

  lemma QuotientIs(x: nat, d: nat, q: nat)
    requires 0 < d && q * d <= x < q * d + d
    ensures x / d == q
  {
    var e := x / d;
    assert x == e * d + x % d;
    assert (q - e) * d == q * d - e * d;
    SmallMultiple(q - e, d);
  }

  lemma HalfUpOf(q: nat, b: nat, r: nat)
    requires r < b
    ensures HalfUp(q * b + r, b) == q + if b <= 2 * r then 1 else 0
  {
    var up := if b <= 2 * r then 1 else 0;
    var x := 2 * (q * b + r) + b;
    assert (q + up) * (2 * b) == 2 * (q * b) + up * (2 * b);
    QuotientIs(x, 2 * b, q + up);
  }
}
