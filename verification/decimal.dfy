/** Decimal digit strings and Go integer helpers: the value `fmt.Sscanf("%d")`
    reads from a run of ASCII digits, the text `strconv.Itoa` writes, and Go's
    integer division, which truncates toward zero. */
module Decimal {

  predicate IsDigit(c: char) {
    '0' <= c <= '9'
  }

  predicate AllDigits(s: string) {
    forall i :: 0 <= i < |s| ==> IsDigit(s[i])
  }

  /** A digit string as `strconv.Itoa` writes it: non-empty, no leading zero. */
  predicate Canonical(s: string) {
    && s != []
    && AllDigits(s)
    && (s[0] != '0' || |s| == 1)
  }

  function DigitValue(c: char): (d: nat)
    requires IsDigit(c)
    ensures d < 10
  {
    c as int - '0' as int
  }

  function DigitChar(d: nat): (c: char)
    requires d < 10
    ensures IsDigit(c) && DigitValue(c) == d
  {
    ('0' as int + d) as char
  }

  /** The number a digit string denotes; leading zeros are allowed and the
      empty string reads as 0. */
  function DigitsValue(s: string): nat
    requires AllDigits(s)
  {
    if s == [] then 0 else DigitsValue(s[..|s| - 1]) * 10 + DigitValue(s[|s| - 1])
  }

  /** `strconv.Itoa` for a non-negative value. */
  function NatToDecimal(n: nat): (r: string)
    ensures Canonical(r)
    ensures DigitsValue(r) == n
  {
    if n < 10 then [DigitChar(n)]
    else
      var high := NatToDecimal(n / 10);
      var r := high + [DigitChar(n % 10)];
      assert r[..|r| - 1] == high;
      r
  }

  /** `strconv.Itoa` for any Go int: a minus sign, then the magnitude. */
  function IntToDecimal(i: int): (r: string)
    ensures i >= 0 ==> Canonical(r) && DigitsValue(r) == i
    ensures i < 0 ==> |r| >= 2 && r[0] == '-' && Canonical(r[1..]) && DigitsValue(r[1..]) == -i
  {
    if i < 0 then "-" + NatToDecimal(-i) else NatToDecimal(i)
  }

  lemma {:induction false} CanonicalPositive(s: string)
    requires Canonical(s) && s[0] != '0'
    ensures DigitsValue(s) >= 1
  {
    if |s| == 1 {
    } else {
      var init := s[..|s| - 1];
      assert init[0] == s[0];
      CanonicalPositive(init);
    }
  }

  /** Reading back what `NatToDecimal` wrote is the identity on canonical
      digit strings, so the two are inverse bijections between nat and
      canonical strings. */
  lemma {:induction false} DecimalRoundTrip(s: string)
    requires Canonical(s)
    ensures NatToDecimal(DigitsValue(s)) == s
  {
    var n := DigitsValue(s);
    if |s| == 1 {
      assert s[..|s| - 1] == [];
      assert DigitsValue(s[..|s| - 1]) == 0;
      assert n == DigitValue(s[0]);
      assert [DigitChar(n)] == s;
    } else {
      var init := s[..|s| - 1];
      assert init[0] == s[0];
      assert s[0] != '0';
      assert Canonical(init);
      CanonicalPositive(init);
      assert n == DigitsValue(init) * 10 + DigitValue(s[|s| - 1]);
      assert n / 10 == DigitsValue(init);
      assert n % 10 == DigitValue(s[|s| - 1]);
      DecimalRoundTrip(init);
      assert s == init + [s[|s| - 1]];
    }
  }

  function Abs(x: int): nat {
    if x < 0 then -x else x
  }

  /** Go's `a / b` on ints: the quotient truncated toward zero. Dafny's own
      `/` is Euclidean (the remainder is never negative), so it is one step
      off when `a` is negative and the division is not exact. */
  function GoDiv(a: int, b: int): (q: int)
    requires b != 0
    ensures Abs(a - q * b) < Abs(b)
    ensures a - q * b == 0 || (a - q * b < 0 <==> a < 0)
    ensures a >= 0 && b > 0 ==> q == a / b
  {
    var q := a / b;
    var r := a % b;
    assert a == q * b + r && 0 <= r < Abs(b);
    if a >= 0 || r == 0 then q
    else if b > 0 then
      assert (q + 1) * b == q * b + b;
      q + 1
    else
      assert (q - 1) * b == q * b - b;
      q - 1
  }

  /** Multiplying by a positive number and dividing by it again is the
      identity. */
  lemma MulDiv(c: int, t: int)
    requires c >= 0 && t > 0
    ensures (c * t) / t == c
  {
    var q := (c * t) / t;
    assert q * t <= c * t < (q + 1) * t;
    MulCancel(q, c + 1, t);
    MulCancel(c, q + 1, t);
  }

  /** A quotient of a non-negative number is bounded by any c with a <= c*b. */
  lemma DivAtMost(a: int, b: int, c: int)
    requires 0 <= a && b > 0 && a <= c * b
    ensures a / b <= c
  {
  }

  /** A quotient of a non-negative number is below any c with a < c*b. */
  lemma DivBelow(a: int, b: int, c: int)
    requires 0 <= a && b > 0 && a < c * b
    ensures a / b < c
  {
  }

  lemma MulCancel(x: int, y: int, d: int)
    requires d > 0 && x * d < y * d
    ensures x < y
  {
  }

  /** Division by a positive number is monotone in the numerator. */
  lemma DivMonotone(a: int, a': int, d: int)
    requires 0 <= a <= a' && d > 0
    ensures a / d <= a' / d
  {
    var q, q' := a / d, a' / d;
    assert q * d <= a;
    assert a' < (q' + 1) * d;
    MulCancel(q, q' + 1, d);
  }

  /** Division of a non-negative number is antitone in a positive divisor. */
  lemma DivAntitone(a: int, d: int, d': int)
    requires 0 <= a && 0 < d' <= d
    ensures a / d <= a / d'
  {
    var q, q' := a / d, a / d';
    assert 0 <= q;
    assert q * d' <= q * d <= a;
    assert a < (q' + 1) * d';
    MulCancel(q, q' + 1, d');
  }
}
