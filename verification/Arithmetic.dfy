/**
 Facts about products, quotients and powers, stated so that a proof can name them.
 */
module Arithmetic {

  lemma Assoc(a: int, b: int, c: int)
    ensures a * (b * c) == a * b * c
  {
  }

  lemma Distrib(a: int, b: int, c: int)
    ensures (a + b) * c == a * c + b * c
  {
  }

  lemma NonNeg(a: int, b: int)
    requires a >= 0 && b >= 0
    ensures a * b >= 0
  {
  }

  lemma MulMono(a: int, b: int, c: int)
    requires a <= b && c >= 0
    ensures a * c <= b * c
  {
    Distrib(a, b - a, c);
    NonNeg(b - a, c);
  }

  lemma DivUnique(b: int, s: int, q: int, r: int)
    requires s > 0 && 0 <= r < s && b == s * q + r
    ensures q == b / s && r == b % s
  {
    var q1, r1 := b / s, b % s;
    assert b == s * q1 + r1 && 0 <= r1 < s;
    Distrib(q, -q1, s);
    if q < q1 { MulMono(1, q1 - q, s); Distrib(q1, -q, s); } else if q1 < q { MulMono(1, q - q1, s); }
  }

  function Power(b: nat, n: nat): (p: nat)
    ensures b > 0 ==> p > 0
  {
    if n == 0 then 1 else NonNeg(b, Power(b, n - 1)); b * Power(b, n - 1)
  }

  lemma {:induction false} PowerAdd(b: nat, m: nat, n: nat)
    ensures Power(b, m + n) == Power(b, m) * Power(b, n)
  {
    if m > 0 {
      PowerAdd(b, m - 1, n);
      Assoc(b, Power(b, m - 1), Power(b, n));
    }
  }

  lemma {:induction false} PowerSquare(b: nat, n: nat)
    ensures Power(b, 2 * n) == Power(b * b, n)
  {
    if n > 0 {
      PowerSquare(b, n - 1);
      assert Power(b, 2 * n) == b * (b * Power(b, 2 * n - 2));
      Assoc(b, b, Power(b, 2 * n - 2));
    }
  }

  /** One round of repeated squaring. */
  lemma PowerHalf(b: nat, n: nat)
    ensures Power(b, n) == (if n % 2 == 1 then b else 1) * Power(b * b, n / 2)
  {
    PowerSquare(b, n / 2);
    if n % 2 == 1 { assert Power(b, n) == b * Power(b, 2 * (n / 2)); }
  }
}
