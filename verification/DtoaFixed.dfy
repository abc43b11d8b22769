/**
 The integer path of `dtoa` for a fixed number of digits, from the bits of a number to its decimal digits: the powers of
 two and five, the scaling, the check of the estimated exponent, the digits and their rounding.
 */
module DtoaFixed {

  import opened Arithmetic
  import opened Bignum
  import opened BigintOps
  import opened BigintDivision
  import opened DigitGeneration

  function Pos(i: int): nat { if i > 0 then i else 0 }

  // ----- the number, as a fraction -----

  /** The number `v * 2^e`, times ten to the `m`, is `Num` over `Den`. */
  function Num(v: int, e: int, m: int): int { v * Power(2, Pos(e)) * Ten(Pos(m)) }

  function Den(e: int, m: int): (d: int)
    ensures d > 0
  {
    DenPositive(e, m);
    Power(2, Pos(-e)) * Ten(Pos(-m))
  }

  lemma DenPositive(e: int, m: int)
    ensures Power(2, Pos(-e)) * Ten(Pos(-m)) > 0
  {
    MulMono(1, Power(2, Pos(-e)), Ten(Pos(-m)));
  }

  /** Ten to the `k` is the largest power of ten that is not above the number. */
  predicate Magnitude(v: int, e: int, k: int) { Den(e, -k) <= Num(v, e, -k) < 10 * Den(e, -k) }

  /** `p / q` is the number times ten to the `m`. */
  predicate Ratio(p: int, q: int, v: int, e: int, m: int) { q > 0 && p * Den(e, m) == Num(v, e, m) * q }

  /** The signs of linear forms agree on equal fractions. */
  lemma CrossSign(p: int, q: int, P: int, Q: int, a: int, b: int)
    requires q > 0 && Q > 0 && p * Q == P * q
    ensures a * p + b * q <= 0 <==> a * P + b * Q <= 0
    ensures a * p + b * q == 0 <==> a * P + b * Q == 0
  {
    var x, X := a * p + b * q, a * P + b * Q;
    CrossEqual(p, q, P, Q, a, b);
    Sign(x, Q);
    Sign(X, q);
  }

  lemma CrossEqual(p: int, q: int, P: int, Q: int, a: int, b: int)
    requires p * Q == P * q
    ensures (a * p + b * q) * Q == (a * P + b * Q) * q
  {
    Distrib(a * p, b * q, Q);
    Distrib(a * P, b * Q, q);
    Assoc(a, p, Q);
    Assoc(a, P, q);
    Assoc(b, q, Q);
    Assoc(b, Q, q);
  }

  lemma Sign(x: int, q: int)
    requires q > 0
    ensures x <= 0 <==> x * q <= 0
    ensures x == 0 <==> x * q == 0
  {
    if x > 0 { MulMono(1, x, q); } else if x < 0 { MulMono(x, -1, q); }
  }

  /** Equal fractions round alike. */
  lemma RatioRounds(n: int, p: int, q: int, v: int, e: int, m: int)
    requires Ratio(p, q, v, e, m)
    ensures RoundsTo(n, p, q) <==> RoundsTo(n, Num(v, e, m), Den(e, m))
  {
    hide Mul;
    var P, Q := Num(v, e, m), Den(e, m);
    hide Num, Den;
    Bounds(n, p, q);
    Bounds(n, P, Q);
    CrossSign(p, q, P, Q, 2, -1 - 2 * n);
    CrossSign(p, q, P, Q, -2, 2 * n - 1);
  }

  lemma Bounds(n: int, p: int, q: int)
    ensures 2 * Mul(q, n) - 2 * p - q == -2 * p + (2 * n - 1) * q
    ensures 2 * p - q - 2 * Mul(q, n) == 2 * p + (-1 - 2 * n) * q
  {
    hide Mul;
    MulIs(q, n);
    Distrib(2 * n, -1, q);
    Distrib(-2 * n, -1, q);
    Assoc(2, n, q);
    Assoc(-2, n, q);
  }

  lemma RatioMagnitude(p: int, q: int, v: int, e: int, k: int)
    requires Ratio(p, q, v, e, -k)
    ensures Magnitude(v, e, k) <==> q <= p < 10 * q
    ensures Den(e, -k) <= 10 * Num(v, e, -k) <==> q <= 10 * p
    ensures Num(v, e, -k) < 10 * Den(e, -k) <==> p < 10 * q
  {
    var P, Q := Num(v, e, -k), Den(e, -k);
    hide Num, Den;
    CrossSign(p, q, P, Q, -1, 1);
    CrossSign(p, q, P, Q, -10, 1);
    CrossSign(p, q, P, Q, -1, 10);
  }

  // ----- powers of ten -----

  lemma OneMore(v: int, e: int, m: int)
    ensures (Num(v, e, m + 1) == 10 * Num(v, e, m) && Den(e, m + 1) == Den(e, m))
         || (Num(v, e, m + 1) == Num(v, e, m) && Den(e, m) == 10 * Den(e, m + 1))
  {
    if m >= 0 {
      Assoc(10, v * Power(2, Pos(e)), Ten(m));
      Assoc(v * Power(2, Pos(e)), 10, Ten(m));
    } else {
      assert Ten(-m) == 10 * Ten(-m - 1);
      Assoc(Power(2, Pos(-e)), 10, Ten(-m - 1));
      Assoc(10, Power(2, Pos(-e)), Ten(-m - 1));
    }
  }

  lemma TimesTen(p: int, q: int, v: int, e: int, m: int)
    requires Ratio(p, q, v, e, m)
    ensures Ratio(10 * p, q, v, e, m + 1)
  {
    OneMore(v, e, m);
    Assoc(10, p, Den(e, m));
    Assoc(10, Num(v, e, m), q);
    Assoc(p, 10, Den(e, m + 1));
  }

  lemma OverTen(p: int, q: int, v: int, e: int, m: int)
    requires Ratio(p, q, v, e, m)
    ensures Ratio(p, 10 * q, v, e, m - 1)
  {
    OneMore(v, e, m - 1);
    Assoc(Num(v, e, m - 1), 10, q);
    Assoc(10, Num(v, e, m), q);
    Assoc(p, 10, Den(e, m));
    Assoc(10, p, Den(e, m));
  }

  lemma {:induction false} TimesTens(p: int, q: int, v: int, e: int, m: int, n: nat)
    requires Ratio(p, q, v, e, m)
    ensures Ratio(p * Ten(n), q, v, e, m + n)
  {
    hide Ratio;
    if n > 0 {
      TimesTens(p, q, v, e, m, n - 1);
      TimesTen(p * Ten(n - 1), q, v, e, m + n - 1);
      TenFold(p, Ten(n - 1));
    }
  }

  lemma {:induction false} OverTens(p: int, q: int, v: int, e: int, m: int, n: nat)
    requires Ratio(p, q, v, e, m)
    ensures Ratio(p, q * Ten(n), v, e, m - n)
  {
    hide Ratio;
    if n > 0 {
      OverTens(p, q, v, e, m, n - 1);
      OverTen(p, q * Ten(n - 1), v, e, m - n + 1);
      TenFold(q, Ten(n - 1));
    }
  }

  lemma TenFold(p: int, t: int)
    ensures p * (10 * t) == 10 * (p * t)
  {
  }

  // ----- powers of two and five -----

  lemma {:induction false} TenSplit(n: nat)
    ensures Ten(n) == Power(2, n) * Power(5, n)
  {
    if n > 0 {
      TenSplit(n - 1);
      var a, b := Power(2, n - 1), Power(5, n - 1);
      Assoc(2 * a, 5, b);
      Assoc(10, a, b);
      Assoc(5, 2, a);
    }
  }

  /** The numerator and the divisor that `dtoa` sets up are the number over ten to the `k`, for any common shift. */
  lemma SetUp(v: int, e: int, k: int, x: nat, y: nat)
    requires x + Pos(-e) + Pos(k) == y + Pos(e) + Pos(-k)
    ensures Ratio(v * Power(5, Pos(-k)) * Power(2, x), Power(5, Pos(k)) * Power(2, y), v, e, -k)
  {
    hide Power;
    var kp, kn, ep, en := Pos(k), Pos(-k), Pos(e), Pos(-e);
    TenSplit(kp);
    TenSplit(kn);
    PowerAdd(2, x, en);
    PowerAdd(2, x + en, kp);
    PowerAdd(2, ep, kn);
    PowerAdd(2, ep + kn, y);
    MulMono(1, Power(5, kp), Power(2, y));
    Commute(v, Power(5, kn), Power(2, x), Power(2, en), Power(2, kp), Power(5, kp), Power(2, ep), Power(2, kn), Power(2, y));
  }

  lemma Commute(v: int, fn: int, x: int, en: int, tp: int, fp: int, ep: int, tn: int, y: int)
    requires x * en * tp == ep * tn * y
    ensures (v * fn * x) * (en * (tp * fp)) == (v * ep * (tn * fn)) * (fp * y)
  {
    assert (v * fn * x) * (en * (tp * fp)) == v * fn * fp * (x * en * tp);
    assert (v * ep * (tn * fn)) * (fp * y) == v * fn * fp * (ep * tn * y);
  }

  // ----- the conversion -----

  /** The powers of two and five on both sides, without common twos. */
  method Exponents(e: int, k: int) returns (b2: nat, s2: nat, b5: nat, s5: nat)
    ensures b2 + Pos(-e) + Pos(k) == s2 + Pos(e) + Pos(-k) && b5 == Pos(-k) && s5 == Pos(k)
  {
    var j := -e;
    if j >= 0 { b2, s2 := 0, j; } else { b2, s2 := -j, 0; }
    if k >= 0 {
      b5, s5 := 0, k;
      s2 := s2 + k;
    } else {
      b2 := b2 - k;
      b5, s5 := -k, 0;
    }
    if b2 > 0 && s2 > 0 {
      var i := if b2 < s2 then b2 else s2;
      b2, s2 := b2 - i, s2 - i;
    }
  }

  method Fives(cache: Pow5Cache, b: Bigint, n: nat) returns (r: Bigint)
    requires cache.Valid() && b.IsNormal() && b.V() > 0 && cache.Apart(b)
    modifies cache, b, b.x
    ensures cache.Valid() && fresh(cache.Repr - old(cache.Repr)) && cache.Apart(r)
    ensures r.IsNormal() && r.V() == old(b.V()) * Power(5, n) && r.V() > 0 && (r == b || (fresh(r) && fresh(r.x)))
  {
    hide Val;
    MulMono(1, b.V(), Power(5, n));
    if n > 0 { r := Pow5Mult(cache, b, n); } else { r := b; }
  }

  /** Both sides with their powers of five. */
  method BothFives(cache: Pow5Cache, b: Bigint, b5: nat, s5: nat) returns (d: Bigint, S: Bigint)
    requires cache.Valid() && b.IsNormal() && b.V() > 0 && cache.Apart(b)
    modifies cache, b, b.x
    ensures cache.Valid() && fresh(cache.Repr - old(cache.Repr)) && cache.Apart(d) && cache.Apart(S)
    ensures d.IsNormal() && d.V() > 0 && S.IsNormal() && S.V() > 0 && d != S && d.x != S.x
    ensures d.V() == old(b.V()) * Power(5, b5) && S.V() == Power(5, s5)
    ensures (d == b || (fresh(d) && fresh(d.x))) && fresh(S) && fresh(S.x)
  {
    hide Val, Power;
    d := Fives(cache, b, b5);
    var one := I2B(1);
    S := Fives(cache, one, s5);
  }

  /** Numerator and divisor of the number over ten to the `k`, fit for `quorem`. */
  method Prepare(cache: Pow5Cache, b: Bigint, e: int, k: int) returns (c: Bigint, T: Bigint)
    requires cache.Valid() && b.IsNormal() && b.V() > 0 && cache.Apart(b)
    modifies cache, b, b.x
    ensures cache.Valid() && fresh(cache.Repr - old(cache.Repr)) && cache.Apart(c) && cache.Apart(T)
    ensures Ready(c, T) && (c == b || (fresh(c) && fresh(c.x))) && fresh(T) && fresh(T.x)
    ensures Ratio(c.V(), T.V(), old(b.V()), e, -k)
  {
    hide Val, Ratio, Scaled, Power, Pos;
    ghost var v := b.V();
    var b2, s2, b5, s5 := Exponents(e, k);
    var d, S := BothFives(cache, b, b5, s5);
    ghost var i;
    c, T, i := Arrange(d, S, b2, s2);
    SetUp(v, e, k, b2 + i, s2 + i);
  }

  /** `k_check`: an estimate that is one too large is corrected, and with it the number of digits. */
  method CheckEstimate(b: Bigint, S: Bigint, k: int, kCheck: bool, ilim: int, ilim1: int, ghost v: int, ghost e: int)
    returns (c: Bigint, k1: int, lim: int)
    requires Ready(b, S) && Ratio(b.V(), S.V(), v, e, -k) && Estimate(v, e, k, kCheck)
    modifies b, b.x
    ensures Ready(c, S) && S.Words() == old(S.Words()) && (c == b || (fresh(c) && fresh(c.x)))
    ensures Ratio(c.V(), S.V(), v, e, -k1) && Magnitude(v, e, k1) && S.V() <= c.V() < 10 * S.V()
    ensures (k1 == k && lim == ilim) || (k1 == k - 1 && lim == ilim1)
  {
    hide Val, Ratio, Magnitude, Scaled, Num, Den;
    RatioMagnitude(b.V(), S.V(), v, e, k);
    c, k1, lim := b, k, ilim;
    if kCheck {
      ghost var p := b.V();
      var less := CmpSmall(b, S);
      if less < 0 {
        k1, lim := k - 1, ilim1;
        c := MultAdd(b, 10, 0);
        TimesTen(p, S.V(), v, e, -k);
        RatioMagnitude(c.V(), S.V(), v, e, k1);
      }
    }
  }

  /** What is known of the estimated exponent: it is right, or, if it is to be checked, at most one too large. */
  predicate Estimate(v: int, e: int, k: int, kCheck: bool) {
    if kCheck then Den(e, -k) <= 10 * Num(v, e, -k) && Num(v, e, -k) < 10 * Den(e, -k) else Magnitude(v, e, k)
  }

  /** Digits that end behind the first digit of the number. */
  lemma SomeDigits(n: int, p: int, q: int, v: int, e: int, k: int, lim: int)
    requires lim >= 1 && Ratio(p, q, v, e, -k) && RoundsTo(n, Mul(p, Ten(lim - 1)), q)
    ensures Rounded(n, v, e, lim - 1 - k)
  {
    hide Ratio, RoundsTo, Num, Den, Mul;
    MulIs(p, Ten(lim - 1));
    TimesTens(p, q, v, e, -k, lim - 1);
    RatioRounds(n, p * Ten(lim - 1), q, v, e, lim - 1 - k);
  }

  /** Digits that end before the first digit of the number: it rounds to nothing, or up to a single one. */
  lemma NoDigits(one: bool, p: int, q: int, v: int, e: int, k: int, lim: int)
    requires lim <= 0 && Ratio(p, q, v, e, -k) && q <= p < 10 * q
    requires one <==> lim == 0 && p > 5 * q
    ensures Rounded(if one then 1 else 0, v, e, lim - 1 - k)
  {
    hide Num, Den, Mul;
    var t := Ten(-lim);
    OverTens(p, q, v, e, -k, 1 - lim);
    var n, d := if one then 1 else 0, q * Ten(1 - lim);
    TenFold(q, t);
    if lim < 0 {
      assert t >= 10 by { assert Ten(-lim) == 10 * Ten(-lim - 1); }
      MulMono(10, t, q);
    } else {
      assert d == 10 * q;
    }
    MulIs(d, n);
    RatioRounds(n, p, d, v, e, lim - 1 - k);
  }

  /** `n` is the number times ten to the `m`, rounded to the nearest integer, ties to even. */
  predicate Rounded(n: int, v: int, e: int, m: int) { RoundsTo(n, Num(v, e, m), Den(e, m)) }

  /** The digits, with the decimal point behind `decpt` of them, are the number rounded to `m` decimals. */
  predicate Decimal(r: seq<int>, decpt: int, v: int, e: int, m: int) {
    && IsDigits(r) && (r != [] ==> r[0] >= 1 && r[|r| - 1] != 0)
    && decpt + m >= |r| && Rounded(Mul(DVal(r), Ten(decpt + m - |r|)), v, e, m)
  }

  /** The test for a number of which no digit is asked for: is it above half of the place that is? */
  method AboveHalf(b: Bigint, S: Bigint) returns (above: bool)
    requires Ready(b, S)
    modifies S, S.x
    ensures above <==> b.V() > 5 * old(S.V())
  {
    hide Val;
    ScaledPositive(S.Words());
    ghost var q := S.V();
    var T := MultAdd(S, 5, 0);
    var j := Cmp(b, T);
    above := j > 0;
  }

  /** The digits of `b / S`, for a number of digits that may be zero or less. */
  method Write(b: Bigint, S: Bigint, k: int, lim: int, ndigits: int, ghost v: int, ghost e: int) returns (r: seq<int>, decpt: int)
    requires Ready(b, S) && Ratio(b.V(), S.V(), v, e, -k) && S.V() <= b.V() < 10 * S.V()
    requires lim <= 0 ==> ndigits == lim - 1 - k
    modifies b, b.x, S, S.x
    ensures Decimal(r, decpt, v, e, lim - 1 - k)
    ensures lim >= 1 ==> 1 <= |r| <= lim
  {
    hide Val, Ratio, Rounded, RoundsTo, Scaled, Mul, DVal, Ten;
    ghost var p, q := b.V(), S.V();
    if lim <= 0 {
      var one := false;
      if lim == 0 { one := AboveHalf(b, S); }
      NoDigits(one, p, q, v, e, k, lim);
      FewDigits();
      if one { r, decpt := [1], k + 2; } else { r, decpt := [], -ndigits; }
    } else {
      var bump;
      r, bump := FixedDigits(b, S, lim);
      decpt := k + bump + 1;
      SomeDigits(Mul(DVal(r), Ten(lim - |r| + bump)), p, q, v, e, k, lim);
    }
  }

  /**
   Modes 2 and 3 of `dtoa` in integers: the digits of the number `b * 2^e`, correctly rounded to `ndigits` significant
   digits, or, if `fixed`, to `ndigits` decimals.
   */
  method Convert(cache: Pow5Cache, b: Bigint, e: int, k: int, kCheck: bool, fixed: bool, ndigits: int)
    returns (r: seq<int>, decpt: int, ghost magnitude: int)
    requires cache.Valid() && b.IsNormal() && b.V() > 0 && cache.Apart(b) && Estimate(b.V(), e, k, kCheck)
    modifies cache, b, b.x
    ensures cache.Valid() && fresh(cache.Repr - old(cache.Repr))
    ensures Magnitude(old(b.V()), e, magnitude)
    ensures Decimal(r, decpt, old(b.V()), e, if fixed then ndigits else (if ndigits <= 0 then 1 else ndigits) - 1 - magnitude)
    ensures !fixed ==> 1 <= |r| <= if ndigits <= 0 then 1 else ndigits
  {
    hide Val, Ratio, Magnitude, Decimal, Estimate, Scaled;
    ghost var v := b.V();
    var n := if !fixed && ndigits <= 0 then 1 else ndigits;
    var ilim := if fixed then n + k + 1 else n;
    var ilim1 := if fixed then ilim - 1 else n;
    var c, T := Prepare(cache, b, e, k);
    var k1, lim;
    c, k1, lim := CheckEstimate(c, T, k, kCheck, ilim, ilim1, v, e);
    magnitude := k1;
    r, decpt := Write(c, T, k1, lim, ndigits, v, e);
  }

  lemma FewDigits()
    ensures Mul(DVal([]), Ten(0)) == 0 && Mul(DVal([1]), Ten(0)) == 1
  {
    DValSnoc([], 1);
    MulIs(0, 1);
    MulIs(1, 1);
  }

  // ----- there is one such decimal -----

  predicate Lead(r: seq<int>) { IsDigits(r) && (r != [] ==> r[0] >= 1) }

  lemma {:induction false} LeadPositive(r: seq<int>)
    requires Lead(r)
    ensures DVal(r) >= 0 && (DVal(r) == 0 <==> r == [])
  {
    if |r| > 1 { LeadPositive(r[..|r| - 1]); }
  }

  lemma {:induction false} SameDigits(r: seq<int>, t: seq<int>)
    requires Lead(r) && Lead(t) && DVal(r) == DVal(t)
    ensures r == t
  {
    LeadPositive(r);
    LeadPositive(t);
    if r != [] {
      var a, b := r[..|r| - 1], t[..|t| - 1];
      assert Lead(a) && Lead(b) && r[|r| - 1] == t[|t| - 1];
      SameDigits(a, b);
      assert r == a + [r[|r| - 1]] && t == b + [t[|t| - 1]];
    }
  }

  lemma {:induction false} SameScale(x: int, i: nat, y: int, j: nat)
    requires x % 10 != 0 && y % 10 != 0 && Mul(x, Ten(i)) == Mul(y, Ten(j))
    ensures x == y && i == j
    decreases i + j
  {
    hide Mul;
    MulIs(x, 1);
    MulIs(y, 1);
    if i > 0 { MulTen(x, Ten(i - 1)); }
    if j > 0 { MulTen(y, Ten(j - 1)); }
    if i > 0 && j > 0 { SameScale(x, i - 1, y, j - 1); }
  }

  lemma LastPart(r: seq<int>)
    requires r != [] && IsDigits(r) && r[|r| - 1] != 0
    ensures DVal(r) % 10 != 0
  {
  }

  lemma {:induction false} OnlyZero(x: int, i: nat)
    ensures Mul(x, Ten(i)) == 0 <==> x == 0
  {
    hide Mul;
    if i == 0 { MulIs(x, 1); } else { OnlyZero(x, i - 1); MulTen(x, Ten(i - 1)); }
  }

  /** A number has one decimal of a given precision; nothing at all stands for zero. */
  lemma DecimalOnce(r: seq<int>, decpt: int, t: seq<int>, point: int, v: int, e: int, m: int)
    requires Decimal(r, decpt, v, e, m) && Decimal(t, point, v, e, m)
    ensures r == t && (r != [] ==> decpt == point)
  {
    hide Mul, DVal, Ten, Num, Den;
    var i, j := decpt + m - |r|, point + m - |t|;
    RoundsToOne(Mul(DVal(r), Ten(i)), Mul(DVal(t), Ten(j)), Num(v, e, m), Den(e, m));
    LeadPositive(r);
    LeadPositive(t);
    OnlyZero(DVal(r), i);
    OnlyZero(DVal(t), j);
    if r != [] {
      LastPart(r);
      LastPart(t);
      SameScale(DVal(r), i, DVal(t), j);
      SameDigits(r, t);
    }
  }
}
