/**
 Decimal digits in `dtoa`: the scaling of numerator and divisor, the digit loop for a fixed number of digits, and the
 final rounding.
 */
module DigitGeneration {

  import opened Arithmetic
  import opened Bignum
  import opened BigintOps
  import opened BigintDivision

  // ----- scaling -----

  /** `hi0bits`: the number of leading zero bits of a word. */
  method Hi0Bits(w: Word) returns (k: nat)
    ensures w == 0 ==> k == 32
    ensures w > 0 ==> k < 32 && 0x8000_0000 <= w * Power(2, k) < B
  {
    var x := w;
    k := 0;
    LowPowers();
    if x < 0x1_0000 { k, x := 16, x * 0x1_0000; }
    assert x == w * Power(2, k);
    if x < 0x100_0000 { BitStep(w, k, 8); k, x := k + 8, x * 0x100; }
    assert x == w * Power(2, k);
    if x < 0x1000_0000 { BitStep(w, k, 4); k, x := k + 4, x * 0x10; }
    assert x == w * Power(2, k);
    if x < 0x4000_0000 { BitStep(w, k, 2); k, x := k + 2, x * 4; }
    assert x == w * Power(2, k);
    if x < 0x8000_0000 {
      BitStep(w, k, 1);
      k := k + 1;
      if x < 0x4000_0000 {
        return 32;
      }
    }
  }

  lemma LowPowers()
    ensures Power(2, 0) == 1 && Power(2, 1) == 2 && Power(2, 2) == 4 && Power(2, 4) == 16 && Power(2, 8) == 256 && Power(2, 16) == 65536
  {
    assert Power(2, 2) == 4;
    PowerAdd(2, 2, 2);
    PowerAdd(2, 4, 4);
    PowerAdd(2, 8, 8);
  }

  lemma BitStep(w: int, k: nat, d: nat)
    ensures w * Power(2, k + d) == w * Power(2, k) * Power(2, d)
  {
    PowerAdd(2, k, d);
    Assoc(w, Power(2, k), Power(2, d));
  }

  /** `dshift`: by how much to shift on, so that a shift by `p2` and that much leaves four leading zero bits. */
  method DShift(b: Bigint, p2: nat) returns (i: nat, ghost h: nat)
    requires b.IsNormal() && b.V() > 0
    ensures i < 32 && h < 32 && (i + p2 + 4 - h) % 32 == 0
    ensures 0x8000_0000 <= b.x[b.wds - 1] * Power(2, h) < B
  {
    TopNonZero(b.Words());
    var z := Hi0Bits(b.x[b.wds - 1]);
    h := z;
    i := (z - 4 - p2) % 32;
    ModTurn(z, p2, i);
  }

  lemma ModTurn(z: int, p: int, i: int)
    requires i == (z - 4 - p) % 32
    ensures (i + p + 4 - z) % 32 == 0
  {
    var q := (z - 4 - p) / 32;
    assert z - 4 - p == 32 * q + i;
    assert i + p + 4 - z == 32 * (-q);
  }

  /** A number whose size is known has its top word in known bounds. */
  lemma TopFromSize(t: seq<Word>, m: nat)
    requires Normal(t) && Scale(0x800_0000, m) <= Val(t) < Scale(0x1000_0000, m)
    ensures Scaled(t)
  {
    hide Val;
    ScaleLonger(0, m);
    ScaleMono(1, 0x800_0000, m);
    ValBound(t);
    if |t| < m + 1 { ScaleLonger(|t|, m); }
    if |t| > m + 1 {
      ValNormal(t);
      ScaleLonger(m + 1, |t| - 1);
      ScaleUp(1, m);
      ScaleMono(0x1000_0000, B, m);
    }
    var w: int := t[m];
    ValTop(t);
    if w >= 0x1000_0000 { ScaleMono(0x1000_0000, w, m); }
    if w < 0x800_0000 { ScaleMono(w + 1, 0x800_0000, m); }
  }

  /** The bounds of a shifted number from its top word. */
  lemma ShiftedSize(v: int, top: int, n: nat, h: nat, j: nat)
    requires Scale(top, n) <= v < Scale(top + 1, n) && top >= 0 && 0x8000_0000 <= top * Power(2, h) < B && h < 32
    ensures Scale(0x8000_0000, n + j) <= v * Power(2, h + 32 * j) < Scale(B, n + j)
  {
    hide Scale;
    var p := Power(2, h);
    NextMultiple(top, h);
    MulMono(Scale(top, n), v, p);
    Distrib(v, 1, p);
    MulMono(v + 1, Scale(top + 1, n), p);
    MulIs(Scale(top, n), p);
    MulIs(Scale(top + 1, n), p);
    ScaleMul(top, n, p);
    ScaleMul(top + 1, n, p);
    ScaleMono(0x8000_0000, top * p, n);
    ScaleMono((top + 1) * p, B, n);
    var w := v * p;
    assert Scale(0x8000_0000, n) <= w < Scale(B, n);
    ScaleTwice(0x8000_0000, n, j);
    ScaleTwice(B, n, j);
    ScaleMono(Scale(0x8000_0000, n), w, j);
    ScaleMono(w, Scale(B, n), j);
    NonNegSize(w, n);
    PowerWords(w, j);
    PowerAdd(2, h, 32 * j);
    Assoc(v, p, Power(2, 32 * j));
  }

  lemma NonNegSize(w: int, n: nat)
    requires Scale(0x8000_0000, n) <= w
    ensures w >= 0
  {
    ScalePos(0x8000_0000, n);
  }

  /** Multiples of a power of two below a word end a whole multiple below it. */
  lemma NextMultiple(top: int, h: nat)
    requires top >= 0 && h < 32 && top * Power(2, h) < B
    ensures (top + 1) * Power(2, h) <= B
  {
    PowerAdd(2, h, 32 - h);
    PowerWord();
    NextMultipleOf(top, Power(2, h), Power(2, 32 - h));
  }

  lemma NextMultipleOf(top: int, p: int, d: int)
    requires top >= 0 && p > 0 && d > 0 && p * d == B && top * p < B
    ensures (top + 1) * p <= B
  {
    if top >= d { MulMono(d, top, p); }
    MulMono(top + 1, d, p);
  }

  lemma {:induction false} ScaleBy16(m: nat)
    ensures Scale(0x8000_0000, m) == 16 * Scale(0x800_0000, m) && Scale(B, m) == 16 * Scale(0x1000_0000, m)
  {
    if m > 0 { ScaleBy16(m - 1); }
  }

  lemma ScaledSize(v: int, tv: int, top: int, n: nat, h: nat, k: nat, j: nat)
    requires Scale(top, n) <= v < Scale(top + 1, n) && top >= 0 && 0x8000_0000 <= top * Power(2, h) < B && h < 32
    requires k + 4 == h + 32 * j && tv == v * Power(2, k)
    ensures Scale(0x800_0000, n + j) <= tv < Scale(0x1000_0000, n + j)
  {
    hide Scale;
    ShiftedSize(v, top, n, h, j);
    PowerAdd(2, k, 4);
    LowPowers();
    Assoc(v, Power(2, k), 16);
    ScaleBy16(n + j);
  }

  /** Shifted as `dshift` says, a divisor has four leading zero bits. */
  lemma ShiftScales(s: seq<Word>, top: int, t: seq<Word>, h: nat, k: nat)
    requires Normal(s) && top == s[|s| - 1] && 0x8000_0000 <= top * Power(2, h) < B && h < 32
    requires (k + 4 - h) % 32 == 0 && Normal(t) && Val(t) == Val(s) * Power(2, k)
    ensures Scaled(t)
  {
    hide Val, Scale, Power;
    var j := (k + 4 - h) / 32;
    ValTop(s);
    ScaledSize(Val(s), Val(t), top, |s| - 1, h, k, j);
    TopFromSize(t, |s| - 1 + j);
  }

  method ShiftBy(b: Bigint, k: nat) returns (r: Bigint)
    requires b.IsNormal() && b.V() > 0
    ensures r.IsNormal() && r.V() == b.V() * Power(2, k) && (r == b || (fresh(r) && fresh(r.x)))
  {
    if k > 0 { r := LShift(b, k); } else { r := b; }
  }

  /** The scaling ahead of the digit loop: both are shifted alike, and the divisor suits `quorem`. */
  method Arrange(b: Bigint, S: Bigint, b2: nat, s2: nat) returns (c: Bigint, T: Bigint, ghost i: nat)
    requires b.IsNormal() && b.V() > 0 && S.IsNormal() && S.V() > 0 && b != S && b.x != S.x
    ensures c.IsNormal() && T.IsNormal() && Scaled(T.Words()) && c != T && c.x != T.x
    ensures c.V() == b.V() * Power(2, b2 + i) && T.V() == S.V() * Power(2, s2 + i)
    ensures (c == b || (fresh(c) && fresh(c.x))) && (T == S || (fresh(T) && fresh(T.x)))
  {
    hide Val, Scale;
    var j, h := DShift(S, s2);
    i := j;
    ghost var s, top := S.Words(), S.x[S.wds - 1];
    c := ShiftBy(b, b2 + j);
    T := ShiftBy(S, s2 + j);
    ShiftScales(s, top, T.Words(), h, s2 + i);
  }

  // ----- digits and their value -----

  function DVal(ds: seq<int>): int {
    if ds == [] then 0 else 10 * DVal(ds[..|ds| - 1]) + ds[|ds| - 1]
  }

  predicate IsDigits(ds: seq<int>) { forall i :: 0 <= i < |ds| ==> 0 <= ds[i] <= 9 }

  lemma DValSnoc(ds: seq<int>, d: int)
    ensures DVal(ds + [d]) == 10 * DVal(ds) + d
  {
    assert (ds + [d])[..|ds|] == ds;
  }

  function Ten(n: nat): (p: int)
    ensures p > 0
  {
    if n == 0 then 1 else 10 * Ten(n - 1)
  }

  /** Trailing zeros scale the value. */
  lemma {:induction false} DValZeros(ds: seq<int>, n: nat)
    requires n <= |ds| && forall i :: n <= i < |ds| ==> ds[i] == 0
    ensures DVal(ds) == Mul(DVal(ds[..n]), Ten(|ds| - n))
  {
    if n == |ds| {
      assert ds[..n] == ds;
      MulIs(DVal(ds), 1);
    } else {
      var t := ds[..|ds| - 1];
      DValZeros(t, n);
      assert t[..n] == ds[..n];
      MulTen(DVal(ds[..n]), Ten(|t| - n));
    }
  }

  /** Trailing nines are one short of a power of ten. */
  lemma {:induction false} DValNines(ds: seq<int>, n: nat)
    requires n <= |ds| && forall i :: n <= i < |ds| ==> ds[i] == 9
    ensures DVal(ds) + 1 == Mul(DVal(ds[..n]) + 1, Ten(|ds| - n))
  {
    if n == |ds| {
      assert ds[..n] == ds;
      MulIs(DVal(ds) + 1, 1);
    } else {
      var t := ds[..|ds| - 1];
      DValNines(t, n);
      assert t[..n] == ds[..n];
      MulTen(DVal(ds[..n]) + 1, Ten(|t| - n));
    }
  }

  lemma MulTen(a: int, p: int)
    ensures Mul(a, 10 * p) == 10 * Mul(a, p)
  {
    MulIs(a, 10 * p);
    MulIs(a, p);
  }

  // ----- rounding -----

  /** `n` is `p / q` rounded to the nearest integer, ties to even. */
  predicate RoundsTo(n: int, p: int, q: int) {
    && 2 * p - q <= 2 * Mul(q, n) <= 2 * p + q
    && (2 * Mul(q, n) == 2 * p - q || 2 * Mul(q, n) == 2 * p + q ==> n % 2 == 0)
  }

  /** Rounding has one result. */
  lemma RoundsToOne(n: int, m: int, p: int, q: int)
    requires q > 0 && RoundsTo(n, p, q) && RoundsTo(m, p, q)
    ensures n == m
  {
    hide Mul;
    MulGap(q, n, m);
    MulGap(q, m, n);
  }

  lemma MulGap(q: int, n: int, m: int)
    requires q > 0
    ensures n >= m + 1 ==> Mul(q, n) >= Mul(q, m) + q
    ensures n >= m + 2 ==> Mul(q, n) >= Mul(q, m) + 2 * q
  {
    hide Mul;
    MulIs(q, n);
    MulIs(q, m);
    Distrib(m, n - m, q);
    if n >= m + 1 { MulMono(1, n - m, q); }
    if n >= m + 2 { MulMono(2, n - m, q); }
  }

  /** `roundoff`: strips nines and adds one; all nines give a single one and raise the exponent. */
  method RoundOff(ds: seq<int>) returns (r: seq<int>, bump: nat)
    requires IsDigits(ds) && ds != [] && ds[0] >= 1
    ensures IsDigits(r) && 1 <= |r| <= |ds| && bump <= 1 && (bump == 1 ==> r == [1])
    ensures r[0] >= 1 && r[|r| - 1] != 0
    ensures DVal(ds) + 1 == Mul(DVal(r), Ten(|ds| - |r| + bump))
  {
    var n := |ds|;
    while n > 0 && ds[n - 1] == 9
      invariant 0 <= n <= |ds| && forall i :: n <= i < |ds| ==> ds[i] == 9
    {
      n := n - 1;
    }
    DValNines(ds, n);
    if n == 0 {
      DValSnoc([], 1);
      return [1], 1;
    }
    var t := ds[..n - 1];
    assert ds[..n] == t + [ds[n - 1]];
    DValSnoc(t, ds[n - 1]);
    DValSnoc(t, ds[n - 1] + 1);
    return t + [ds[n - 1] + 1], 0;
  }

  /** The digits without trailing zeros. */
  method TrimDigits(ds: seq<int>) returns (r: seq<int>)
    requires IsDigits(ds) && ds != [] && ds[0] >= 1
    ensures IsDigits(r) && 1 <= |r| <= |ds| && r[0] >= 1 && r[|r| - 1] != 0
    ensures DVal(ds) == Mul(DVal(r), Ten(|ds| - |r|))
  {
    var n := |ds|;
    while ds[n - 1] == 0
      invariant 1 <= n <= |ds| && forall i :: n <= i < |ds| ==> ds[i] == 0
      decreases n
    {
      n := n - 1;
    }
    DValZeros(ds, n);
    return ds[..n];
  }

  // ----- the digit loop -----

  /** After `|ds|` digits of `bv / sv`, with `rem` left over. */
  predicate Generated(bv: int, sv: int, ds: seq<int>, rem: int) {
    IsDigits(ds) && ds != [] && ds[0] >= 1 && 0 <= rem < sv && Mul(bv, Ten(|ds| - 1)) == Mul(sv, DVal(ds)) + rem
  }

  lemma FirstDigit(bv: int, sv: int, q: int, r: int)
    requires sv > 0 && sv <= bv && 0 <= q <= 9 && q == bv / sv && r == bv % sv
    ensures Generated(bv, sv, [q], r)
  {
    DivSplit(bv, sv);
    MulIs(sv, q);
    MulIs(bv, 1);
    DValSnoc([], q);
    if q == 0 { MulZero(sv); }
  }

  lemma DivSplit(b: int, s: int)
    requires s > 0
    ensures b == s * (b / s) + b % s && 0 <= b % s < s
  {
  }

  lemma NextDigit(bv: int, sv: int, ds: seq<int>, rem: int, q: int, r: int)
    requires Generated(bv, sv, ds, rem) && 0 <= q <= 9 && sv > 0 && q == (rem * 10) / sv && r == (rem * 10) % sv
    ensures Generated(bv, sv, ds + [q], r)
  {
    hide Mul;
    var n := |ds| - 1;
    assert Ten(n + 1) == 10 * Ten(n);
    MulTen(bv, Ten(n));
    DValSnoc(ds, q);
    DivSplit(rem * 10, sv);
    MulDigits(sv, DVal(ds), q);
  }

  lemma MulDigits(s: int, d: int, q: int)
    ensures Mul(s, 10 * d + q) == 10 * Mul(s, d) + s * q
  {
    hide Mul;
    MulIs(s, d);
    MulIs(s, 10 * d + q);
    Distrib(10 * d, q, s);
  }

  /** The last digit is not zero where the division comes out even on it. */
  lemma LastDigit(rem: int, sv: int, q: int)
    requires sv > 0 && rem > 0 && q == rem / sv && rem % sv == 0
    ensures q != 0
  {
    DivSplit(rem, sv);
  }

  /** A number and a divisor that do not share memory. */
  ghost predicate Ready(b: Bigint, S: Bigint)
    reads b, b.x, S, S.x
  {
    b.IsNormal() && S.Ok() && Scaled(S.Words()) && b != S && b.x != S.x
  }

  /** The loop: one digit a turn, until nothing is left or `ilim` digits are there. */
  method Generate(b0: Bigint, S: Bigint, ilim: nat) returns (ds: seq<int>, b: Bigint)
    requires Ready(b0, S) && S.V() <= b0.V() < 10 * S.V() && ilim >= 1
    modifies b0, b0.x
    ensures S.Words() == old(S.Words()) && S.Ok() && b.Ok() && (b == b0 || (fresh(b) && fresh(b.x)))
    ensures Generated(old(b0.V()), S.V(), ds, b.V()) && |ds| <= ilim
    ensures b.V() == 0 <==> b.wds <= 1 && b.x[0] == 0
    ensures if b.V() == 0 then ds[|ds| - 1] != 0 else |ds| == ilim && Ready(b, S)
  {
    hide Val, Scale, Mul, DVal, Ten;
    ghost var bv, sv, s := b0.V(), S.V(), S.Words();
    ScaledPositive(s);
    b := b0;
    var dig := QuoRem(b, S);
    FirstDigit(bv, sv, dig, b.V());
    if b.V() == 0 { LastDigit(bv, sv, dig); }
    ds := [dig];
    while !(b.wds <= 1 && b.x[0] == 0) && |ds| < ilim
      invariant b.Ok() && Trim(b.Words()) && (b.V() == 0 <==> b.wds <= 1 && b.x[0] == 0)
      invariant S.Ok() && S.Words() == s && b != S && b.x != S.x && (b == b0 || (fresh(b) && fresh(b.x)))
      invariant Generated(bv, sv, ds, b.V()) && |ds| <= ilim
      invariant b.V() == 0 ==> ds[|ds| - 1] != 0
      decreases ilim - |ds|
    {
      ghost var rem := b.V();
      HasWords(b.Words());
      b := MultAdd(b, 10, 0);
      dig := QuoRem(b, S);
      NextDigit(bv, sv, ds, rem, dig, b.V());
      if b.V() == 0 { LastDigit(rem * 10, sv, dig); }
      ds := ds + [dig];
    }
    if b.V() != 0 { HasWords(b.Words()); }
  }

  lemma HasWords(s: seq<Word>)
    requires Trim(s) && Val(s) != 0
    ensures Normal(s)
  {
  }

  lemma {:induction false} DValParity(ds: seq<int>)
    requires ds != []
    ensures DVal(ds) % 2 == ds[|ds| - 1] % 2
  {
  }

  lemma {:induction false} TenAdd(m: nat, n: nat)
    ensures Ten(m + n) == Ten(m) * Ten(n)
  {
    if m > 0 {
      TenAdd(m - 1, n);
      Assoc(10, Ten(m - 1), Ten(n));
    }
  }

  /** Digits that came out even are the value to any larger number of digits. */
  lemma ExactRounds(bv: int, sv: int, ds: seq<int>, ilim: nat)
    requires Generated(bv, sv, ds, 0) && |ds| <= ilim
    ensures RoundsTo(Mul(DVal(ds), Ten(ilim - |ds|)), Mul(bv, Ten(ilim - 1)), sv)
  {
    hide DVal, Mul, Ten;
    var m, k, d := Ten(|ds| - 1), Ten(ilim - |ds|), DVal(ds);
    TenAdd(|ds| - 1, ilim - |ds|);
    ExactArith(bv, sv, m, k, d);
  }

  lemma ExactArith(bv: int, sv: int, m: int, k: int, d: int)
    requires Mul(bv, m) == Mul(sv, d)
    ensures Mul(bv, m * k) == Mul(sv, Mul(d, k))
  {
    hide Mul;
    MulIs(bv, m);
    MulIs(sv, d);
    MulIs(d, k);
    MulIs(bv, m * k);
    MulIs(sv, d * k);
    Assoc(bv, m, k);
    Assoc(sv, d, k);
  }

  /** The choice at the end of the loop rounds to the nearest, ties to an even last digit. */
  lemma ChoiceRounds(bv: int, sv: int, ds: seq<int>, rem: int, up: bool)
    requires Generated(bv, sv, ds, rem)
    requires up <==> 2 * rem > sv || (2 * rem == sv && ds[|ds| - 1] % 2 == 1)
    ensures RoundsTo(if up then DVal(ds) + 1 else DVal(ds), Mul(bv, Ten(|ds| - 1)), sv)
  {
    hide Mul;
    DValParity(ds);
    MulTwo(sv, DVal(ds));
  }

  /** `b` doubled against the divisor. */
  method CmpHalf(b: Bigint, S: Bigint) returns (j: int)
    requires Ready(b, S) && b.V() > 0
    ensures j < 0 <==> 2 * b.V() < S.V()
    ensures j > 0 <==> 2 * b.V() > S.V()
  {
    hide Val;
    var c := LShift(b, 1);
    LowPowers();
    ScaledPositive(S.Words());
    j := Cmp(c, S);
  }

  /**
   The digits of `b / S` for at most `ilim` digits: the value rounded to `ilim` significant digits, ties to even,
   without trailing zeros; `bump` is what the carry adds to the exponent.
   */
  method FixedDigits(b0: Bigint, S: Bigint, ilim: nat) returns (r: seq<int>, bump: nat)
    requires Ready(b0, S) && S.V() <= b0.V() < 10 * S.V() && ilim >= 1
    modifies b0, b0.x
    ensures S.Ok() && S.Words() == old(S.Words())
    ensures IsDigits(r) && 1 <= |r| <= ilim && r[0] >= 1 && r[|r| - 1] != 0
    ensures bump <= 1 && (bump == 1 ==> r == [1])
    ensures RoundsTo(Mul(DVal(r), Ten(ilim - |r| + bump)), Mul(old(b0.V()), Ten(ilim - 1)), S.V())
  {
    hide Val, Scale, Mul, DVal, Ten;
    ghost var bv, sv, s := b0.V(), S.V(), S.Words();
    var ds, b := Generate(b0, S, ilim);
    if b.wds <= 1 && b.x[0] == 0 {
      ExactRounds(bv, sv, ds, ilim);
      return ds, 0;
    }
    var dig := ds[|ds| - 1];
    ghost var rem := b.V();
    var j := CmpHalf(b, S);
    var up := j > 0 || (j == 0 && dig % 2 == 1);
    ChoiceRounds(bv, sv, ds, rem, up);
    if up {
      r, bump := RoundOff(ds);
    } else {
      r := TrimDigits(ds);
      bump := 0;
    }
  }
}
