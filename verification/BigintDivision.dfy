/**
 `cmp`, `diff` and `quorem` of `dtoa.c`.
 */
module BigintDivision {

  import opened Arithmetic
  import opened Bignum
  import opened BigintOps

  /** Without leading zero words; zero has one word or none. */
  predicate Trim(s: seq<Word>) { s == [] || Normal(s) }

  // ----- cmp -----

  /** Numbers that `cmp` can tell apart by their length first: a zero without words only meets numbers above zero. */
  predicate Comparable(s: seq<Word>, t: seq<Word>) {
    && Trim(s) && Trim(t) && s + t != []
    && (s == [] ==> Val(t) > 0) && (t == [] ==> Val(s) > 0)
  }

  lemma ByLength(s: seq<Word>, t: seq<Word>)
    requires Comparable(s, t) && |s| < |t|
    ensures Val(s) < Val(t)
  {
    if |t| > 1 { LongerLarger(s, t); }
  }

  /** `cmp`: the sign of the difference. */
  method Cmp(a: Bigint, b: Bigint) returns (r: int)
    requires a.Ok() && b.Ok() && Comparable(a.Words(), b.Words())
    ensures r < 0 <==> a.V() < b.V()
    ensures r > 0 <==> a.V() > b.V()
  {
    hide Val;
    ghost var s, t := a.Words(), b.Words();
    if a.wds != b.wds {
      if a.wds < b.wds { ByLength(s, t); } else { ByLength(t, s); }
      return a.wds - b.wds;
    }
    var i := a.wds;
    while i > 0
      invariant 0 <= i <= |s| && s[i..] == t[i..]
    {
      if a.x[i - 1] != b.x[i - 1] {
        if a.x[i - 1] < b.x[i - 1] {
          TopDecides(s, t, i - 1);
          return -1;
        }
        TopDecides(t, s, i - 1);
        return 1;
      }
      assert s[i - 1..] == [s[i - 1]] + s[i..] && t[i - 1..] == [t[i - 1]] + t[i..];
      i := i - 1;
    }
    assert s == s[0..] == t[0..] == t;
    return 0;
  }

  // ----- subtraction in place -----

  /** `x - s * q` after `i` words; `u` is what the words were. */
  ghost predicate SubAt(x: seq<Word>, u: seq<Word>, s: seq<Word>, i: nat, debt: int, q: int) {
    i <= |x| && i <= |s| && SameFrom(x, u, i) && Subtracted(x[..i], debt, u[..i], s[..i], q)
  }

  lemma SubAtStart(x: seq<Word>, s: seq<Word>, q: int)
    ensures SubAt(x, x, s, 0, 0, q)
  {
    MulZero(q);
  }

  lemma SubAtOn(x: seq<Word>, u: seq<Word>, s: seq<Word>, i: nat, debt: int, q: int, lo: Word, hi: int)
    requires SubAt(x, u, s, i, debt, q) && i < |x| && i < |s| && lo + s[i] * q + debt == u[i] + B * hi
    ensures SubAt(x[i := lo], u, s, i + 1, hi, q)
  {
    hide Scale, Mul, Val;
    SubtractedOn(x[..i], debt, u[..i], s[..i], q, u[i], s[i], lo, hi);
    assert x[i := lo][..i + 1] == x[..i] + [lo] && u[..i + 1] == u[..i] + [u[i]] && s[..i + 1] == s[..i] + [s[i]];
  }

  /** A difference of words in 64-bit arithmetic: the low half, and the borrow in bit 32. */
  lemma BorrowWord(x: Word, w: int, borrow: int)
    requires 0 <= w < B && 0 <= borrow <= 1
    ensures var y := (x - w - borrow) % B2;
      var lo, hi := y % B, (y / B) % 2;
      0 <= lo < B && 0 <= hi <= 1 && lo + w + borrow == x + B * hi
  {
    if x - w - borrow >= 0 {
      assert (x - w - borrow) % B2 == x - w - borrow;
    } else {
      var y := x - w - borrow + B2;
      assert (x - w - borrow) % B2 == y;
      assert y == B * (B - 1) + (x - w - borrow + B);
    }
  }

  /** The loops of `quorem`: `x - s * q`, with what is still owed at the end. */
  method SubMul(x: array<Word>, s: array<Word>, n: nat, q: Word) returns (ghost debt: int)
    requires x != s && n <= x.Length && n <= s.Length
    modifies x
    ensures debt >= 0 && SubAt(x[..], old(x[..]), s[..n], n, debt, q)
    ensures s[..] == old(s[..])
  {
    hide Scale, Mul, Val;
    ghost var u, v := x[..], s[..n];
    var borrow, carry: Word := 0, 0;
    SubAtStart(u, v, q);
    var i := 0;
    while i < n
      invariant 0 <= i <= n && 0 <= borrow <= 1 && s[..] == old(s[..]) && s[..n] == v
      invariant SubAt(x[..], u, v, i, carry + borrow, q)
    {
      Fits(s[i], q);
      var ys := s[i] * q + carry;
      assert 0 <= ys < B2 && s[i] == v[i];
      BorrowWord(x[i], ys % B, borrow);
      var y := (x[i] - ys % B - borrow) % B2;
      ghost var w, owed: int := x[..], carry + borrow;
      var lo: Word := y % B;
      carry := ys / B;
      borrow := (y / B) % 2;
      SubAtOn(w, u, v, i, owed, q, lo, carry as int + borrow);
      x[i] := lo;
      assert x[..] == w[i := lo];
      i := i + 1;
    }
    debt := carry as int + borrow;
  }

  /** Nothing is owed where the difference is not negative. */
  lemma NoDebt(x: seq<Word>, u: seq<Word>, s: seq<Word>, debt: int, q: int)
    requires SubAt(x, u, s, |s|, debt, q) && debt >= 0 && Val(u[..|s|]) >= Mul(Val(s), q)
    ensures Val(x[..|s|]) == Val(u[..|s|]) - Mul(Val(s), q)
  {
    hide Mul, Val, Scale;
    var n := |s|;
    assert s[..n] == s;
    ValBound(x[..n]);
    if debt >= 1 { ScaleMono(1, debt, n); }
    ScaleZero(n);
  }

  // ----- diff -----

  /** The loops of `diff`: the words of `a - b`, where `b` runs out first. */
  method DiffWords(a: array<Word>, wa: nat, b: array<Word>, wb: nat, c: array<Word>)
    requires c != a && c != b && wb <= wa <= a.Length && wb <= b.Length && wa <= c.Length
    requires Val(b[..wb]) <= Val(a[..wa])
    modifies c
    ensures Val(c[..wa]) == Val(a[..wa]) - Val(b[..wb])
    ensures a[..] == old(a[..]) && b[..] == old(b[..])
  {
    hide Scale, Mul, Val;
    ghost var u, v := a[..wa], Padded(b[..wb], wa);
    var borrow, i := 0, 0;
    DiffStart(u, v);
    ghost var t: seq<Word> := [];
    while i < wa
      invariant 0 <= i <= wa && 0 <= borrow <= 1 && c[..i] == t
      invariant a[..] == old(a[..]) && b[..] == old(b[..]) && a[..wa] == u && Padded(b[..wb], wa) == v
      invariant Subtracted(t, borrow, u[..i], v[..i], 1)
    {
      var w := if i < wb then b[i] else 0;
      assert w == v[i] && a[i] == u[i];
      BorrowWord(a[i], w, borrow);
      var y := (a[i] - w - borrow) % B2;
      var lo: Word := y % B;
      SubtractedOn(t, borrow, u[..i], v[..i], 1, u[i], v[i], lo, (y / B) % 2);
      assert u[..i + 1] == u[..i] + [u[i]] && v[..i + 1] == v[..i] + [v[i]];
      borrow := (y / B) % 2;
      c[i] := lo;
      i := i + 1;
      assert c[..i] == t + [lo];
      t := t + [lo];
    }
    assert u[..wa] == u && v[..wa] == v;
    DiffDone(t, borrow, u, v, b[..wb]);
  }

  function Padded(s: seq<Word>, n: nat): seq<Word>
    requires |s| <= n
  {
    s + seq(n - |s|, _ => 0)
  }

  lemma DiffStart(u: seq<Word>, v: seq<Word>)
    ensures Subtracted([], 0, u[..0], v[..0], 1)
  {
    MulZero(1);
  }

  lemma DiffDone(t: seq<Word>, borrow: int, u: seq<Word>, v: seq<Word>, b: seq<Word>)
    requires Subtracted(t, borrow, u, v, 1) && borrow >= 0 && |b| <= |u| && v == Padded(b, |u|) && Val(b) <= Val(u)
    ensures Val(t) == Val(u) - Val(b)
  {
    hide Mul, Val, Scale;
    TrimZeros(v, |b|);
    assert v[..|b|] == b;
    MulIs(Val(v), 1);
    ValBound(t);
    if borrow >= 1 { ScaleMono(1, borrow, |t|); }
    ScaleZero(|t|);
  }

  /** `diff` of different numbers, the larger one first. */
  method DiffOrdered(a: Bigint, b: Bigint) returns (c: Bigint)
    requires a.IsNormal() && b.IsNormal() && b.V() < a.V()
    ensures fresh(c) && fresh(c.x) && c.IsNormal() && c.V() == a.V() - b.V() && !c.sign
  {
    hide Scale, Mul, Val;
    if a.wds < b.wds { LongerLarger(a.Words(), b.Words()); }
    c := new Bigint(a.k);
    DiffWords(a.x, a.wds, b.x, b.wds, c.x);
    assert a.Words() == a.x[..a.wds] && b.Words() == b.x[..b.wds];
    c.wds := Trimmed(c.x, a.wds);
  }

  /** `diff`: the distance of two numbers, and whether the second is the larger one. */
  method Diff(a: Bigint, b: Bigint) returns (c: Bigint)
    requires a.IsNormal() && b.IsNormal()
    ensures fresh(c) && fresh(c.x) && c.IsNormal() && c.sign == (a.V() < b.V())
    ensures c.V() == if a.V() < b.V() then b.V() - a.V() else a.V() - b.V()
  {
    hide Scale, Mul, Val;
    var i := Cmp(a, b);
    if i == 0 {
      c := new Bigint(0);
      c.x[0], c.wds := 0, 1;
      ZeroWord(c.Words());
    } else if i < 0 {
      c := DiffOrdered(b, a);
      c.sign := true;
    } else {
      c := DiffOrdered(a, b);
    }
  }

  lemma ZeroWord(s: seq<Word>)
    requires |s| == 1 && s[0] == 0
    ensures Val(s) == 0
  {
    ValZero(s);
  }

  // ----- quorem -----

  /** The top word of a divisor as `quorem` wants it: four leading zero bits. */
  predicate Scaled(s: seq<Word>) { Normal(s) && 0x800_0000 <= s[|s| - 1] < 0x1000_0000 }

  /** A number below ten times the divisor is no longer than the divisor. */
  lemma NotLonger(b: seq<Word>, s: seq<Word>)
    requires Scaled(s) && Normal(b) && Val(b) < 10 * Val(s)
    ensures |b| <= |s|
  {
    hide Val;
    var n := |s| - 1;
    var st: int := s[n];
    ValTop(s);
    ScaleMono(st + 1, 0x1000_0000, n);
    TenBelow(n);
    if |b| > |s| {
      ValNormal(b);
      ScaleLonger(|s|, |b| - 1);
    }
  }

  lemma {:induction false} TenBelow(n: nat)
    ensures 10 * Scale(0x1000_0000, n) < Scale(1, n + 1)
  {
    if n > 0 { TenBelow(n - 1); }
  }

  /** The estimate of `quorem` from the top words: never too large, and too small by one at most. */
  lemma Estimate(b: seq<Word>, s: seq<Word>, bt: int, st: int, q: int)
    requires Scaled(s) && |b| == |s| && bt == b[|b| - 1] && st == s[|s| - 1] && st >= 0 && q == bt / (st + 1)
    ensures 0 <= q < 32 && Mul(Val(s), q) <= Val(b) < Mul(Val(s), q + 2)
  {
    hide Mul, Val;
    var n := |s| - 1;
    QuotientSmall(bt, st + 1, q);
    ValTop(b);
    ValTop(s);
    Lower(Val(s), q, st + 1, n, bt);
    Upper(Val(s), q, st, n, bt);
  }

  lemma QuotientSmall(bt: int, d: int, q: int)
    requires 0 <= bt < B && d > 0x800_0000 && q == bt / d
    ensures 0 <= q < 32 && q * d <= bt < (q + 1) * d
  {
    assert bt == q * d + bt % d;
    if q >= 32 { MulMono(32, q, d); }
    Distrib(q, 1, d);
  }

  lemma Lower(sv: int, q: int, d: int, n: nat, bt: int)
    requires q >= 0 && sv <= Scale(d, n) && q * d <= bt
    ensures Mul(sv, q) <= Scale(bt, n)
  {
    hide Scale;
    MulIs(sv, q);
    MulIs(Scale(d, n), q);
    MulMono(sv, Scale(d, n), q);
    ScaleMul(d, n, q);
    ScaleMono(q * d, bt, n);
  }

  lemma Upper(sv: int, q: int, st: int, n: nat, bt: int)
    requires 0 <= q < 32 && 0x800_0000 <= st && Scale(st, n) <= sv && bt < (q + 1) * (st + 1)
    ensures Scale(bt + 1, n) <= Mul(sv, q + 2)
  {
    hide Scale;
    var p := q * st;
    Distrib(q, 1, st + 1);
    Distrib(st, 1, q);
    Distrib(q, 2, st);
    assert bt + 1 <= p + q + st + 1 <= p + 2 * st == (q + 2) * st;
    ScaleMono(bt + 1, (q + 2) * st, n);
    ScaleMul(st, n, q + 2);
    MulIs(Scale(st, n), q + 2);
    MulIs(sv, q + 2);
    MulMono(Scale(st, n), sv, q + 2);
  }

  /** The length of what is left, as `quorem` finds it from the top word down. */
  method TrimTop(x: array<Word>, n: nat) returns (wds: nat)
    requires n < x.Length
    ensures wds <= n + 1 && Trim(x[..wds]) && Val(x[..wds]) == Val(x[..n + 1])
    ensures wds == 0 ==> x[0] == 0
    ensures x[n] != 0 ==> wds == n + 1
    ensures x[n] == 0 ==> wds <= n
  {
    hide Val;
    ghost var s := x[..n + 1];
    if x[n] != 0 {
      assert s[n] != 0;
      return n + 1;
    }
    wds := n;
    while wds > 1 && x[wds - 1] == 0
      invariant 0 <= wds <= n && (n > 0 ==> wds > 0) && forall i :: wds <= i <= n ==> s[i] == 0
    {
      wds := wds - 1;
    }
    TrimZeros(s, wds);
    assert s[..wds] == x[..wds];
  }

  /** One subtraction of `quorem` where the difference is not negative. */
  method Subtract(b: Bigint, S: Bigint, q: Word)
    requires b.Ok() && S.Ok() && b != S && b.x != S.x && S.wds >= 1 && b.wds == S.wds
    requires Mul(S.V(), q) <= b.V()
    modifies b, b.x
    ensures b.Ok() && b.V() == old(b.V()) - Mul(S.V(), q) && Trim(b.Words()) && (b.wds == 0 ==> b.x[0] == 0)
    ensures b.wds <= S.wds && S.Words() == old(S.Words())
  {
    hide Val, Scale, Mul;
    ghost var u, s := b.x[..], S.Words();
    assert u[..S.wds] == b.Words();
    ghost var debt := SubMul(b.x, S.x, S.wds, q);
    assert S.Words() == s;
    NoDebt(b.x[..], u, s, debt, q);
    assert b.x[..][..S.wds] == b.x[..S.wds];
    b.wds := TrimTop(b.x, S.wds - 1);
  }

  lemma Quotient(b: int, s: int, q: int, r: int)
    requires s > 0 && 0 <= r < s && b == Mul(s, q) + r
    ensures q == b / s && r == b % s
  {
    hide Mul;
    MulIs(s, q);
    DivUnique(b, s, q, r);
  }

  /** `quorem` of numbers of the same length; one correction is enough. */
  method QuoRemFull(b: Bigint, S: Bigint) returns (q: int)
    requires b.IsNormal() && S.Ok() && Scaled(S.Words()) && b != S && b.x != S.x && b.wds == S.wds
    modifies b, b.x
    ensures b.Ok() && 0 <= q && 0 <= b.V() < S.V() && old(b.V()) == Mul(S.V(), q) + b.V()
    ensures Trim(b.Words()) && (b.wds == 0 ==> b.x[0] == 0) && S.Words() == old(S.Words())
  {
    hide Val, Scale, Mul;
    ghost var bv, sv, s := b.V(), S.V(), S.Words();
    var n := S.wds;
    var bt: int, st: int := b.x[n - 1], S.x[n - 1];
    q := bt / (st + 1);
    Estimate(b.Words(), s, bt, st, q);
    MulTwo(sv, q);
    if q != 0 { Subtract(b, S, q); } else { MulTwo(sv, 0); }
    assert b.V() == bv - Mul(sv, q) < 2 * sv;
    var c := CmpSmall(b, S);
    if c >= 0 {
      MulTwo(sv, 0);
      SameLength(b.Words(), s);
      Subtract(b, S, 1);
      q := q + 1;
    }
  }

  /** `quorem`: the quotient, and the remainder in place. */
  method QuoRem(b: Bigint, S: Bigint) returns (q: int)
    requires b.IsNormal() && S.Ok() && Scaled(S.Words()) && b != S && b.x != S.x && b.V() < 10 * S.V()
    modifies b, b.x
    ensures S.V() > 0 && q == old(b.V()) / S.V() && b.Ok() && b.V() == old(b.V()) % S.V()
    ensures Trim(b.Words()) && (b.V() == 0 <==> b.wds <= 1 && b.x[0] == 0)
    ensures S.Words() == old(S.Words()) && 0 <= q < 10
  {
    hide Val, Scale, Mul;
    ghost var bv, sv := b.V(), S.V();
    ScaledPositive(S.Words());
    NotLonger(b.Words(), S.Words());
    if b.wds < S.wds {
      LongerLarger(b.Words(), S.Words());
      MulZero(sv);
      q := 0;
    } else {
      q := QuoRemFull(b, S);
    }
    ZeroByWord(b.Words(), b.x[..]);
    Quotient(bv, sv, q, b.V());
    TenQuotient(bv, sv, q);
  }

  lemma ScaledPositive(s: seq<Word>)
    requires Scaled(s)
    ensures Val(s) > 0 && s[|s| - 1] != 0
  {
    ValZero(s);
    ValBound(s);
  }

  lemma MulTwo(s: int, q: int)
    ensures Mul(s, q + 1) == Mul(s, q) + s && Mul(s, q + 2) == Mul(s, q) + 2 * s && Mul(s, 0) == 0 && Mul(s, 1) == s
  {
    MulIs(s, q);
    MulIs(s, q + 1);
    MulIs(s, q + 2);
    Distrib(q, 1, s);
    Distrib(q, 2, s);
    MulIs(s, 1);
  }

  lemma TenQuotient(b: int, s: int, q: int)
    requires s > 0 && 0 <= b < 10 * s && q == b / s
    ensures 0 <= q < 10
  {
    assert b == s * q + b % s;
    if q >= 10 { MulMono(10, q, s); }
    if q < 0 { MulMono(q, -1, s); }
  }

  method CmpSmall(b: Bigint, S: Bigint) returns (c: int)
    requires b.Ok() && Trim(b.Words()) && S.Ok() && Scaled(S.Words())
    ensures c < 0 <==> b.V() < S.V()
  {
    hide Val;
    ScaledPositive(S.Words());
    c := Cmp(b, S);
  }

  /** What is at least the divisor is as long as the divisor. */
  lemma SameLength(b: seq<Word>, s: seq<Word>)
    requires Scaled(s) && |b| <= |s| && Val(b) >= Val(s)
    ensures |b| == |s|
  {
    if |b| < |s| { LongerLarger(b, s); }
  }

  /** The test for zero looks at the first word and the length. */
  lemma ZeroByWord(s: seq<Word>, x: seq<Word>)
    requires Trim(s) && |s| <= |x| && |x| > 0 && s == x[..|s|] && (s == [] ==> x[0] == 0)
    ensures Val(s) == 0 <==> |s| <= 1 && x[0] == 0
  {
    ValZero(s);
  }
}
