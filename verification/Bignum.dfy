/**
 Natural numbers as words of 32 bits, least significant first.
 */
module Bignum {

  import opened Arithmetic

  const B := 0x1_0000_0000
  const B2 := 0x1_0000_0000_0000_0000

  type Word = w: int | 0 <= w < B

  /** `v` times `B` to the `n` */
  function Scale(v: int, n: nat): int {
    if n == 0 then v else B * Scale(v, n - 1)
  }

  function Val(s: seq<Word>): int {
    if s == [] then 0 else Val(s[..|s| - 1]) + Scale(s[|s| - 1], |s| - 1)
  }

  /** No leading zero word, but for zero itself. */
  predicate Normal(s: seq<Word>) { |s| >= 1 && (|s| > 1 ==> s[|s| - 1] != 0) }

  predicate SameFrom(s: seq<Word>, t: seq<Word>, k: nat) {
    |s| == |t| && forall i :: k <= i < |s| ==> s[i] == t[i]
  }

  // ----- products -----

  /** A product of words, and two words more, fit into 64 bits. */
  lemma Fits(x: int, m: int)
    requires 0 <= x < B && 0 <= m < B
    ensures 0 <= x * m <= (B - 1) * (B - 1)
    ensures x > 0 && m > 0 ==> x * m > 0
  {
    MulMono(x, B - 1, m);
    MulMono(m, B - 1, B - 1);
    NonNeg(x, m);
    if x > 0 { MulMono(1, x, m); }
  }

  /** The product, under a name that keeps products of large numbers apart from linear arithmetic. */
  function Mul(a: int, b: int): int
    decreases if b < 0 then -b else b
  {
    if b == 0 then 0 else if b > 0 then Mul(a, b - 1) + a else Mul(a, b + 1) - a
  }

  lemma {:induction false} MulIs(a: int, b: int)
    ensures Mul(a, b) == a * b
    decreases if b < 0 then -b else b
  {
    if b > 0 {
      MulIs(a, b - 1);
      Distrib(b - 1, 1, a);
    } else if b < 0 {
      MulIs(a, b + 1);
      Distrib(b + 1, -1, a);
    }
  }

  lemma {:induction false} MulAdd(a: int, b: int, c: int)
    ensures Mul(a + b, c) == Mul(a, c) + Mul(b, c)
    decreases if c < 0 then -c else c
  {
    if c > 0 { MulAdd(a, b, c - 1); } else if c < 0 { MulAdd(a, b, c + 1); }
  }

  lemma MulZero(m: int)
    ensures Mul(0, m) == 0 && Mul(m, 0) == 0
  {
    MulIs(0, m);
  }

  lemma MulSwap(a: int, b: int)
    ensures Mul(a, b) == Mul(b, a)
  {
    MulIs(a, b);
    MulIs(b, a);
  }

  // ----- scaling -----

  lemma {:induction false} ScaleAdd(u: int, v: int, n: nat)
    ensures Scale(u + v, n) == Scale(u, n) + Scale(v, n)
  {
    if n > 0 { ScaleAdd(u, v, n - 1); }
  }

  lemma {:induction false} ScaleUp(v: int, n: nat)
    ensures Scale(B * v, n) == Scale(v, n + 1)
  {
    if n > 0 { ScaleUp(v, n - 1); }
  }

  lemma {:induction false} ScaleTwice(v: int, m: nat, n: nat)
    ensures Scale(Scale(v, m), n) == Scale(v, m + n)
  {
    if n > 0 { ScaleTwice(v, m, n - 1); }
  }

  lemma {:induction false} ScaleMul(v: int, n: nat, m: int)
    ensures Scale(v * m, n) == Mul(Scale(v, n), m)
  {
    MulIs(Scale(v, n), m);
    if n > 0 {
      ScaleMul(v, n - 1, m);
      MulIs(Scale(v, n - 1), m);
      Assoc(B, Scale(v, n - 1), m);
    }
  }

  lemma {:induction false} ScaleMono(u: int, v: int, n: nat)
    requires u <= v
    ensures Scale(u, n) <= Scale(v, n) && (u < v ==> Scale(u, n) < Scale(v, n))
  {
    if n > 0 { ScaleMono(u, v, n - 1); }
  }

  lemma {:induction false} ScaleZero(n: nat)
    ensures Scale(0, n) == 0
  {
    if n > 0 { ScaleZero(n - 1); }
  }

  lemma ScalePos(v: int, n: nat)
    requires v >= 0
    ensures Scale(v, n) >= 0 && (v > 0 ==> Scale(v, n) > 0)
  {
    ScaleMono(0, v, n);
    ScaleZero(n);
  }

  lemma {:induction false} ScaleLonger(m: nat, n: nat)
    requires m <= n
    ensures Scale(1, m) <= Scale(1, n)
  {
    if m < n {
      ScaleLonger(m, n - 1);
      ScalePos(1, n - 1);
    }
  }

  // ----- values -----

  lemma ValSnoc(s: seq<Word>, w: Word)
    ensures Val(s + [w]) == Val(s) + Scale(w, |s|)
  {
    assert (s + [w])[..|s|] == s;
  }

  lemma ValPrefix(s: seq<Word>, i: nat)
    requires i < |s|
    ensures Val(s[..i + 1]) == Val(s[..i]) + Scale(s[i], i)
  {
    assert s[..i + 1] == s[..i] + [s[i]];
    ValSnoc(s[..i], s[i]);
  }

  lemma {:induction false} ValConcat(s: seq<Word>, t: seq<Word>)
    ensures Val(s + t) == Val(s) + Scale(Val(t), |s|)
  {
    if t == [] {
      assert s + t == s;
      ScaleZero(|s|);
    } else {
      var u, w := t[..|t| - 1], t[|t| - 1];
      assert s + t == (s + u) + [w];
      ValSnoc(s + u, w);
      ValConcat(s, u);
      ScaleTwice(w, |u|, |s|);
      ScaleAdd(Val(u), Scale(w, |u|), |s|);
    }
  }

  lemma {:induction false} ValBound(s: seq<Word>)
    ensures 0 <= Val(s) < Scale(1, |s|)
  {
    if s != [] {
      var w: int, n := s[|s| - 1], |s| - 1;
      ValBound(s[..n]);
      ScalePos(w, n);
      ScaleAdd(w, 1, n);
      ScaleMono(w + 1, B, n);
      ScaleUp(1, n);
    }
  }

  /** The top word fixes the magnitude. */
  lemma ValTop(s: seq<Word>)
    requires s != []
    ensures var w: int := s[|s| - 1]; Scale(w, |s| - 1) <= Val(s) < Scale(w + 1, |s| - 1)
  {
    ValBound(s[..|s| - 1]);
    ScaleAdd(s[|s| - 1], 1, |s| - 1);
  }

  lemma ValNormal(s: seq<Word>)
    requires s != [] && s[|s| - 1] != 0
    ensures Scale(1, |s| - 1) <= Val(s)
  {
    ValTop(s);
    ScaleMono(1, s[|s| - 1], |s| - 1);
  }

  /** A longer normal number is a larger one. */
  lemma LongerLarger(s: seq<Word>, t: seq<Word>)
    requires |s| < |t| && t[|t| - 1] != 0
    ensures Val(s) < Val(t)
  {
    ValBound(s);
    ScaleLonger(|s|, |t| - 1);
    ValNormal(t);
  }

  lemma {:induction false} ValZero(s: seq<Word>)
    ensures Val(s) == 0 <==> forall i :: 0 <= i < |s| ==> s[i] == 0
  {
    if s != [] {
      var w, n := s[|s| - 1], |s| - 1;
      var t := s[..n];
      ValZero(t);
      ValBound(t);
      ScalePos(w, n);
      ScaleZero(n);
      assert forall i :: 0 <= i < n ==> t[i] == s[i];
    }
  }

  lemma ValSplit(s: seq<Word>, i: nat)
    requires i <= |s|
    ensures Val(s) == Val(s[..i]) + Scale(Val(s[i..]), i)
  {
    assert s == s[..i] + s[i..];
    ValConcat(s[..i], s[i..]);
  }

  lemma LastDecides(s: seq<Word>, t: seq<Word>)
    requires |s| == |t| > 0 && s[|s| - 1] < t[|t| - 1]
    ensures Val(s) < Val(t)
  {
    var v: int, w: int := s[|s| - 1], t[|t| - 1];
    ValTop(s);
    ValTop(t);
    ScaleMono(v + 1, w, |s| - 1);
  }

  /** The highest word in which two numbers differ decides. */
  lemma TopDecides(s: seq<Word>, t: seq<Word>, i: nat)
    requires |s| == |t| && i < |s| && s[i] < t[i] && s[i + 1..] == t[i + 1..]
    ensures Val(s) < Val(t)
  {
    hide Scale, Val;
    ValSplit(s, i + 1);
    ValSplit(t, i + 1);
    LastDecides(s[..i + 1], t[..i + 1]);
  }

  /** Zero words at the top do not count. */
  lemma {:induction false} TrimZeros(s: seq<Word>, n: nat)
    requires n <= |s| && forall i :: n <= i < |s| ==> s[i] == 0
    ensures Val(s) == Val(s[..n])
  {
    if n < |s| {
      var t := s[..|s| - 1];
      TrimZeros(t, n);
      ScaleZero(|s| - 1);
      assert t[..n] == s[..n];
    } else {
      assert s[..n] == s;
    }
  }

  // ----- carry and borrow loops -----

  /** The words of `s * m + a` so far: `t` in place and a carry. */
  ghost predicate Carried(t: seq<Word>, carry: int, s: seq<Word>, m: int, a: int) {
    |t| == |s| && Val(t) + Scale(carry, |t|) == Mul(Val(s), m) + a
  }

  lemma CarriedOn(t: seq<Word>, carry: int, s: seq<Word>, m: int, a: int, x: Word, lo: Word, hi: int)
    requires Carried(t, carry, s, m, a) && lo + B * hi == x * m + carry
    ensures Carried(t + [lo], hi, s + [x], m, a)
  {
    hide Scale, Mul, Val;
    var n := |t|;
    ValSnoc(t, lo);
    ValSnoc(s, x);
    ScaleUp(hi, n);
    ScaleAdd(lo, B * hi, n);
    ScaleAdd(x * m, carry, n);
    ScaleMul(x, n, m);
    MulAdd(Val(s), Scale(x, n), m);
  }

  /** The words of `u + a * y` so far. */
  ghost predicate Added(t: seq<Word>, carry: int, u: seq<Word>, a: seq<Word>, y: int) {
    |t| == |u| == |a| && Val(t) + Scale(carry, |t|) == Val(u) + Mul(Val(a), y)
  }

  lemma AddedOn(t: seq<Word>, carry: int, u: seq<Word>, a: seq<Word>, y: int, x: Word, z: Word, lo: Word, hi: int)
    requires Added(t, carry, u, a, y) && lo + B * hi == x * y + z + carry
    ensures Added(t + [lo], hi, u + [z], a + [x], y)
  {
    hide Scale, Mul, Val;
    var n := |t|;
    ValSnoc(t, lo);
    ValSnoc(u, z);
    ValSnoc(a, x);
    ScaleUp(hi, n);
    ScaleAdd(lo, B * hi, n);
    ScaleAdd(x * y + z, carry, n);
    ScaleAdd(x * y, z, n);
    ScaleMul(x, n, y);
    MulAdd(Val(a), Scale(x, n), y);
  }

  /** The words of `u - s * q` so far: `t` in place and a debt. */
  ghost predicate Subtracted(t: seq<Word>, debt: int, u: seq<Word>, s: seq<Word>, q: int) {
    |t| == |u| == |s| && Val(t) + Mul(Val(s), q) == Val(u) + Scale(debt, |t|)
  }

  lemma SubtractedOn(t: seq<Word>, debt: int, u: seq<Word>, s: seq<Word>, q: int, x: Word, w: Word, lo: Word, hi: int)
    requires Subtracted(t, debt, u, s, q) && lo + w * q + debt == x + B * hi
    ensures Subtracted(t + [lo], hi, u + [x], s + [w], q)
  {
    hide Scale, Mul, Val;
    var n := |t|;
    ValSnoc(t, lo);
    ValSnoc(u, x);
    ValSnoc(s, w);
    ScaleUp(hi, n);
    ScaleAdd(x, B * hi, n);
    ScaleAdd(lo + w * q, debt, n);
    ScaleAdd(lo, w * q, n);
    ScaleMul(w, n, q);
    MulAdd(Val(s), Scale(w, n), q);
  }

  /** Words above the first that grow by `d`. */
  lemma RowAdded(lo: seq<Word>, before: seq<Word>, after: seq<Word>, d: int)
    requires Val(after) == Val(before) + d
    ensures Val(lo + after) == Val(lo + before) + Scale(d, |lo|)
  {
    hide Scale, Val;
    ValConcat(lo, before);
    ValConcat(lo, after);
    ScaleAdd(Val(before), d, |lo|);
  }

  // ----- powers -----

  lemma PowerWord()
    ensures Power(2, 32) == B && Power(2, 28) == 0x1000_0000 && Power(2, 27) == 0x800_0000
  {
    assert Power(2, 3) == 8;
    PowerAdd(2, 3, 1);
    PowerAdd(2, 4, 4);
    PowerAdd(2, 8, 8);
    PowerAdd(2, 8, 3);
    PowerAdd(2, 16, 11);
    PowerAdd(2, 27, 1);
    PowerAdd(2, 16, 16);
  }

  /** Shifting by whole words. */
  lemma {:induction false} PowerWords(v: nat, n: nat)
    ensures Scale(v, n) == v * Power(2, 32 * n)
  {
    if n > 0 {
      PowerWords(v, n - 1);
      PowerWord();
      PowerAdd(2, 32, 32 * (n - 1));
      Assoc(B, v, Power(2, 32 * (n - 1)));
      Assoc(v, B, Power(2, 32 * (n - 1)));
    }
  }
}
