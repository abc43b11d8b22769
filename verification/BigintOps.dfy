/**
 The big integers of `dtoa.c`: word arrays changed in place by carry and borrow loops.
 */
module BigintOps {

  import opened Arithmetic
  import opened Bignum

  /** `struct Bigint`; `x` has `maxwds` words, all of them arbitrary after `Balloc`. */
  class Bigint {
    const k: nat
    const x: array<Word>
    var wds: nat
    var sign: bool

    constructor (k: nat)
      ensures this.k == k && x.Length == Power(2, k) && fresh(x) && wds == 0 && !sign
    {
      this.k := k;
      x := new Word[Power(2, k)];
      wds, sign := 0, false;
    }

    ghost predicate Ok()
      reads this
    {
      wds <= x.Length == Power(2, k)
    }

    ghost function Words(): seq<Word>
      requires Ok()
      reads this, x
    {
      x[..wds]
    }

    ghost function V(): nat
      requires Ok()
      reads this, x
    {
      ValBound(Words());
      Val(Words())
    }

    ghost predicate IsNormal()
      reads this, x
    {
      Ok() && Normal(Words())
    }
  }

  // ----- multadd -----

  /** The loop of `multadd` after `i` words; `s` is what the words were. */
  ghost predicate MulDone(x: seq<Word>, s: seq<Word>, i: nat, carry: int, m: int, a: int) {
    i <= |x| && SameFrom(x, s, i) && Carried(x[..i], carry, s[..i], m, a)
  }

  lemma MulDoneOn(x: seq<Word>, s: seq<Word>, i: nat, carry: int, m: int, a: int, lo: Word, hi: int)
    requires MulDone(x, s, i, carry, m, a) && i < |x| && lo + B * hi == s[i] * m + carry
    ensures MulDone(x[i := lo], s, i + 1, hi, m, a)
  {
    CarriedOn(x[..i], carry, s[..i], m, a, s[i], lo, hi);
    assert x[i := lo][..i + 1] == x[..i] + [lo] && s[..i + 1] == s[..i] + [s[i]];
  }

  /** The loop of `multadd`; the 64-bit intermediate does not overflow. */
  method MulWords(x: array<Word>, n: nat, m: int, a: int) returns (carry: Word)
    requires 1 <= n <= x.Length && 0 <= m < B && 0 <= a < B
    modifies x
    ensures MulDone(x[..], old(x[..]), n, carry, m, a)
    ensures m >= 1 && old(x[n - 1]) != 0 ==> carry != 0 || x[n - 1] != 0
  {
    ghost var s := x[..];
    carry := a;
    MulZero(m);
    var i := 0;
    while i < n
      invariant 0 <= i <= n && MulDone(x[..], s, i, carry, m, a)
      invariant i == n && m >= 1 && s[n - 1] != 0 ==> carry != 0 || x[n - 1] != 0
    {
      Fits(x[i], m);
      var y := x[i] * m + carry;
      assert 0 <= y < B2;
      ghost var w := x[..];
      var lo: Word := y % B;
      MulDoneOn(w, s, i, carry, m, a, lo, y / B);
      carry := y / B;
      x[i] := lo;
      assert x[..] == w[i := lo];
      i := i + 1;
    }
  }

  method CopyWords(src: array<Word>, dst: array<Word>, n: nat)
    requires src != dst && n <= src.Length && n <= dst.Length
    modifies dst
    ensures dst[..n] == src[..n] && src[..] == old(src[..])
  {
    var i := 0;
    while i < n
      invariant 0 <= i <= n && dst[..i] == src[..i] && src[..] == old(src[..])
    {
      dst[i] := src[i];
      i := i + 1;
    }
  }

  lemma MulDoneValue(x: seq<Word>, s: seq<Word>, n: nat, carry: Word, m: int, a: int)
    requires MulDone(x, s, n, carry, m, a)
    ensures Val(if carry != 0 then x[..n] + [carry] else x[..n]) == Val(s[..n]) * m + a
  {
    ValSnoc(x[..n], carry);
    ScaleZero(n);
    MulIs(Val(s[..n]), m);
  }

  /** `multadd`: `b * m + a`, in place where the words suffice. */
  method MultAdd(b: Bigint, m: int, a: int) returns (r: Bigint)
    requires b.Ok() && b.wds >= 1 && 0 <= m < 0x8000_0000 && 0 <= a < 0x8000_0000
    modifies b, b.x
    ensures r.Ok() && r.wds >= 1 && (r == b || (fresh(r) && fresh(r.x)))
    ensures r.V() == old(b.V()) * m + a
    ensures old(b.IsNormal()) && m >= 1 ==> r.IsNormal()
  {
    ghost var s := b.x[..];
    var wds := b.wds;
    var carry := MulWords(b.x, wds, m, a);
    MulDoneValue(b.x[..], s, wds, carry, m, a);
    ghost var t := b.x[..][..wds];
    assert t == b.x[..wds] && s[..wds] == old(b.Words());
    r := b;
    if carry != 0 {
      if wds >= b.x.Length {
        r := new Bigint(b.k + 1);
        CopyWords(b.x, r.x, wds);
        r.sign := b.sign;
      }
      r.x[wds] := carry;
      r.wds := wds + 1;
      assert r.Words() == t + [carry];
    }
  }

  // ----- mult -----

  /** One row of `mult` after `i` words; `s` is what `c` was. */
  ghost predicate RowAt(c: seq<Word>, s: seq<Word>, j: nat, a: seq<Word>, i: nat, carry: int, y: int) {
    && j + i <= |c| && i <= |a| && SameFrom(c, s, j + i) && c[..j] == s[..j]
    && Added(c[j..j + i], carry, s[j..j + i], a[..i], y)
  }

  lemma RowAtStart(c: seq<Word>, j: nat, a: seq<Word>, y: int)
    requires j <= |c|
    ensures RowAt(c, c, j, a, 0, 0, y)
  {
    MulZero(y);
  }

  lemma RowAtOn(c: seq<Word>, s: seq<Word>, j: nat, a: seq<Word>, i: nat, carry: int, y: int, lo: Word, hi: int)
    requires RowAt(c, s, j, a, i, carry, y) && j + i < |c| && i < |a| && lo + B * hi == a[i] * y + s[j + i] + carry
    ensures RowAt(c[j + i := lo], s, j, a, i + 1, hi, y)
  {
    hide Scale, Mul;
    var d := c[j + i := lo];
    AddedOn(c[j..j + i], carry, s[j..j + i], a[..i], y, a[i], s[j + i], lo, hi);
    assert d[j..j + i + 1] == c[j..j + i] + [lo] && s[j..j + i + 1] == s[j..j + i] + [s[j + i]];
    assert a[..i + 1] == a[..i] + [a[i]];
  }

  lemma RowAtEnd(c: seq<Word>, s: seq<Word>, j: nat, a: seq<Word>, carry: Word, y: int)
    requires RowAt(c, s, j, a, |a|, carry, y) && j + |a| < |c|
    ensures var d := c[j + |a| := carry];
      && Val(d[j..j + |a| + 1]) == Val(s[j..j + |a|]) + Mul(Val(a), y)
      && d[..j] == s[..j] && SameFrom(d, s, j + |a| + 1)
  {
    hide Scale, Mul;
    var d, m := c[j + |a| := carry], j + |a|;
    assert d[j..m + 1] == c[j..m] + [carry] && a[..|a|] == a;
    ValSnoc(c[j..m], carry);
  }

  /** One row of `mult`: adds `a * y` to `c` from word `j` on. */
  method MultRow(c: array<Word>, j: nat, a: array<Word>, wa: nat, y: Word)
    requires c != a && 1 <= wa <= a.Length && j + wa < c.Length
    modifies c
    ensures Val(c[..][j..j + wa + 1]) == Val(old(c[..])[j..j + wa]) + Mul(Val(a[..wa]), y)
    ensures c[..][..j] == old(c[..])[..j] && SameFrom(c[..], old(c[..]), j + wa + 1) && a[..] == old(a[..])
  {
    hide Scale, Mul;
    ghost var s, u := c[..], a[..wa];
    var carry: Word := 0;
    var i := 0;
    RowAtStart(s, j, u, y);
    while i < wa
      invariant 0 <= i <= wa && a[..] == old(a[..]) && a[..wa] == u
      invariant RowAt(c[..], s, j, u, i, carry, y)
    {
      Fits(a[i], y);
      var z := a[i] * y + c[j + i] + carry;
      assert 0 <= z < B2 && a[i] == u[i];
      ghost var w := c[..];
      var lo: Word := z % B;
      RowAtOn(w, s, j, u, i, carry, y, lo, z / B);
      carry := z / B;
      c[j + i] := lo;
      assert c[..] == w[j + i := lo];
      i := i + 1;
    }
    RowAtEnd(c[..], s, j, u, carry, y);
    ghost var w := c[..];
    c[j + wa] := carry;
    assert c[..] == w[j + wa := carry];
  }

  /** `c` holds the product with the first `j` words of the second factor, and nothing above. */
  ghost predicate RowsDone(c: seq<Word>, a: seq<Word>, b: seq<Word>, j: nat) {
    && j <= |b| && |a| + |b| <= |c|
    && Val(c[..j + |a|]) == Mul(Val(a), Val(b[..j]))
    && forall i :: j + |a| <= i < |a| + |b| ==> c[i] == 0
  }

  lemma RowsStart(c: seq<Word>, a: seq<Word>, b: seq<Word>)
    requires |a| + |b| <= |c| && forall i :: 0 <= i < |a| + |b| ==> c[i] == 0
    ensures RowsDone(c, a, b, 0)
  {
    ValZero(c[..|a|]);
    MulZero(Val(a));
  }

  lemma RowArith(cv: int, dv: int, bv: int, ev: int, y: int, j: nat, av: int)
    requires cv == Mul(av, bv) && dv == cv + Scale(Mul(av, y), j) && ev == bv + Scale(y, j)
    ensures dv == Mul(av, ev)
  {
    MulIs(av, y);
    ScaleMul(y, j, av);
    MulAdd(bv, Scale(y, j), av);
    MulSwap(av, bv);
    MulSwap(av, ev);
  }

  lemma RowValue(s: seq<Word>, c: seq<Word>, j: nat, m: nat, d: int)
    requires j <= m < |c| && |c| == |s| && c[..j] == s[..j] && Val(c[j..m + 1]) == Val(s[j..m]) + d
    ensures Val(c[..m + 1]) == Val(s[..m]) + Scale(d, j)
  {
    assert s[..j] + s[j..m] == s[..m] && c[..j] + c[j..m + 1] == c[..m + 1];
    RowAdded(s[..j], s[j..m], c[j..m + 1], d);
  }

  lemma RowDoneValue(s: seq<Word>, c: seq<Word>, j: nat, m: nat, av: int, b: seq<Word>)
    requires j <= m < |c| == |s| && j < |b| && c[..j] == s[..j]
    requires Val(s[..m]) == Mul(av, Val(b[..j])) && Val(c[j..m + 1]) == Val(s[j..m]) + Mul(av, b[j])
    ensures Val(c[..m + 1]) == Mul(av, Val(b[..j + 1]))
  {
    hide Scale, Mul;
    RowValue(s, c, j, m, Mul(av, b[j]));
    ValPrefix(b, j);
    RowArith(Val(s[..m]), Val(c[..m + 1]), Val(b[..j]), Val(b[..j + 1]), b[j], j, av);
  }

  lemma RowDone(s: seq<Word>, c: seq<Word>, a: seq<Word>, b: seq<Word>, j: nat)
    requires RowsDone(s, a, b, j) && j < |b| && |c| == |s|
    requires c[..j] == s[..j] && SameFrom(c, s, j + |a| + 1)
    requires Val(c[j..j + |a| + 1]) == Val(s[j..j + |a|]) + Mul(Val(a), b[j])
    ensures RowsDone(c, a, b, j + 1)
  {
    hide Scale, Mul;
    hide Val;
    RowDoneValue(s, c, j, j + |a|, Val(a), b);
  }

  lemma RowSkipped(c: seq<Word>, a: seq<Word>, b: seq<Word>, j: nat)
    requires RowsDone(c, a, b, j) && j < |b| && b[j] == 0
    ensures RowsDone(c, a, b, j + 1)
  {
    ValPrefix(c, j + |a|);
    ValPrefix(b, j);
    ScaleZero(j);
    ScaleZero(j + |a|);
  }

  /** The rows of `mult`. */
  method MultRows(c: array<Word>, a: array<Word>, wa: nat, b: array<Word>, wb: nat)
    requires c != a && c != b && wa <= a.Length && wb <= b.Length && wb <= wa && wa + wb <= c.Length
    requires forall i :: 0 <= i < wa + wb ==> c[i] == 0
    modifies c
    ensures Val(c[..wa + wb]) == Mul(Val(a[..wa]), Val(b[..wb]))
    ensures a[..] == old(a[..]) && b[..] == old(b[..])
  {
    hide Scale, Mul;
    ghost var u, v := a[..wa], b[..wb];
    var j := 0;
    RowsStart(c[..], u, v);
    while j < wb
      invariant 0 <= j <= wb && a[..] == old(a[..]) && b[..] == old(b[..]) && a[..wa] == u && b[..wb] == v
      invariant RowsDone(c[..], u, v, j)
    {
      ghost var s := c[..];
      var y := b[j];
      assert y == v[j];
      if y != 0 {
        MultRow(c, j, a, wa, y);
        assert a[..wa] == u;
        RowDone(s, c[..], u, v, j);
      } else {
        RowSkipped(s, u, v, j);
      }
      j := j + 1;
    }
    assert v[..wb] == v && c[..][..wa + wb] == c[..wa + wb];
  }

  /** How many words are left without the zeros at the top. */
  method Trimmed(x: array<Word>, n: nat) returns (m: nat)
    requires n <= x.Length
    ensures m <= n && Val(x[..m]) == Val(x[..n])
    ensures m > 0 ==> x[m - 1] != 0
    ensures m == 0 <==> Val(x[..n]) == 0
  {
    m := n;
    ghost var s := x[..n];
    while m > 0 && x[m - 1] == 0
      invariant 0 <= m <= n && forall i :: m <= i < n ==> s[i] == 0
    {
      m := m - 1;
    }
    TrimZeros(s, m);
    assert s[..m] == x[..m];
    ValZero(s);
    if m > 0 { assert s[m - 1] != 0; }
  }

  method ClearWords(x: array<Word>, n: nat)
    requires n <= x.Length
    modifies x
    ensures forall i :: 0 <= i < n ==> x[i] == 0
  {
    var i := 0;
    while i < n
      invariant 0 <= i <= n && forall j :: 0 <= j < i ==> x[j] == 0
    {
      x[i] := 0;
      i := i + 1;
    }
  }

  /** `mult` of a number and one that is no longer. */
  method MultOrdered(a: Bigint, b: Bigint) returns (c: Bigint)
    requires a.Ok() && b.Ok() && b.wds <= a.wds
    ensures fresh(c) && fresh(c.x) && c.Ok()
    ensures c.V() == a.V() * b.V()
    ensures if c.V() == 0 then c.wds == 0 else c.IsNormal()
  {
    hide Scale, Mul;
    var wc := a.wds + b.wds;
    var k := if wc > a.x.Length then a.k + 1 else a.k;
    assert wc <= Power(2, k);
    c := new Bigint(k);
    ClearWords(c.x, wc);
    MultRows(c.x, a.x, a.wds, b.x, b.wds);
    c.wds := Trimmed(c.x, wc);
    MulIs(a.V(), b.V());
  }

  /** `mult`; the product of zero comes out without a word. */
  method Mult(a: Bigint, b: Bigint) returns (c: Bigint)
    requires a.Ok() && b.Ok()
    ensures fresh(c) && fresh(c.x) && c.Ok()
    ensures c.V() == a.V() * b.V()
    ensures if c.V() == 0 then c.wds == 0 else c.IsNormal()
  {
    if a.wds < b.wds { c := MultOrdered(b, a); } else { c := MultOrdered(a, b); }
  }

  // ----- pow5mult -----

  /** `i2b` */
  method I2B(i: Word) returns (b: Bigint)
    ensures fresh(b) && fresh(b.x) && b.IsNormal() && b.V() == i
  {
    b := new Bigint(1);
    b.x[0] := i;
    b.wds := 1;
    assert b.Words() == [i];
    ValSnoc([], i);
  }

  /** The list `p5s` of cached powers: 5 to the 4, 8, 16, ... */
  class Pow5Cache {
    var list: seq<Bigint>
    ghost var Repr: set<object>

    constructor ()
      ensures Valid() && fresh(Repr)
    {
      list := [];
      Repr := {this};
    }

    ghost predicate Valid()
      reads this, Repr
    {
      && this in Repr
      && forall i :: 0 <= i < |list| ==>
        && list[i] in Repr && list[i].x in Repr
        && list[i].IsNormal() && list[i].V() == P5(i)
    }

    /** A number that is not in the cache. */
    ghost predicate Apart(b: Bigint)
      reads this
    {
      b !in Repr && b.x !in Repr
    }

    method Append(p: Bigint)
      requires Valid() && p.IsNormal() && p.V() == P5(|list|)
      modifies this
      ensures Valid() && list == old(list) + [p] && Repr == old(Repr) + {p, p.x}
    {
      list := list + [p];
      Repr := Repr + {p, p.x};
    }

    /** The power at place `i`, computed from the one before it the first time it is asked for. */
    method Get(i: nat) returns (p: Bigint)
      requires Valid() && i <= |list|
      modifies this
      ensures Valid() && i < |list| && p == list[i] && fresh(Repr - old(Repr))
    {
      if i == |list| {
        if i == 0 { p := I2B(625); } else { p := Mult(list[i - 1], list[i - 1]); }
        Append(p);
      }
      p := list[i];
    }
  }

  /** The cached power at place `i`: each is the square of the one before. */
  function P5(i: nat): (p: nat)
    ensures p > 0
  {
    if i == 0 then 625 else NonZeroSquare(P5(i - 1)); P5(i - 1) * P5(i - 1)
  }

  lemma FirstP5()
    ensures P5(0) == 625
  {
  }

  lemma NonZeroSquare(p: nat)
    requires p > 0
    ensures p * p > 0
  {
    MulMono(1, p, p);
  }

  lemma {:induction false} P5IsPower(i: nat)
    ensures P5(i) == Power(5, 4 * Power(2, i))
  {
    if i == 0 {
      assert Power(5, 4) == 625 by { PowerAdd(5, 2, 2); assert Power(5, 2) == 25; }
    } else {
      P5IsPower(i - 1);
      PowerAdd(5, 4 * Power(2, i - 1), 4 * Power(2, i - 1));
    }
  }

  /** `b` times 5, 25 or 125. */
  method SmallPow5(b: Bigint, i: nat) returns (r: Bigint)
    requires b.Ok() && b.wds >= 1 && i < 4
    modifies b, b.x
    ensures r.Ok() && (r == b || (fresh(r) && fresh(r.x)))
    ensures r.V() == old(b.V()) * Power(5, i)
    ensures old(b.IsNormal()) ==> r.IsNormal()
  {
    assert Power(5, 1) == 5 && Power(5, 2) == 25 && Power(5, 3) == 125;
    r := b;
    if i != 0 { r := MultAdd(b, [5, 25, 125][i - 1], 0); }
  }

  /** The state of the loop of `pow5mult`: what is left to multiply by. */
  ghost predicate Left(v: nat, p: nat, n: nat, target: nat) { v * Power(p, n) == target }

  lemma Pow5Round(v: nat, p: nat, n: nat, target: nat)
    requires Left(v, p, n, target)
    ensures n % 2 == 1 ==> Left(v * p, p * p, n / 2, target)
    ensures n % 2 == 0 ==> Left(v, p * p, n / 2, target)
  {
    PowerHalf(p, n);
    if n % 2 == 1 { Assoc(v, p, Power(p * p, n / 2)); }
  }

  lemma LeftNothing(v: nat, p: nat, target: nat)
    requires Left(v, p, 0, target)
    ensures v == target
  {
  }

  lemma Pow5Split(v: nat, k: nat)
    ensures Left(v * Power(5, k % 4), 625, k / 4, v * Power(5, k))
  {
    PowerSquare(5, 2 * (k / 4));
    PowerSquare(25, k / 4);
    PowerAdd(5, k % 4, 4 * (k / 4));
    Assoc(v, Power(5, k % 4), Power(625, k / 4));
  }

  /** One turn of the loop of `pow5mult` that another one follows. */
  method Pow5Turn(cache: Pow5Cache, b: Bigint, at: nat, n: nat, ghost target: nat) returns (r: Bigint)
    requires cache.Valid() && at < |cache.list| && b.Ok() && cache.Apart(b)
    requires Left(b.V(), P5(at), n, target)
    modifies cache
    ensures cache.Valid() && at + 1 < |cache.list| && fresh(cache.Repr - old(cache.Repr))
    ensures r.Ok() && (r == b || (fresh(r) && fresh(r.x))) && cache.Apart(r)
    ensures Left(r.V(), P5(at + 1), n / 2, target)
  {
    hide Scale, Mul, Power, Val;
    Pow5Round(b.V(), P5(at), n, target);
    r := b;
    if n % 2 == 1 { r := Mult(b, cache.list[at]); }
    ghost var v := r.V();
    var _ := cache.Get(at + 1);
    assert r.V() == v;
  }

  /** The loop of `pow5mult`. */
  method Pow5Loop(cache: Pow5Cache, b: Bigint, k: nat, ghost target: nat) returns (r: Bigint)
    requires cache.Valid() && b.Ok() && cache.Apart(b) && k > 0 && Left(b.V(), 625, k, target)
    modifies cache
    ensures cache.Valid() && fresh(cache.Repr - old(cache.Repr))
    ensures r.Ok() && r.V() == target && fresh(r) && fresh(r.x) && cache.Apart(r)
    ensures target > 0 ==> r.IsNormal()
  {
    hide Scale, Mul, Power, Val, P5;
    r := b;
    var n, at := k, 0;
    var _ := cache.Get(0);
    FirstP5();
    while n > 1
      invariant n > 0 && cache.Valid() && at < |cache.list|
      invariant fresh(cache.Repr - old(cache.Repr))
      invariant r.Ok() && (r == b || (fresh(r) && fresh(r.x))) && cache.Apart(r)
      invariant Left(r.V(), P5(at), n, target)
    {
      r := Pow5Turn(cache, r, at, n, target);
      n, at := n / 2, at + 1;
    }
    r := Pow5Last(cache, r, at, target);
  }

  /** The last turn of the loop. */
  method Pow5Last(cache: Pow5Cache, b: Bigint, at: nat, ghost target: nat) returns (r: Bigint)
    requires cache.Valid() && at < |cache.list| && b.Ok() && Left(b.V(), P5(at), 1, target)
    ensures r.Ok() && r.V() == target && fresh(r) && fresh(r.x)
    ensures target > 0 ==> r.IsNormal()
  {
    Pow5Round(b.V(), P5(at), 1, target);
    LeftNothing(b.V() * P5(at), P5(at) * P5(at), target);
    r := Mult(b, cache.list[at]);
  }

  /** `pow5mult`: `b` times 5 to the `k`, by the cached squares. */
  method Pow5Mult(cache: Pow5Cache, b: Bigint, k: nat) returns (r: Bigint)
    requires cache.Valid() && b.Ok() && b.wds >= 1 && cache.Apart(b)
    modifies cache, b, b.x
    ensures cache.Valid() && fresh(cache.Repr - old(cache.Repr))
    ensures r.Ok() && (r == b || (fresh(r) && fresh(r.x))) && cache.Apart(r)
    ensures r.V() == old(b.V()) * Power(5, k)
    ensures old(b.IsNormal()) && old(b.V()) > 0 ==> r.IsNormal()
  {
    hide Scale, Mul, Val;
    ghost var v := b.V();
    ghost var target := v * Power(5, k);
    r := SmallPow5(b, k % 4);
    Pow5Split(v, k);
    if k / 4 == 0 {
      LeftNothing(r.V(), 625, target);
    } else {
      r := Pow5Loop(cache, r, k / 4, target);
      if v > 0 { MulMono(1, v, Power(5, k)); }
    }
  }

  // ----- lshift -----

  /** The shift into `y` after `i` words. */
  ghost predicate ShiftAt(y: seq<Word>, s: seq<Word>, n: nat, x: seq<Word>, i: nat, z: int, m: int) {
    |y| == |s| && n + i <= |y| && i <= |x| && y[..n] == s[..n] && Carried(y[n..n + i], z, x[..i], m, 0)
  }

  lemma ShiftAtOn(y: seq<Word>, s: seq<Word>, n: nat, x: seq<Word>, i: nat, z: int, m: int, lo: Word, hi: int)
    requires ShiftAt(y, s, n, x, i, z, m) && n + i < |y| && i < |x| && lo + B * hi == x[i] * m + z
    ensures ShiftAt(y[n + i := lo], s, n, x, i + 1, hi, m)
  {
    CarriedOn(y[n..n + i], z, x[..i], m, 0, x[i], lo, hi);
    assert y[n + i := lo][n..n + i + 1] == y[n..n + i] + [lo] && x[..i + 1] == x[..i] + [x[i]];
  }

  /** The shift of single bits, from `x` into `y` at word `n`; `m` is the power of two and `d` what is left of a word. */
  method ShiftWords(x: array<Word>, wds: nat, y: array<Word>, n: nat, m: nat, d: nat) returns (z: Word)
    requires x != y && 1 <= wds <= x.Length && n + wds <= y.Length && m > 0 && d > 0 && m * d == B
    modifies y
    ensures ShiftAt(y[..], old(y[..]), n, x[..wds], wds, z, m) && x[..] == old(x[..])
    ensures x[wds - 1] != 0 ==> z != 0 || y[n + wds - 1] != 0
  {
    ghost var s, u := y[..], x[..wds];
    z := 0;
    MulZero(m);
    var i := 0;
    while i < wds
      invariant 0 <= i <= wds && 0 <= z < m && x[..] == old(x[..]) && x[..wds] == u
      invariant ShiftAt(y[..], s, n, u, i, z, m)
      invariant i == wds && u[wds - 1] != 0 ==> z != 0 || y[n + wds - 1] != 0
    {
      ShiftOne(x[i], z, m, d);
      var w := x[i] * m;
      var lo: Word, hi := w % B + z, x[i] / d;
      assert x[i] == u[i];
      ghost var v := y[..];
      ShiftAtOn(v, s, n, u, i, z, m, lo, hi);
      y[n + i] := lo;
      assert y[..] == v[n + i := lo];
      z := hi;
      i := i + 1;
    }
  }

  /** The low and the high part of a word shifted by some bits, with `m * d == B`. */
  lemma ShiftOne(x: Word, z: int, m: nat, d: nat)
    requires m > 0 && d > 0 && m * d == B && 0 <= z < m
    ensures 0 <= (x * m) % B + z < B && 0 <= x / d < m
    ensures (x * m) % B + B * (x / d) == x * m
    ensures x != 0 ==> x * m > 0
  {
    var q, r := x / d, x % d;
    assert x == q * d + r;
    MulMono(r + 1, d, m);
    Distrib(r, 1, m);
    NonNeg(r, m);
    Distrib(q * d, r, m);
    assert q * d * m == q * (d * m) by { Assoc(q, d, m); }
    assert x * m == q * B + r * m && 0 <= r * m <= B - m;
    Remainder(x * m, q, r * m);
    if q >= m { MulMono(m, q, d); }
    if x != 0 { MulMono(1, x, m); }
  }

  lemma Remainder(w: int, q: int, r: int)
    requires w == q * B + r && 0 <= r < B
    ensures w % B == r && w / B == q
  {
  }

  /** The size class for `n` words. */
  method SizeFor(k: nat, n: nat) returns (k1: nat)
    ensures n <= Power(2, k1)
  {
    k1 := k;
    var i := Power(2, k);
    while n > i
      invariant i == Power(2, k1)
      decreases n - i
    {
      k1 := k1 + 1;
      i := i * 2;
    }
  }

  lemma ShiftValue(zeros: seq<Word>, t: seq<Word>, v: nat, k: nat)
    requires |zeros| == k / 32 && (forall i :: 0 <= i < |zeros| ==> zeros[i] == 0) && Val(t) == v * Power(2, k % 32)
    ensures Val(zeros + t) == v * Power(2, k)
  {
    ValZero(zeros);
    ValConcat(zeros, t);
    PowerWords(v * Power(2, k % 32), k / 32);
    PowerAdd(2, k % 32, 32 * (k / 32));
    Assoc(v, Power(2, k % 32), Power(2, 32 * (k / 32)));
  }

  /** What `lshift` has written behind the zero words: `v` shifted by less than a word. */
  ghost predicate Shifted(x: seq<Word>, n: nat, v: nat, m: nat) {
    n < |x| && (forall i :: 0 <= i < n ==> x[i] == 0) && Val(x[n..]) == Mul(v, m)
  }

  /** The words behind the zero words, where single bits are shifted. */
  method ShiftBits(b: Bigint, r: Bigint, n: nat, k: nat)
    requires b.Ok() && b.wds >= 1 && r.Ok() && b != r && b.x != r.x && 0 < k < 32 && n + b.wds + 1 <= r.x.Length
    requires forall i :: 0 <= i < n ==> r.x[i] == 0
    modifies r, r.x
    ensures r.Ok() && Shifted(r.Words(), n, b.V(), Power(2, k))
    ensures b.x[b.wds - 1] != 0 ==> r.x[r.wds - 1] != 0
    ensures b.Words() == old(b.Words()) && b.wds == old(b.wds)
  {
    hide Scale, Mul;
    var wds := b.wds;
    var m, d := Power(2, k), Power(2, 32 - k);
    PowerAdd(2, k, 32 - k);
    PowerWord();
    ghost var s := r.x[..];
    var z := ShiftWords(b.x, wds, r.x, n, m, d);
    ghost var w := r.x[..];
    r.x[n + wds] := z;
    r.wds := if z != 0 then n + wds + 1 else n + wds;
    assert b.Words() == b.x[..wds] && b.Words()[..wds] == b.Words();
    assert r.x[..] == w[n + wds := z] && r.Words() == r.x[..][..r.wds];
    ShiftBitsDone(w, s, n, b.Words(), z, m);
  }

  lemma ShiftBitsDone(w: seq<Word>, s: seq<Word>, n: nat, x: seq<Word>, z: Word, m: nat)
    requires ShiftAt(w, s, n, x, |x|, z, m) && n + |x| < |w| && |x| >= 1 && forall i :: 0 <= i < n ==> s[i] == 0
    ensures var r := w[n + |x| := z][..if z != 0 then n + |x| + 1 else n + |x|];
      n < |r| && (forall i :: 0 <= i < n ==> r[i] == 0) && Val(r[n..]) == Mul(Val(x), m)
  {
    var r := w[n + |x| := z][..if z != 0 then n + |x| + 1 else n + |x|];
    var t := w[n..n + |x|];
    assert x[..|x|] == x && r[n..] == if z != 0 then t + [z] else t;
    assert forall i :: 0 <= i < n ==> r[i] == w[..n][i] == s[..n][i];
    CarryOut(t, z, x, m);
  }

  lemma CarryOut(t: seq<Word>, z: Word, s: seq<Word>, m: int)
    requires Carried(t, z, s, m, 0)
    ensures Val(if z != 0 then t + [z] else t) == Mul(Val(s), m)
  {
    ValSnoc(t, z);
    ScaleZero(|t|);
  }

  lemma ShiftedValue(x: seq<Word>, v: nat, k: nat)
    requires Shifted(x, k / 32, v, Power(2, k % 32))
    ensures Val(x) == v * Power(2, k)
  {
    assert x == x[..k / 32] + x[k / 32..];
    MulIs(v, Power(2, k % 32));
    ShiftValue(x[..k / 32], x[k / 32..], v, k);
  }

  /** `lshift`: `b` times 2 to the `k`. */
  method LShift(b: Bigint, k: nat) returns (r: Bigint)
    requires b.Ok() && b.wds >= 1
    ensures fresh(r) && fresh(r.x) && r.Ok() && r.wds >= 1
    ensures r.V() == b.V() * Power(2, k)
    ensures b.IsNormal() && b.V() > 0 ==> r.IsNormal()
  {
    hide Scale, Mul;
    if b.IsNormal() && b.V() > 0 { TopNonZero(b.Words()); }
    var n := k / 32;
    var k1 := SizeFor(b.k, n + b.wds + 1);
    r := new Bigint(k1);
    ClearWords(r.x, n);
    if k % 32 != 0 { ShiftBits(b, r, n, k % 32); } else { ShiftNone(b, r, n); }
    ShiftedValue(r.Words(), b.V(), k);
  }

  method ShiftNone(b: Bigint, r: Bigint, n: nat)
    requires b.Ok() && b.wds >= 1 && r.Ok() && b != r && b.x != r.x && n + b.wds <= r.x.Length
    requires forall i :: 0 <= i < n ==> r.x[i] == 0
    modifies r, r.x
    ensures r.Ok() && Shifted(r.Words(), n, b.V(), Power(2, 0)) && r.x[r.wds - 1] == b.x[b.wds - 1]
    ensures b.Words() == old(b.Words()) && b.wds == old(b.wds)
  {
    hide Scale, Mul, Val;
    ghost var zeros, s := r.x[..n], b.Words();
    CopyAt(b.x, b.wds, r.x, n);
    r.wds := n + b.wds;
    assert b.Words() == s && r.Words() == zeros + s && r.Words()[n..] == s;
    ShiftByNone(Val(s));
  }

  lemma ShiftByNone(v: int)
    ensures Mul(v, Power(2, 0)) == v
  {
    MulIs(v, 1);
  }

  lemma TopNonZero(s: seq<Word>)
    requires Normal(s) && Val(s) > 0
    ensures s[|s| - 1] != 0
  {
    ValZero(s);
  }

  method CopyAt(x: array<Word>, wds: nat, y: array<Word>, n: nat)
    requires x != y && wds <= x.Length && n + wds <= y.Length
    modifies y
    ensures y[..n + wds] == old(y[..n]) + x[..wds] && x[..] == old(x[..])
  {
    var i := 0;
    ghost var s := y[..n];
    while i < wds
      invariant 0 <= i <= wds && y[..n + i] == s + x[..i] && x[..] == old(x[..])
    {
      y[n + i] := x[i];
      i := i + 1;
    }
  }
}
