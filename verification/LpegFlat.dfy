/**
 The flat encoding of pattern trees in `lptree.c`: a tree is a run of slots, its first child follows it and its second
 child is found by an offset. The rewritings move slots in place, and the constructors fill what they have allocated.
 */
module LpegFlat {
  import opened Arithmetic
  import opened Basics
  import opened LpegCharset
  import opened LpegTree
  import opened LpegAnalysis
  import opened LpegRewrite

  /** `TTree`; a set is followed by the slots of its bitmap. */
  datatype Slot =
    | SChar(c: Char) | SSet(cs: Charset) | SBits | SAny | STrue | SFalse
    | SRep | SNot | SAnd | SBehind(n: nat)
    | SSeq(ps: nat) | SChoice(ps: nat)

  function Encode(t: Tree): (s: seq<Slot>)
    ensures |s| >= 1
  {
    match t
    case TChar(c) => [SChar(c)]
    case TSet(cs) => [SSet(cs), SBits, SBits, SBits, SBits]
    case TAny => [SAny]
    case TTrue => [STrue]
    case TFalse => [SFalse]
    case TRep(p) => [SRep] + Encode(p)
    case TNot(p) => [SNot] + Encode(p)
    case TAnd(p) => [SAnd] + Encode(p)
    case TBehind(n, p) => [SBehind(n)] + Encode(p)
    case TSeq(p1, p2) => [SSeq(1 + |Encode(p1)|)] + Encode(p1) + Encode(p2)
    case TChoice(p1, p2) => [SChoice(1 + |Encode(p1)|)] + Encode(p1) + Encode(p2)
  }

  /** The tree stands at a place among the slots. */
  ghost predicate Stands(s: seq<Slot>, p: nat, t: Tree) {
    p + |Encode(t)| <= |s| && s[p..p + |Encode(t)|] == Encode(t)
  }

  predicate Binary(x: Slot) { x.SSeq? || x.SChoice? }

  predicate SameTag(x: Slot, y: Slot) { (x.SSeq? && y.SSeq?) || (x.SChoice? && y.SChoice?) }

  function WithPs(x: Slot, ps: nat): Slot
    requires Binary(x)
  {
    if x.SSeq? then SSeq(ps) else SChoice(ps)
  }

  /** The head slot of a binary tree. */
  function Head(t: Tree, ps: nat): Slot
    requires t.TSeq? || t.TChoice?
  {
    if t.TSeq? then SSeq(ps) else SChoice(ps)
  }

  lemma EncodeOp(t: Tree)
    requires t.TSeq? || t.TChoice?
    ensures Encode(t) == [Head(t, 1 + |Encode(t.p1)|)] + Encode(t.p1) + Encode(t.p2)
  {
  }

  lemma HeadTells(t: Tree)
    ensures Encode(t)[0].SSeq? <==> t.TSeq?
    ensures Encode(t)[0].SChoice? <==> t.TChoice?
  {
  }

  /** Only the slots of one run have changed. */
  ghost predicate SameOutside(s: seq<Slot>, t: seq<Slot>, p: nat, n: nat) {
    |s| == |t| && p + n <= |s| && s[..p] == t[..p] && s[p + n..] == t[p + n..]
  }

  // ----- correctassociativity -----

  /** `memmove` towards the front */
  method MoveDown(a: array<Slot>, dst: nat, src: nat, n: nat)
    requires dst <= src && src + n <= a.Length
    modifies a
    ensures a[dst..dst + n] == old(a[src..src + n])
    ensures a[..dst] == old(a[..dst]) && a[dst + n..] == old(a[dst + n..])
  {
    ghost var s := a[..];
    var i := 0;
    while i < n
      invariant 0 <= i <= n && a[dst..dst + i] == s[src..src + i] && a[..dst] == s[..dst] && a[dst + i..] == s[dst + i..]
    {
      assert a[src + i] == a[dst + i..][src - dst] == s[src + i];
      ghost var before, tail := a[dst..dst + i], a[dst + i..];
      a[dst + i] := a[src + i];
      assert a[dst..dst + i + 1] == before + [s[src + i]];
      assert a[dst + i + 1..] == tail[1..];
      i := i + 1;
    }
  }

  /** The slots of a left-associative tree, before and after one rotation. */
  lemma Rotation(t: Tree)
    requires (t.TSeq? || t.TChoice?) && SameOp(t, t.p1)
    ensures var a, b, c := Encode(t.p1.p1), Encode(t.p1.p2), Encode(t.p2);
      && Encode(t) == [Head(t, 2 + |a| + |b|), Head(t, 1 + |a|)] + a + b + c
      && Encode(Op(t, t.p1.p1, Op(t, t.p1.p2, t.p2))) == [Head(t, 1 + |a|)] + a + [Head(t, 1 + |b|)] + b + c
  {
    hide Encode;
    EncodeOp(t);
    EncodeOp(t.p1);
    var u := Op(t, t.p1.p2, t.p2);
    EncodeOp(u);
    EncodeOp(Op(t, t.p1.p1, u));
    var a, b, c := Encode(t.p1.p1), Encode(t.p1.p2), Encode(t.p2);
    Regroup(Head(t, 2 + |a| + |b|), Head(t, 1 + |a|), Head(t, 1 + |b|), a, b, c);
  }

  lemma Regroup(h: Slot, f: Slot, g: Slot, a: seq<Slot>, b: seq<Slot>, c: seq<Slot>)
    ensures [h] + ([f] + a + b) + c == [h, f] + a + b + c
    ensures [f] + a + ([g] + b + c) == [f] + a + [g] + b + c
  {
  }

  lemma Slice(s: seq<Slot>, p: nat, n: nat, i: nat, j: nat)
    requires p + n <= |s| && i <= j <= n
    ensures s[p..p + n][i..j] == s[p + i..p + j]
  {
    var t := s[p..p + n];
    assert forall k :: 0 <= k < j - i ==> t[i..j][k] == t[i + k] == s[p + i + k] == s[p + i..p + j][k];
  }

  /** One turn of the loop: the first grandchild moves down by a slot, and the freed slot heads the other two. */
  method RotateOnce(a: array<Slot>, p: nat, ghost t: Tree)
    requires (t.TSeq? || t.TChoice?) && SameOp(t, t.p1) && Stands(a[..], p, t)
    modifies a
    ensures Stands(a[..], p, Op(t, t.p1.p1, Op(t, t.p1.p2, t.p2)))
    ensures SameOutside(a[..], old(a[..]), p, |Encode(t)|)
    ensures |Encode(Op(t, t.p1.p1, Op(t, t.p1.p2, t.p2)))| == |Encode(t)|
  {
    hide Encode, Head, Stands, SameOutside;
    BeforeRotation(a[..], p, t);
    ghost var tag := a[p];
    RotateSlots(a, p, Encode(t.p1.p1), Encode(t.p1.p2), Encode(t.p2));
    AfterRotation(a[..], p, t, tag);
  }

  method RotateSlots(a: array<Slot>, p: nat, ghost x: seq<Slot>, ghost y: seq<Slot>, ghost z: seq<Slot>)
    requires p + 2 + |x| + |y| + |z| <= a.Length && Binary(a[p]) && Binary(a[p + 1]) && a[p].ps == 2 + |x| + |y| && a[p + 1].ps == 1 + |x|
    requires a[..][p + 2..p + 2 + |x|] == x && a[..][p + 2 + |x|..p + 2 + |x| + |y| + |z|] == y + z
    modifies a
    ensures a[..][p..p + 2 + |x| + |y| + |z|] == [WithPs(old(a[p]), 1 + |x|)] + x + [WithPs(old(a[p]), 1 + |y|)] + y + z
    ensures SameOutside(a[..], old(a[..]), p, 2 + |x| + |y| + |z|)
  {
    hide SameOutside;
    ghost var s := a[..];
    var n1 := a[p].ps - 1;
    var n11 := a[p + 1].ps - 1;
    var n12 := n1 - n11 - 1;
    var tag := a[p];
    MoveDown(a, p + 1, p + 2, n11);
    ghost var w := a[..];
    assert w[..p + 1] == s[..p + 1] && w[p + 1..p + 1 + n11] == x && w[p + 1 + n11..] == s[p + 1 + n11..];
    a[p] := WithPs(tag, n11 + 1);
    a[p + n11 + 1] := WithPs(tag, n12 + 1);
    Assemble(s, w, a[..], p, 2 + |x| + |y| + |z|, WithPs(tag, n11 + 1), x, WithPs(tag, n12 + 1), y, z);
  }

  lemma BeforeRotation(s: seq<Slot>, p: nat, t: Tree)
    requires (t.TSeq? || t.TChoice?) && SameOp(t, t.p1) && Stands(s, p, t)
    ensures var x, y, z, n := Encode(t.p1.p1), Encode(t.p1.p2), Encode(t.p2), |Encode(t)|;
      && n == 2 + |x| + |y| + |z| && p + n <= |s|
      && s[p] == Head(t, 2 + |x| + |y|) && s[p + 1] == Head(t, 1 + |x|)
      && s[p + 2..p + 2 + |x|] == x && s[p + 2 + |x|..p + n] == y + z
      && Binary(s[p]) && Binary(s[p + 1]) && s[p].ps == 2 + |x| + |y| && s[p + 1].ps == 1 + |x|
  {
    hide Encode;
    Rotation(t);
    var x, y, z, n := Encode(t.p1.p1), Encode(t.p1.p2), Encode(t.p2), |Encode(t)|;
    var r := s[p..p + n];
    assert s[p] == r[0] && s[p + 1] == r[1];
    Slice(s, p, n, 2, 2 + |x|);
    Slice(s, p, n, 2 + |x|, n);
    Fields(r[0], r[1], x, y, z);
  }

  lemma Fields(f: Slot, g: Slot, x: seq<Slot>, y: seq<Slot>, z: seq<Slot>)
    ensures var r := [f, g] + x + y + z; r[2..2 + |x|] == x && r[2 + |x|..|r|] == y + z
  {
  }

  lemma AfterRotation(v: seq<Slot>, p: nat, t: Tree, tag: Slot)
    requires (t.TSeq? || t.TChoice?) && SameOp(t, t.p1) && p + |Encode(t)| <= |v|
    requires var x, y, z := Encode(t.p1.p1), Encode(t.p1.p2), Encode(t.p2);
      && tag == Head(t, 2 + |x| + |y|)
      && v[p..p + |Encode(t)|] == [WithPs(tag, 1 + |x|)] + x + [WithPs(tag, 1 + |y|)] + y + z
    ensures var u := Op(t, t.p1.p1, Op(t, t.p1.p2, t.p2)); Stands(v, p, u) && |Encode(u)| == |Encode(t)|
  {
    hide Encode;
    Rotation(t);
  }

  lemma TailOn(s: seq<Slot>, w: seq<Slot>, i: nat, j: nat)
    requires i <= j <= |s| == |w| && s[i..] == w[i..]
    ensures s[j..] == w[j..]
  {
    assert s[j..] == s[i..][j - i..] && w[j..] == w[i..][j - i..];
  }

  lemma Assemble(s: seq<Slot>, w: seq<Slot>, v: seq<Slot>, p: nat, n: nat, h1: Slot, x: seq<Slot>, h2: Slot, y: seq<Slot>, z: seq<Slot>)
    requires p + n <= |s| == |w| && n == 2 + |x| + |y| + |z|
    requires s[p + 2 + |x|..p + n] == y + z
    requires w[..p + 1] == s[..p + 1] && w[p + 1..p + 1 + |x|] == x && w[p + 1 + |x|..] == s[p + 1 + |x|..]
    requires v == w[p := h1][p + |x| + 1 := h2]
    ensures v[p..p + n] == [h1] + x + [h2] + y + z
    ensures SameOutside(v, s, p, n)
  {
    var m := p + |x| + 2;
    TailOn(w, s, p + 1 + |x|, m);
    assert v[m..] == w[m..];
    TailOn(v, s, m, p + n);
    assert v[m..p + n] == v[m..][..p + n - m] == s[m..][..p + n - m] == s[m..p + n];
    assert v[p + 1..p + 1 + |x|] == w[p + 1..p + 1 + |x|];
    assert v[p..p + n] == [v[p]] + v[p + 1..p + 1 + |x|] + [v[p + |x| + 1]] + v[m..p + n];
    assert v[..p] == w[..p] == w[..p + 1][..p] == s[..p + 1][..p] == s[..p];
  }

  /** `correctassociativity`, in place: the tree at `p` becomes its rotation, and its size does not change. */
  method CorrectAssociativity(a: array<Slot>, p: nat, ghost t: Tree)
    requires (t.TSeq? || t.TChoice?) && Stands(a[..], p, t)
    modifies a
    ensures Stands(a[..], p, Rotated(t)) && |Encode(Rotated(t))| == |Encode(t)|
    ensures SameOutside(a[..], old(a[..]), p, |Encode(t)|)
  {
    hide Encode, Rotated;
    ghost var u, n, s := t, |Encode(t)|, a[..];
    FirstSlots(s, p, u);
    while SameTag(a[p], a[p + 1])
      invariant (u.TSeq? || u.TChoice?) && Stands(a[..], p, u) && |Encode(u)| == n && Rotated(u) == Rotated(t)
      invariant SameOutside(a[..], s, p, n) && p + 1 < a.Length
      invariant SameTag(a[p], a[p + 1]) <==> SameOp(u, u.p1)
      decreases Count(u.p1)
    {
      RotatedStep(u);
      CountRotate(u);
      RotateOnce(a, p, u);
      u := Op(u, u.p1.p1, Op(u, u.p1.p2, u.p2));
      FirstSlots(a[..], p, u);
    }
    RotatedStop(u);
  }

  lemma FirstSlots(s: seq<Slot>, p: nat, t: Tree)
    requires (t.TSeq? || t.TChoice?) && Stands(s, p, t)
    ensures p + 1 < |s| && (SameTag(s[p], s[p + 1]) <==> SameOp(t, t.p1))
  {
    EncodeOp(t);
    HeadTells(t.p1);
    var n := |Encode(t)|;
    assert s[p] == s[p..p + n][0] && s[p + 1] == s[p..p + n][1];
  }

  lemma RotatedStep(t: Tree)
    requires (t.TSeq? || t.TChoice?) && SameOp(t, t.p1)
    ensures Rotated(t) == Rotated(Op(t, t.p1.p1, Op(t, t.p1.p2, t.p2)))
  {
  }

  lemma RotatedStop(t: Tree)
    requires (t.TSeq? || t.TChoice?) && !SameOp(t, t.p1)
    ensures Rotated(t) == t
  {
  }

  // ----- finalfix -----

  predicate Unary(x: Slot) { x.SRep? || x.SNot? || x.SAnd? || x.SBehind? }

  lemma Children(s: seq<Slot>, p: nat, t: Tree)
    requires Stands(s, p, t)
    ensures p < |s| && (Binary(s[p]) <==> t.TSeq? || t.TChoice?) && (Unary(s[p]) <==> t.TRep? || t.TNot? || t.TAnd? || t.TBehind?)
    ensures Unary(s[p]) ==> Stands(s, p + 1, t.p) && |Encode(t)| == 1 + |Encode(t.p)|
    ensures Binary(s[p]) ==>
      && s[p].ps == 1 + |Encode(t.p1)| && Stands(s, p + 1, t.p1) && Stands(s, p + s[p].ps, t.p2)
      && |Encode(t)| == 1 + |Encode(t.p1)| + |Encode(t.p2)|
  {
    hide Encode;
    var n := |Encode(t)|;
    assert s[p] == s[p..p + n][0];
    Kinds(t);
    if t.TSeq? || t.TChoice? {
      EncodeOp(t);
      var m := |Encode(t.p1)|;
      Slice(s, p, n, 1, 1 + m);
      Slice(s, p, n, 1 + m, n);
      Parts([Head(t, 1 + m)], Encode(t.p1), Encode(t.p2));
    } else if t.TRep? || t.TNot? || t.TAnd? || t.TBehind? {
      Slice(s, p, n, 1, n);
    }
  }

  lemma Parts(h: seq<Slot>, x: seq<Slot>, y: seq<Slot>)
    requires |h| == 1
    ensures (h + x + y)[1..1 + |x|] == x && (h + x + y)[1 + |x|..1 + |x| + |y|] == y
  {
  }

  lemma Kinds(t: Tree)
    ensures Binary(Encode(t)[0]) <==> t.TSeq? || t.TChoice?
    ensures Unary(Encode(t)[0]) <==> t.TRep? || t.TNot? || t.TAnd? || t.TBehind?
    ensures Unary(Encode(t)[0]) ==> Encode(t) == [Encode(t)[0]] + Encode(t.p)
  {
  }

  /** A unary tree whose child has been replaced by one of the same size. */
  lemma ReplaceChild(s: seq<Slot>, v: seq<Slot>, p: nat, t: Tree, u: Tree)
    requires (t.TRep? || t.TNot? || t.TAnd? || t.TBehind?) && Stands(s, p, t) && Stands(v, p + 1, u) && |Encode(u)| == |Encode(t.p)|
    requires SameOutside(v, s, p + 1, |Encode(t.p)|)
    ensures Stands(v, p, t.(p := u)) && |Encode(t.(p := u))| == |Encode(t)| && SameOutside(v, s, p, |Encode(t)|)
  {
    hide Encode;
    var n := |Encode(t)|;
    Kinds(t);
    UnarySlots(t, u);
    assert v[p] == v[..p + 1][p] == s[..p + 1][p] == s[p..p + n][0];
    assert v[p..p + n] == [v[p]] + v[p + 1..p + 1 + |Encode(u)|];
    assert v[..p] == v[..p + 1][..p] == s[..p + 1][..p];
  }

  lemma UnarySlots(t: Tree, u: Tree)
    requires t.TRep? || t.TNot? || t.TAnd? || t.TBehind?
    ensures Encode(t.(p := u)) == [Encode(t)[0]] + Encode(u)
  {
  }

  lemma ReplaceFirst(s: seq<Slot>, v: seq<Slot>, p: nat, t: Tree, u: Tree)
    requires (t.TSeq? || t.TChoice?) && Stands(s, p, t) && Stands(v, p + 1, u) && |Encode(u)| == |Encode(t.p1)|
    requires SameOutside(v, s, p + 1, |Encode(t.p1)|)
    ensures Stands(v, p, Op(t, u, t.p2)) && |Encode(Op(t, u, t.p2))| == |Encode(t)| && SameOutside(v, s, p, |Encode(t)|)
  {
    hide Encode;
    Children(s, p, t);
    EncodeOp(t);
    EncodeOp(Op(t, u, t.p2));
    var n, m := |Encode(t)|, |Encode(u)|;
    assert v[p] == v[..p + 1][p] == s[..p + 1][p] == s[p..p + n][0];
    var rest := v[p + 1 + m..];
    assert rest == s[p + 1 + m..];
    assert v[p + 1 + m..p + n] == rest[..n - 1 - m] == s[p + 1 + m..p + n] == Encode(t.p2);
    assert v[p..p + n] == [v[p]] + v[p + 1..p + 1 + m] + v[p + 1 + m..p + n];
    assert v[..p] == v[..p + 1][..p] == s[..p + 1][..p];
    assert v[p + n..] == rest[n - 1 - m..] == s[p + n..];
  }

  lemma ReplaceSecond(s: seq<Slot>, v: seq<Slot>, p: nat, t: Tree, u: Tree)
    requires (t.TSeq? || t.TChoice?) && Stands(s, p, t) && |Encode(u)| == |Encode(t.p2)|
    requires Stands(v, p + 1 + |Encode(t.p1)|, u) && SameOutside(v, s, p + 1 + |Encode(t.p1)|, |Encode(t.p2)|)
    ensures Stands(v, p, Op(t, t.p1, u)) && |Encode(Op(t, t.p1, u))| == |Encode(t)| && SameOutside(v, s, p, |Encode(t)|)
  {
    hide Encode;
    EncodeOp(t);
    EncodeOp(Op(t, t.p1, u));
    var n, m := |Encode(t)|, 1 + |Encode(t.p1)|;
    Slice(s, p, n, 0, m);
    assert v[p..p + m] == v[..p + m][p..] == s[..p + m][p..] == s[p..p + m];
    assert v[p..p + n] == v[p..p + m] + v[p + m..p + n];
    assert v[..p] == v[..p + m][..p] == s[..p + m][..p];
  }

  lemma OutsideTwice(s: seq<Slot>, v: seq<Slot>, w: seq<Slot>, p: nat, n: nat)
    requires SameOutside(v, s, p, n) && SameOutside(w, v, p, n)
    ensures SameOutside(w, s, p, n)
  {
  }

  lemma FixStep(t: Tree)
    requires t.TSeq? || t.TChoice?
    ensures FinalFix(t) == Op(t, FinalFix(Rotated(t).p1), FinalFix(Rotated(t).p2))
    ensures Count(Rotated(t).p1) < Count(t) && Count(Rotated(t).p2) < Count(t)
  {
    var u := Rotated(t);
    assert Count(u) == 1 + Count(u.p1) + Count(u.p2);
  }

  lemma FixUnder(t: Tree)
    requires t.TRep? || t.TNot? || t.TAnd? || t.TBehind?
    ensures FinalFix(t) == t.(p := FinalFix(t.p)) && Count(t.p) < Count(t)
  {
  }

  /** `finalfix`, in place: associativity is corrected all the way down, in the slots of the tree. */
  method FinalFixAt(a: array<Slot>, p: nat, ghost t: Tree)
    requires Stands(a[..], p, t)
    modifies a
    ensures Stands(a[..], p, FinalFix(t)) && |Encode(FinalFix(t))| == |Encode(t)|
    ensures SameOutside(a[..], old(a[..]), p, |Encode(t)|)
    decreases Count(t), 1
  {
    hide Encode, FinalFix, Rotated, Count, Stands, SameOutside;
    ghost var s := a[..];
    Children(s, p, t);
    if Binary(a[p]) {
      CorrectAssociativity(a, p, t);
      FixChildren(a, p, t, s);
    } else if Unary(a[p]) {
      FixUnder(t);
      FinalFixAt(a, p + 1, t.p);
      ReplaceChild(s, a[..], p, t, FinalFix(t.p));
    } else {
      FixLeaf(s, p, t);
    }
  }

  lemma FixLeaf(s: seq<Slot>, p: nat, t: Tree)
    requires !t.TSeq? && !t.TChoice? && !t.TRep? && !t.TNot? && !t.TAnd? && !t.TBehind? && Stands(s, p, t)
    ensures FinalFix(t) == t && SameOutside(s, s, p, |Encode(t)|)
  {
  }

  /** Both children of a tree whose associativity is right at the top. */
  method FixChildren(a: array<Slot>, p: nat, ghost t: Tree, ghost s: seq<Slot>)
    requires (t.TSeq? || t.TChoice?) && Stands(a[..], p, Rotated(t)) && |Encode(Rotated(t))| == |Encode(t)|
    requires SameOutside(a[..], s, p, |Encode(t)|)
    modifies a
    ensures Stands(a[..], p, FinalFix(t)) && |Encode(FinalFix(t))| == |Encode(t)|
    ensures SameOutside(a[..], s, p, |Encode(t)|)
    decreases Count(t), 0
  {
    hide Encode, FinalFix, Rotated, Count, Stands, SameOutside;
    ghost var u, n := Rotated(t), |Encode(t)|;
    ghost var s0 := a[..];
    FixStep(t);
    Children(s0, p, u);
    var second := p + a[p].ps;
    FinalFixAt(a, p + 1, u.p1);
    ghost var s1, u1 := a[..], Op(u, FinalFix(u.p1), u.p2);
    ReplaceFirst(s0, s1, p, u, FinalFix(u.p1));
    Children(s1, p, u1);
    FinalFixAt(a, second, u.p2);
    ReplaceSecond(s1, a[..], p, u1, FinalFix(u.p2));
    OutsideTwice(s, s0, s1, p, n);
    OutsideTwice(s, s1, a[..], p, n);
  }

  // ----- constructors -----

  /** `memcpy` of a tree to a place */
  method Put(a: array<Slot>, p: nat, src: seq<Slot>)
    requires p + |src| <= a.Length
    modifies a
    ensures a[p..p + |src|] == src && SameOutside(a[..], old(a[..]), p, |src|)
  {
    ghost var s := a[..];
    var i := 0;
    while i < |src|
      invariant 0 <= i <= |src| && a[..p] == s[..p] && a[p..p + i] == src[..i] && a[p + i..] == s[p + i..]
    {
      ghost var before, tail := a[p..p + i], a[p + i..];
      a[p + i] := src[i];
      assert a[p..p + i + 1] == before + [src[i]] && a[p + i + 1..] == tail[1..];
      i := i + 1;
    }
  }

  /** What is filled in so far, together with the trees that are still to come, is the whole. */
  ghost predicate Awaits(s: seq<Slot>, p: nat, e: nat, middle: seq<Slot>, whole: seq<Slot>) {
    p + |middle| == e <= |s| && s[..p] + middle + s[e..] == whole
  }

  lemma AwaitsMore(s: seq<Slot>, v: seq<Slot>, p: nat, e: nat, front: seq<Slot>, mid: seq<Slot>, back: seq<Slot>, whole: seq<Slot>)
    requires Awaits(s, p, e, front + mid + back, whole) && |v| == |s|
    requires v[..p] == s[..p] && v[e..] == s[e..] && v[p..p + |front|] == front && v[e - |back|..e] == back
    ensures Awaits(v, p + |front|, e - |back|, mid, whole)
  {
    var q, f := p + |front|, e - |back|;
    assert v[..q] == v[..p] + front && v[f..] == back + v[e..];
    assert s[..p] + (front + mid + back) + s[e..] == (s[..p] + front) + mid + (back + s[e..]);
  }

  /** `seqaux` */
  method SeqAux(a: array<Slot>, p: nat, sib: seq<Slot>) returns (q: nat)
    requires p + 1 + |sib| <= a.Length
    modifies a
    ensures q == p + 1 + |sib| && a[p..q] == [SSeq(|sib| + 1)] + sib && SameOutside(a[..], old(a[..]), p, 1 + |sib|)
  {
    Put(a, p, [SSeq(|sib| + 1)] + sib);
    return p + 1 + |sib|;
  }

  lemma {:induction false} AtLeastSize(t: Tree, n: nat)
    ensures |Encode(AtLeast(t, n))| == (n + 1) * (|Encode(t)| + 1)
  {
    hide Encode;
    if n == 0 {
      RepSlots(t);
    } else {
      EncodeOp(AtLeast(t, n));
      AtLeastSize(t, n - 1);
      Distrib(n, 1, |Encode(t)| + 1);
    }
  }

  lemma {:induction false} AtMostSize(t: Tree, n: nat)
    requires n >= 1
    ensures |Encode(AtMost(t, n))| == n * (|Encode(t)| + 3) - 1
  {
    hide Encode;
    MostSlots(t, n);
    if n > 1 {
      AtMostSize(t, n - 1);
      Distrib(n - 1, 1, |Encode(t)| + 3);
    }
  }

  /** `lp_star` for at least `n` repetitions: every slot allocated is filled. */
  method StarAtLeast(src: seq<Slot>, n: nat, ghost t: Tree) returns (a: array<Slot>)
    requires src == Encode(t)
    ensures fresh(a) && a[..] == Encode(AtLeast(t, n))
  {
    hide Encode, Awaits, AtLeast;
    AtLeastSize(t, n);
    NonNeg(n + 1, |src| + 1);
    ghost var whole := Encode(AtLeast(t, n));
    a := new Slot[(n + 1) * (|src| + 1)](_ => SBits);
    var left: nat, p: nat := n, 0;
    AwaitsAll(a[..], whole);
    while left > 0
      invariant 0 <= left <= n && Awaits(a[..], p, a.Length, Encode(AtLeast(t, left)), whole)
    {
      ghost var s, rest := a[..], Encode(AtLeast(t, left - 1));
      LeastSlots(t, left);
      AwaitsRange(s, p, a.Length, Encode(AtLeast(t, left)), whole);
      var q := SeqAux(a, p, src);
      AwaitsMore(s, a[..], p, a.Length, [SSeq(|src| + 1)] + src, rest, [], whole);
      left, p := left - 1, q;
    }
    RepSlots(t);
    Finish(a, p, a.Length, [SRep] + src, whole);
  }

  lemma LeastSlots(t: Tree, n: nat)
    requires n > 0
    ensures Encode(AtLeast(t, n)) == ([SSeq(|Encode(t)| + 1)] + Encode(t)) + Encode(AtLeast(t, n - 1)) + []
  {
    hide Encode;
    EncodeOp(AtLeast(t, n));
  }

  lemma RepSlots(t: Tree)
    ensures Encode(AtLeast(t, 0)) == [SRep] + Encode(t)
  {
  }

  function Layered(ps: nat, src: seq<Slot>, rest: seq<Slot>): seq<Slot> {
    ([SChoice(ps)] + ([SSeq(1 + |src|)] + src)) + rest + [STrue]
  }

  lemma MostSlots(t: Tree, n: nat)
    requires n >= 1
    ensures n == 1 ==> Encode(AtMost(t, 1)) == [SChoice(1 + |Encode(t)|)] + Encode(t) + [STrue]
    ensures n > 1 ==> |Encode(AtMost(t, n))| == 3 + |Encode(t)| + |Encode(AtMost(t, n - 1))|
    ensures n > 1 ==> Encode(AtMost(t, n)) == Layered(|Encode(AtMost(t, n))| - 1, Encode(t), Encode(AtMost(t, n - 1)))
  {
    hide Encode;
    EncodeOp(AtMost(t, n));
    TrueSlots();
    if n > 1 {
      var x, y := Encode(t), Encode(AtMost(t, n - 1));
      EncodeOp(TSeq(t, AtMost(t, n - 1)));
      Layers(SChoice(2 + |x| + |y|), [SSeq(1 + |x|)], x, y);
    }
  }

  lemma Layers(h: Slot, f: seq<Slot>, x: seq<Slot>, y: seq<Slot>)
    ensures [h] + (f + x + y) + [STrue] == ([h] + (f + x)) + y + [STrue]
  {
  }

  lemma TrueSlots()
    ensures Encode(TTrue) == [STrue]
  {
  }

  /** `lp_star` for at most `n` repetitions. */
  method StarAtMost(src: seq<Slot>, n: nat, ghost t: Tree) returns (a: array<Slot>)
    requires src == Encode(t) && n >= 1
    ensures fresh(a) && a[..] == Encode(AtMost(t, n))
  {
    hide Encode, Awaits, Layered, AtMost;
    AtMostSize(t, n);
    ghost var whole := Encode(AtMost(t, n));
    a := new Slot[n * (|src| + 3) - 1](_ => SBits);
    var left: nat, p: nat := n, 0;
    ghost var e: nat := a.Length;
    AwaitsAll(a[..], whole);
    while left > 1
      invariant 1 <= left <= n && Awaits(a[..], p, e, Encode(AtMost(t, left)), whole)
    {
      ghost var rest := Encode(AtMost(t, left - 1));
      MostSlots(t, left);
      AtMostSize(t, left);
      var ps := left * (|src| + 3) - 2;
      AwaitsRange(a[..], p, e, Encode(AtMost(t, left)), whole);
      p := Layer(a, p, e, ps, src, rest, whole);
      e := e - 1;
      left := left - 1;
    }
    MostSlots(t, 1);
    Finish(a, p, e, [SChoice(1 + |src|)] + src + [STrue], whole);
  }

  /** `lp_star`: refused, or every slot allocated is filled. */
  method Star(src: seq<Slot>, n: int, t: Tree) returns (r: Option<seq<Slot>>)
    requires src == Encode(t)
    ensures r.None? <==> StarOf(t, n).None?
    ensures r.Some? ==> r.value == Encode(StarOf(t, n).value)
  {
    hide Encode, AtLeast, AtMost;
    if n >= 0 {
      if Nullable(t) { return None; }
      var a := StarAtLeast(src, n, t);
      return Some(a[..]);
    }
    var a := StarAtMost(src, -n, t);
    return Some(a[..]);
  }

  lemma AwaitsAll(s: seq<Slot>, whole: seq<Slot>)
    requires |s| == |whole|
    ensures Awaits(s, 0, |s|, whole, whole)
  {
    assert s[..0] + whole + s[|s|..] == whole;
  }

  lemma AwaitsRange(s: seq<Slot>, p: nat, e: nat, middle: seq<Slot>, whole: seq<Slot>)
    requires Awaits(s, p, e, middle, whole)
    ensures p + |middle| == e <= |s|
  {
  }

  /** The last piece. */
  method Finish(a: array<Slot>, p: nat, ghost e: nat, last: seq<Slot>, ghost whole: seq<Slot>)
    requires Awaits(a[..], p, e, last, whole)
    modifies a
    ensures a[..] == whole
  {
    ghost var s := a[..];
    Put(a, p, last);
    assert a[..] == s[..p] + last + s[e..];
  }

  /** One layer of optional repetitions: a choice around a sequence, and its empty alternative at the end. */
  method Layer(a: array<Slot>, p: nat, ghost e: nat, ps: nat, src: seq<Slot>, ghost rest: seq<Slot>, ghost whole: seq<Slot>) returns (q: nat)
    requires e == p + ps + 1 && Awaits(a[..], p, e, Layered(ps, src, rest), whole)
    modifies a
    ensures q == p + 2 + |src| && Awaits(a[..], q, e - 1, rest, whole)
  {
    ghost var s := a[..];
    a[p] := SChoice(ps);
    a[p + ps] := STrue;
    ghost var v := a[..];
    q := SeqAux(a, p + 1, src);
    ghost var w := a[..];
    assert w[p + 1..q] == [SSeq(|src| + 1)] + src;
    assert w[..p + 1] == v[..p + 1] && w[q..] == v[q..];
    LayerDone(s, v, w, p, q, e, ps, [SSeq(1 + |src|)] + src, rest, whole);
  }

  lemma LayerDone(s: seq<Slot>, v: seq<Slot>, w: seq<Slot>, p: nat, q: nat, e: nat, ps: nat, x: seq<Slot>, rest: seq<Slot>, whole: seq<Slot>)
    requires e == p + ps + 1 && Awaits(s, p, e, ([SChoice(ps)] + x) + rest + [STrue], whole)
    requires v == s[p := SChoice(ps)][p + ps := STrue] && |w| == |v| && q == p + 1 + |x|
    requires w[..p + 1] == v[..p + 1] && w[q..] == v[q..] && w[p + 1..q] == x
    ensures Awaits(w, q, e - 1, rest, whole)
  {
    assert w[..p] == w[..p + 1][..p] == v[..p + 1][..p] == s[..p];
    assert w[p] == w[..p + 1][p] == v[p];
    assert w[p..q] == [w[p]] + w[p + 1..q];
    assert w[e - 1] == w[q..][e - 1 - q] == v[q..][e - 1 - q] == STrue;
    assert w[e - 1..e] == [STrue];
    assert w[e..] == w[q..][e - q..] == v[q..][e - q..] == s[e..];
    AwaitsMore(s, w, p, e, [SChoice(ps)] + x, rest, [STrue], whole);
  }

  // ----- fillseq and newroot2sib -----

  /** The slots of a sequence of leaves. */
  function Chained(leaves: seq<Slot>): (r: seq<Slot>)
    requires leaves != []
    ensures |r| == 2 * |leaves| - 1
  {
    if |leaves| == 1 then leaves else [SSeq(2), leaves[0]] + Chained(leaves[1..])
  }

  predicate Leaf(t: Tree) { t.TChar? || t.TAny? }

  function LeafSlot(t: Tree): Slot { if t.TChar? then SChar(t.c) else SAny }

  function LeafSlots(leaves: seq<Tree>): seq<Slot> { seq(|leaves|, i requires 0 <= i < |leaves| => LeafSlot(leaves[i])) }

  lemma {:induction false} ChainSlots(leaves: seq<Tree>)
    requires leaves != [] && forall i :: 0 <= i < |leaves| ==> Leaf(leaves[i])
    ensures Encode(Chain(leaves)) == Chained(LeafSlots(leaves))
  {
    if |leaves| > 1 {
      ChainSlots(leaves[1..]);
      assert LeafSlots(leaves)[1..] == LeafSlots(leaves[1..]);
    } else {
      assert LeafSlots(leaves) == [LeafSlot(leaves[0])];
    }
  }

  lemma ChainedStep(leaves: seq<Slot>, i: nat)
    requires i + 1 < |leaves|
    ensures Chained(leaves[i..]) == [SSeq(2), leaves[i]] + Chained(leaves[i + 1..]) + []
  {
    assert leaves[i..][1..] == leaves[i + 1..];
  }

  /** `fillseq`: fills one slot for each leaf and one for each but the last. */
  method FillSeq(a: array<Slot>, p: nat, leaves: seq<Slot>)
    requires leaves != [] && p + 2 * |leaves| - 1 == a.Length
    modifies a
    ensures a[..] == old(a[..p]) + Chained(leaves)
  {
    hide Chained, Awaits;
    ghost var whole := a[..p] + Chained(leaves);
    var q, i := p, 0;
    assert leaves[0..] == leaves;
    AwaitsRest(a[..], p, Chained(leaves), whole);
    while i < |leaves| - 1
      invariant 0 <= i < |leaves| && q == p + 2 * i && Awaits(a[..], q, a.Length, Chained(leaves[i..]), whole)
    {
      ghost var s := a[..];
      ChainedStep(leaves, i);
      a[q] := SSeq(2);
      a[q + 1] := leaves[i];
      assert a[..][q..q + 2] == [SSeq(2), leaves[i]];
      AwaitsMore(s, a[..], q, a.Length, [SSeq(2), leaves[i]], Chained(leaves[i + 1..]), [], whole);
      q := q + 2;
      i := i + 1;
    }
    LastLeaf(leaves);
    ghost var s := a[..];
    a[q] := leaves[i];
    Filled(s, a[..], q, leaves[i], whole);
  }

  lemma AwaitsRest(s: seq<Slot>, p: nat, last: seq<Slot>, whole: seq<Slot>)
    requires p + |last| == |s| && whole == s[..p] + last
    ensures Awaits(s, p, |s|, last, whole)
  {
  }

  lemma LastLeaf(leaves: seq<Slot>)
    requires leaves != []
    ensures Chained(leaves[|leaves| - 1..]) == [leaves[|leaves| - 1]]
  {
  }

  lemma Filled(s: seq<Slot>, v: seq<Slot>, q: nat, x: Slot, whole: seq<Slot>)
    requires Awaits(s, q, |s|, [x], whole) && q < |s| && v == s[q := x]
    ensures v == whole
  {
  }

  /** A string as a pattern: every slot allocated is filled. */
  method StringTree(str: seq<Char>) returns (a: array<Slot>)
    ensures fresh(a) && a[..] == Encode(StringOf(str))
  {
    if str == [] {
      a := new Slot[1](_ => STrue);
      return;
    }
    hide Chained;
    var leaves := seq(|str|, i requires 0 <= i < |str| => SChar(str[i]));
    a := new Slot[2 * (|str| - 1) + 1](_ => SBits);
    FillSeq(a, 0, leaves);
    ChainSlots(Chars(str));
    assert LeafSlots(Chars(str)) == leaves;
  }

  /** `numtree`: every slot allocated is filled. */
  method NumberTree(n: int) returns (a: array<Slot>)
    ensures fresh(a) && a[..] == Encode(NumberOf(n))
  {
    if n == 0 {
      a := new Slot[1](_ => STrue);
      return;
    }
    hide Chained;
    var m := if n > 0 then n else -n;
    var leaves := seq(m, _ => SAny);
    ChainSlots(Anys(m));
    assert LeafSlots(Anys(m)) == leaves;
    if n > 0 {
      a := new Slot[2 * m - 1](_ => SBits);
      FillSeq(a, 0, leaves);
    } else {
      a := new Slot[2 * m](_ => SBits);
      a[0] := SNot;
      assert a[..1] == [SNot];
      FillSeq(a, 1, leaves);
      NotSlots(Chain(Anys(m)));
    }
  }

  /** `newroot2sib`: a new root over copies of two trees. */
  method NewRoot(root: Slot, s1: seq<Slot>, s2: seq<Slot>) returns (a: array<Slot>)
    requires Binary(root)
    ensures fresh(a) && a[..] == [WithPs(root, 1 + |s1|)] + s1 + s2
  {
    a := new Slot[1 + |s1| + |s2|](_ => SBits);
    a[0] := WithPs(root, 1 + |s1|);
    Put(a, 1, s1);
    ghost var w := a[..];
    assert w[0] == w[..1][0] && w[..1 + |s1|] == [w[0]] + w[1..1 + |s1|];
    Put(a, 1 + |s1|, s2);
    assert a[..] == a[..1 + |s1|] + a[1 + |s1|..1 + |s1| + |s2|];
  }

  lemma ConstantTells(t: Tree)
    ensures Encode(t)[0] == STrue <==> t.TTrue?
    ensures Encode(t)[0] == SFalse <==> t.TFalse?
  {
  }

  lemma SetSlots(cs: Charset)
    ensures Encode(TSet(cs)) == [SSet(cs), SBits, SBits, SBits, SBits]
  {
  }

  /** `lp_seq`: one of its operands, or a new tree of exactly the slots allocated. */
  method Seq(s1: seq<Slot>, s2: seq<Slot>, ghost t1: Tree, ghost t2: Tree) returns (r: seq<Slot>)
    requires s1 == Encode(t1) && s2 == Encode(t2)
    ensures r == Encode(SeqOf(t1, t2))
  {
    hide Encode;
    ConstantTells(t1);
    ConstantTells(t2);
    EncodeOp(TSeq(t1, t2));
    if s1[0] == SFalse || s2[0] == STrue { return s1; }
    if s1[0] == STrue { return s2; }
    var a := NewRoot(SSeq(0), s1, s2);
    return a[..];
  }

  /** `lp_choice`, likewise; two sets become one. */
  method Choice(s1: seq<Slot>, s2: seq<Slot>, t1: Tree, t2: Tree) returns (r: seq<Slot>)
    requires s1 == Encode(t1) && s2 == Encode(t2)
    ensures r == Encode(ChoiceOf(t1, t2))
  {
    hide Encode, ToCharset, NoFail;
    ConstantTells(t1);
    ConstantTells(t2);
    EncodeOp(TChoice(t1, t2));
    var st1, st2 := ToCharset(t1), ToCharset(t2);
    if st1.Some? && st2.Some? {
      SetSlots(st1.value + st2.value);
      return [SSet(st1.value + st2.value), SBits, SBits, SBits, SBits];
    }
    if NoFail(t1) || s2[0] == SFalse { return s1; }
    if s1[0] == SFalse { return s2; }
    var a := NewRoot(SChoice(0), s1, s2);
    return a[..];
  }

  // ----- lp_sub -----

  /** `lp_sub` of patterns that are not both sets. */
  method Sub(s1: seq<Slot>, s2: seq<Slot>, ghost t1: Tree, ghost t2: Tree) returns (a: array<Slot>)
    requires s1 == Encode(t1) && s2 == Encode(t2)
    ensures fresh(a) && a[..] == Encode(TSeq(TNot(t2), t1))
  {
    hide Encode;
    a := new Slot[2 + |s1| + |s2|](_ => SBits);
    a[0] := SSeq(2 + |s2|);
    a[1] := SNot;
    ghost var v := a[..];
    Put(a, 2, s2);
    ghost var w := a[..];
    assert w[..2] == v[..2] == [SSeq(2 + |s2|), SNot];
    Put(a, 2 + |s2|, s1);
    SubSlots(w, a[..], s1, s2, t1, t2);
  }

  lemma SubSlots(w: seq<Slot>, v: seq<Slot>, s1: seq<Slot>, s2: seq<Slot>, t1: Tree, t2: Tree)
    requires s1 == Encode(t1) && s2 == Encode(t2) && |w| == |v| == 2 + |s1| + |s2|
    requires w[..2] == [SSeq(2 + |s2|), SNot] && w[2..2 + |s2|] == s2
    requires v[..2 + |s2|] == w[..2 + |s2|] && v[2 + |s2|..2 + |s2| + |s1|] == s1
    ensures v == Encode(TSeq(TNot(t2), t1))
  {
    hide Encode;
    NotSlots(t2);
    EncodeOp(TSeq(TNot(t2), t1));
    assert w[..2 + |s2|] == w[..2] + w[2..2 + |s2|];
    assert v == v[..2 + |s2|] + v[2 + |s2|..2 + |s2| + |s1|];
    assert [SSeq(2 + |s2|), SNot] + s2 == [SSeq(2 + |s2|)] + ([SNot] + s2);
  }

  lemma NotSlots(t: Tree)
    ensures Encode(TNot(t)) == [SNot] + Encode(t)
  {
  }
}
