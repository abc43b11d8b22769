/**
 The shape of generated code: it is a row of whole instructions, every label leads to the start of an
 instruction, and chains of jumps end. This is what makes the sweep and the inner loop of `peephole`
 well defined.
 */
module LpegLabels {
  import opened LpegCharset
  import opened LpegTree
  import opened LpegAnalysis
  import opened LpegMachine
  import opened LpegCodeGen
  import opened LpegCorrect
  import opened LpegPeephole

  /** `sizei` */
  function Size(op: Opcode): nat {
    match op
    case ISet => CHARSETINSTSIZE
    case ISpan => CHARSETINSTSIZE
    case ITestSet => CHARSETINSTSIZE + 1
    case _ => if IsLabelled(op) then 2 else 1
  }

  /** From `i` on, the code is a row of whole instructions. */
  ghost predicate Whole(C: Code, i: int)
    decreases |C| - i
  {
    i == |C| || (IsInst(C, i) && Operands(C, i) && Whole(C, i + Size(C[i].code)))
  }

  /** The slots behind the start of an instruction are its own, and no instructions. */
  predicate Operands(C: Code, i: int)
    requires IsInst(C, i)
  {
    i + Size(C[i].code) <= |C| && forall k :: i < k < i + Size(C[i].code) ==> !C[k].Inst?
  }

  /** A jump goes forward, or back to an instruction that is not a jump or that jumps over it. */
  ghost predicate JumpOk(C: Code, q: int)
    requires HasOffset(C, q)
  {
    var t := Target(C, q);
    q < t || (0 <= t < q && (!IsJmp(C, t) || (HasOffset(C, t) && q < Target(C, t))))
  }

  ghost predicate Lands(C: Code, t: int) { t == |C| || IsInst(C, t) }

  ghost predicate LabelAt(C: Code, q: int) {
    IsInst(C, q) && IsLabelled(C[q].code) ==>
      HasOffset(C, q) && Lands(C, Target(C, q)) && (C[q].code == IJmp ==> JumpOk(C, q))
  }

  ghost predicate LabelsIn(C: Code, lo: int, hi: int) { forall q :: lo <= q < hi ==> LabelAt(C, q) }

  ghost predicate Good(g: Code) { Whole(g, 0) && LabelsIn(g, 0, |g|) }

  // ----- rows of instructions -----

  lemma {:induction false} WholeTail(C: Code, m: int, y: Code, j: int)
    requires At(C, m, y) && m + |y| == |C| && 0 <= j <= |y| && Whole(y, j)
    ensures Whole(C, m + j)
    decreases |y| - j
  {
    if j < |y| {
      forall k | j <= k < |y| ensures C[m + k] == y[k] {}
      assert forall k :: m + j < k < m + j + Size(y[j].code) ==> C[k] == y[k - m];
      WholeTail(C, m, y, j + Size(y[j].code));
    }
  }

  lemma {:induction false} WholeHead(C: Code, x: Code, i: int)
    requires At(C, 0, x) && 0 <= i <= |x| && Whole(x, i) && Whole(C, |x|)
    ensures Whole(C, i)
    decreases |x| - i
  {
    if i < |x| {
      forall k | i <= k < |x| ensures C[k] == x[k] { assert C[0 + k] == x[k]; }
      WholeHead(C, x, i + Size(x[i].code));
    }
  }

  lemma {:induction false} WholeConcat(x: Code, y: Code)
    requires Whole(x, 0) && Whole(y, 0)
    ensures Whole(x + y, 0)
  {
    WholeTail(x + y, |x|, y, 0);
    WholeHead(x + y, x, 0);
  }

  lemma WholeInst(g: Code)
    requires |g| > 0 && g[0].Inst? && |g| == Size(g[0].code) && forall k :: 0 < k < |g| ==> !g[k].Inst?
    ensures Whole(g, 0)
  {
    assert Whole(g, |g|);
  }

  lemma WholeLabelled(op: Opcode, off: int)
    requires Size(op) == 2
    ensures Whole(Labelled(op, off), 0)
  {
    WholeInst(Labelled(op, off));
  }

  lemma WholeConcat3(x: Code, y: Code, z: Code)
    requires Whole(x, 0) && Whole(y, 0) && Whole(z, 0)
    ensures Whole(x + (y + z), 0)
  {
    WholeConcat(y, z);
    WholeConcat(x, y + z);
  }

  lemma WholeConcat4(w: Code, x: Code, y: Code, z: Code)
    requires Whole(w, 0) && Whole(x, 0) && Whole(y, 0) && Whole(z, 0)
    ensures Whole(w + (x + (y + z)), 0)
  {
    WholeConcat3(x, y, z);
    WholeConcat(w, x + (y + z));
  }

  lemma WholeTest(cs: Charset, e: bool, off: int)
    ensures Whole(CodeTestSet(cs, e, off), 0)
  {
    if !e { WholeInst(CodeTest(cs, off)); }
  }

  // ----- labels of the parts -----

  /** Labels of a good fragment stay good inside a larger one. */
  lemma Embed(C: Code, m: int, g: Code)
    requires At(C, m, g) && Good(g) && Lands(C, m + |g|)
    ensures LabelsIn(C, m, m + |g|)
  {
    forall q | m <= q < m + |g| ensures LabelAt(C, q) {
      var j := q - m;
      AtSlot(C, m, g, j);
      if IsInst(C, q) && IsLabelled(C[q].code) {
        assert LabelAt(g, j);
        AtSlot(C, m, g, j + 1);
        var t := Target(g, j);
        if t < |g| {
          AtSlot(C, m, g, t);
          if IsJmp(g, t) { assert LabelAt(g, t); AtSlot(C, m, g, t + 1); }
        }
      }
    }
  }

  lemma LabelPiece(C: Code, o: int, op: Opcode, off: int)
    requires At(C, o, Labelled(op, off)) && Lands(C, o + off) && (op == IJmp ==> HasOffset(C, o) && JumpOk(C, o))
    ensures LabelsIn(C, o, o + 2)
  {
    AtSlot(C, o, Labelled(op, off), 0);
    AtSlot(C, o, Labelled(op, off), 1);
  }

  lemma TestPiece(C: Code, a: int, cs: Charset, e: bool, off: int)
    requires At(C, a, CodeTestSet(cs, e, off)) && Lands(C, a + off) && off > 0
    ensures LabelsIn(C, a, a + TestSize(cs, e))
  {
    if !e {
      var g := CodeTest(cs, off);
      AtSlot(C, a, g, 0);
      AtSlot(C, a, g, 1);
      forall q | a <= q < a + |g| ensures LabelAt(C, q) { AtSlot(C, a, g, q - a); }
    }
  }

  lemma WholeStarts(C: Code, m: int, g: Code)
    requires At(C, m, g) && Whole(g, 0) && Lands(C, m + |g|)
    ensures Lands(C, m)
  {
    if |g| > 0 { AtSlot(C, m, g, 0); }
  }

  lemma Joined(C: Code, lo: int, mid: int, hi: int)
    requires LabelsIn(C, lo, mid) && LabelsIn(C, mid, hi)
    ensures LabelsIn(C, lo, hi)
  {}

  // ----- layouts -----

  lemma GoodConcat(x: Code, y: Code)
    requires Good(x) && Good(y)
    ensures Good(x + y)
  {
    var g := x + y;
    assert At(g, 0, g);
    AtSplit(g, 0, x, y);
    WholeConcat(x, y);
    WholeStarts(g, |x|, y);
    Embed(g, 0, x);
    Embed(g, |x|, y);
  }

  /** A single instruction without a label. */
  lemma GoodInst(g: Code)
    requires |g| > 0 && g[0].Inst? && !IsLabelled(g[0].code) && |g| == Size(g[0].code)
    requires forall n :: 1 <= n < |g| ==> !g[n].Inst?
    ensures Good(g)
  {
    WholeInst(g);
  }

  /** A single unlabelled instruction as a part. */
  lemma InstPiece(C: Code, q: int, op: Opcode)
    requires At(C, q, [Inst(op, 0)]) && !IsLabelled(op)
    ensures LabelsIn(C, q, q + 1) && IsInst(C, q)
  {
    AtSlot(C, q, [Inst(op, 0)], 0);
  }

  lemma LabelledStarts(C: Code, q: int, op: Opcode, off: int)
    requires At(C, q, Labelled(op, off))
    ensures IsInst(C, q) && C[q].code == op && HasOffset(C, q) && Target(C, q) == q + off
  {
    AtSlot(C, q, Labelled(op, off), 0);
    AtSlot(C, q, Labelled(op, off), 1);
  }

  lemma WholeChoiceTest(cs: Charset, empty2: bool, c1: Code, c2: Code)
    requires Whole(c1, 0) && Whole(c2, 0)
    ensures Whole(ChoiceTestLayout(cs, empty2, c1, c2), 0)
  {
    var jmp := if empty2 then [] else Labelled(IJmp, 2 + |c2|);
    var off := TestSize(cs, false) + |c1| + |jmp|;
    WholeTest(cs, false, off);
    if !empty2 { WholeInst(jmp); }
    WholeConcat4(CodeTest(cs, off), c1, jmp, c2);
  }

  lemma GoodChoiceTest(cs: Charset, empty2: bool, c1: Code, c2: Code)
    requires Good(c1) && Good(c2) && (empty2 ==> c2 == [])
    ensures Good(ChoiceTestLayout(cs, empty2, c1, c2))
  {
    var g := ChoiceTestLayout(cs, empty2, c1, c2);
    WholeChoiceTest(cs, empty2, c1, c2);
    assert At(g, 0, g);
    var m, q, l, b := ChoiceTestLayoutParts(g, 0, cs, empty2, c1, c2);
    WholeStarts(g, l, c2);
    TestPiece(g, 0, cs, false, l);
    if !empty2 { LabelledStarts(g, q, IJmp, b - q); LabelPiece(g, q, IJmp, b - q); }
    Embed(g, m, c1);
    Embed(g, l, c2);
    Joined(g, 0, m, q);
    if !empty2 { assert l == q + 2; Joined(g, 0, q, l); }
    Joined(g, 0, l, b);
  }

  lemma GoodOption(c1: Code)
    requires Good(c1)
    ensures Good(Labelled(IPartialCommit, 2) + c1)
  {
    var g := Labelled(IPartialCommit, 2) + c1;
    assert At(g, 0, g);
    AtSplit(g, 0, Labelled(IPartialCommit, 2), c1);
    WholeLabelled(IPartialCommit, 2);
    WholeConcat(Labelled(IPartialCommit, 2), c1);
    WholeStarts(g, 2, c1);
    LabelPiece(g, 0, IPartialCommit, 2);
    Embed(g, 2, c1);
    Joined(g, 0, 2, |g|);
  }

  lemma WholeChoice(f1: FirstSet, c1: Code, c2: Code)
    requires Whole(c1, 0) && Whole(c2, 0)
    ensures Whole(ChoiceLayout(f1, c1, c2), 0)
  {
    var ts, off := TestSize(f1.cs, f1.e), 2 + |c1| + 2;
    WholeTest(f1.cs, f1.e, ts + off);
    WholeLabelled(IChoice, off);
    WholeLabelled(ICommit, 2 + |c2|);
    WholeConcat4(Labelled(IChoice, off), c1, Labelled(ICommit, 2 + |c2|), c2);
    WholeConcat(CodeTestSet(f1.cs, f1.e, ts + off), Labelled(IChoice, off) + (c1 + (Labelled(ICommit, 2 + |c2|) + c2)));
  }

  lemma GoodChoice(f1: FirstSet, c1: Code, c2: Code)
    requires Good(c1) && Good(c2)
    ensures Good(ChoiceLayout(f1, c1, c2))
  {
    var g := ChoiceLayout(f1, c1, c2);
    WholeChoice(f1, c1, c2);
    assert At(g, 0, g);
    var o, m, q, l, b := ChoiceLayoutParts(g, 0, f1, c1, c2);
    WholeStarts(g, l, c2);
    TestPiece(g, 0, f1.cs, f1.e, l);
    LabelPiece(g, o, IChoice, l - o);
    LabelPiece(g, q, ICommit, b - q);
    LabelledStarts(g, q, ICommit, b - q);
    Embed(g, m, c1);
    Embed(g, l, c2);
    Joined(g, 0, o, m);
    Joined(g, 0, m, q);
    Joined(g, 0, q, l);
    Joined(g, 0, l, b);
  }

  lemma WholeRepTest(cs: Charset, c: Code)
    requires Whole(c, 0)
    ensures Whole(RepTestLayout(cs, c), 0)
  {
    hide Whole, CodeTest, Labelled;
    var ts := TestSize(cs, false);
    WholeTest(cs, false, ts + |c| + 2);
    WholeLabelled(IJmp, -(ts + |c|));
    var w, z := CodeTest(cs, ts + |c| + 2), Labelled(IJmp, -(ts + |c|));
    assert Whole(w, 0) by { assert w == CodeTestSet(cs, false, ts + |c| + 2); }
    assert RepTestLayout(cs, c) == w + (c + z);
    WholeConcat3(w, c, z);
  }

  /** The backward jump of a repetition leads to its test. */
  lemma BackJump(C: Code, cs: Charset, q: int, b: int)
    requires At(C, 0, CodeTest(cs, b)) && At(C, q, Labelled(IJmp, -q)) && 0 < q < b
    ensures HasOffset(C, q) && JumpOk(C, q) && IsInst(C, 0)
  {
    AtSlot(C, 0, CodeTest(cs, b), 0);
    AtSlot(C, 0, CodeTest(cs, b), 1);
    LabelledStarts(C, q, IJmp, -q);
  }

  lemma GoodRepTest(cs: Charset, c: Code)
    requires Good(c)
    ensures Good(RepTestLayout(cs, c))
  {
    hide Whole, CodeTest, Labelled, RepTestLayout, LabelAt;
    var g := RepTestLayout(cs, c);
    WholeRepTest(cs, c);
    assert At(g, 0, g);
    var m, q, b := RepTestLayoutParts(g, 0, cs, c);
    BackJump(g, cs, q, b);
    TestPiece(g, 0, cs, false, b);
    LabelledStarts(g, q, IJmp, -q);
    LabelPiece(g, q, IJmp, -q);
    Embed(g, m, c);
    Joined(g, 0, m, q);
    Joined(g, 0, q, b);
  }

  lemma WholeRep(f: FirstSet, opt: bool, c: Code)
    requires Whole(c, 0)
    ensures Whole(RepLayout(f, opt, c), 0)
  {
    var ts, off := TestSize(f.cs, f.e), 2 + |c| + 2;
    var open := if opt then Labelled(IPartialCommit, 2) else Labelled(IChoice, off);
    WholeTest(f.cs, f.e, ts + off);
    if opt { WholeLabelled(IPartialCommit, 2); } else { WholeLabelled(IChoice, off); }
    WholeLabelled(IPartialCommit, -|c|);
    WholeConcat4(CodeTestSet(f.cs, f.e, ts + off), open, c, Labelled(IPartialCommit, -|c|));
  }

  lemma GoodRep(f: FirstSet, opt: bool, c: Code)
    requires Good(c)
    ensures Good(RepLayout(f, opt, c))
  {
    var g := RepLayout(f, opt, c);
    WholeRep(f, opt, c);
    assert At(g, 0, g);
    var o, m, q, b := RepLayoutParts(g, 0, f, opt, c);
    RepLabels(g, f, opt, c, o, m, q, b);
  }

  lemma RepLabels(g: Code, f: FirstSet, opt: bool, c: Code, o: int, m: int, q: int, b: int)
    requires At(g, 0, CodeTestSet(f.cs, f.e, b)) && o == TestSize(f.cs, f.e) && At(g, m, c) && q == m + |c|
    requires At(g, o, if opt then Labelled(IPartialCommit, m - o) else Labelled(IChoice, b - o)) && m == o + 2
    requires At(g, q, Labelled(IPartialCommit, m - q)) && b == |g| == q + 2 && Good(c)
    ensures LabelsIn(g, 0, b)
  {
    LabelledStarts(g, q, IPartialCommit, m - q);
    WholeStarts(g, m, c);
    TestPiece(g, 0, f.cs, f.e, b);
    if opt { LabelPiece(g, o, IPartialCommit, m - o); } else { LabelPiece(g, o, IChoice, b - o); }
    LabelPiece(g, q, IPartialCommit, m - q);
    Embed(g, m, c);
    Joined(g, 0, o, m);
    Joined(g, 0, m, q);
    Joined(g, 0, q, b);
  }

  lemma GoodNotTest(f: FirstSet)
    ensures Good(NotTestLayout(f))
  {
    var g, ts := NotTestLayout(f), TestSize(f.cs, f.e);
    assert At(g, 0, g);
    AtSplit(g, 0, CodeTestSet(f.cs, f.e, ts + 1), [Inst(IFail, 0)]);
    WholeTest(f.cs, f.e, ts + 1);
    WholeInst([Inst(IFail, 0)]);
    WholeConcat(CodeTestSet(f.cs, f.e, ts + 1), [Inst(IFail, 0)]);
    TestPiece(g, 0, f.cs, f.e, ts + 1);
    InstPiece(g, ts, IFail);
    Joined(g, 0, ts, ts + 1);
  }

  lemma WholeNot(f: FirstSet, c: Code)
    requires Whole(c, 0)
    ensures Whole(NotLayout(f, c), 0)
  {
    var ts, off := TestSize(f.cs, f.e), 2 + |c| + 1;
    WholeTest(f.cs, f.e, ts + off);
    WholeLabelled(IChoice, off);
    WholeInst([Inst(IFailTwice, 0)]);
    WholeConcat4(CodeTestSet(f.cs, f.e, ts + off), Labelled(IChoice, off), c, [Inst(IFailTwice, 0)]);
  }

  lemma GoodNot(f: FirstSet, c: Code)
    requires Good(c)
    ensures Good(NotLayout(f, c))
  {
    var g := NotLayout(f, c);
    WholeNot(f, c);
    assert At(g, 0, g);
    var m, q, b := NotLayoutParts(g, 0, f, c);
    TestPiece(g, 0, f.cs, f.e, b);
    LabelPiece(g, m - 2, IChoice, b - m + 2);
    InstPiece(g, q, IFailTwice);
    Embed(g, m, c);
    Joined(g, 0, m - 2, m);
    Joined(g, 0, m, q);
    Joined(g, 0, q, b);
  }

  lemma WholeAnd(c: Code)
    requires Whole(c, 0)
    ensures Whole(AndLayout(c), 0)
  {
    WholeLabelled(IChoice, 2 + |c| + 2);
    WholeLabelled(IBackCommit, 3);
    WholeInst([Inst(IFail, 0)]);
    WholeConcat4(Labelled(IChoice, 2 + |c| + 2), c, Labelled(IBackCommit, 3), [Inst(IFail, 0)]);
  }

  lemma GoodAnd(c: Code)
    requires Good(c)
    ensures Good(AndLayout(c))
  {
    var g := AndLayout(c);
    WholeAnd(c);
    assert At(g, 0, g);
    var q, l, b := AndLayoutParts(g, 0, c);
    InstPiece(g, l, IFail);
    LabelledStarts(g, q, IBackCommit, b - q);
    LabelPiece(g, 0, IChoice, l);
    LabelPiece(g, q, IBackCommit, b - q);
    Embed(g, 2, c);
    Joined(g, 0, 2, q);
    Joined(g, 0, q, l);
    Joined(g, 0, l, b);
  }

  lemma GoodCharset(cs: Charset, tt: Test)
    ensures Good(CodeCharset(cs, tt))
  {
    GoodInst(CodeCharset(cs, tt));
  }

  lemma GoodBehind(n: nat)
    ensures Good(CodeBehind(n))
  {
    if n > 0 { GoodInst(CodeBehind(n)); }
  }

  /** Generated code has the shape. */
  lemma {:induction false} GoodGen(t: Tree, opt: bool, tt: Test, fl: Charset)
    ensures Good(Gen(t, opt, tt, fl))
    decreases t, 1
  {
    match t
    case TChar(c) => GoodInst(CodeChar(c, tt));
    case TSet(cs) => GoodCharset(cs, tt);
    case TAny => GoodInst([Inst(IAny, 0)]);
    case TTrue =>
    case TFalse => GoodInst([Inst(IFail, 0)]);
    case TChoice(p1, p2) => GoodGenChoice(t, opt, tt, fl);
    case TRep(p) => GoodGenRep(t, opt, tt, fl);
    case TBehind(n, p) =>
      GoodGen(p, false, NoTest, FullSet());
      GoodBehind(n);
      GoodConcat(CodeBehind(n), Gen(p, false, NoTest, FullSet()));
    case TNot(p) =>
      GoodGen(p, false, NoTest, FullSet());
      if HeadFail(p) { GoodNotTest(GetFirst(p, FullSet())); }
      else { GoodNot(GetFirst(p, FullSet()), Gen(p, false, NoTest, FullSet())); }
    case TAnd(p) =>
      GoodGen(p, false, tt, FullSet());
      if AndByBehind(p) {
        GoodBehind(FixedLen(p));
        GoodConcat(Gen(p, false, tt, FullSet()), CodeBehind(FixedLen(p)));
      } else {
        GoodAnd(Gen(p, false, tt, FullSet()));
      }
    case TSeq(p1, p2) =>
      GoodGen(p1, false, tt, FollowOf(p1, p2, fl));
      GoodGen(p2, opt, TestAfter(p1, tt), fl);
      GoodConcat(Gen(p1, false, tt, FollowOf(p1, p2, fl)), Gen(p2, opt, TestAfter(p1, tt), fl));
  }

  lemma {:induction false} GoodGenChoice(t: Tree, opt: bool, tt: Test, fl: Charset)
    requires t.TChoice?
    ensures Good(Gen(t, opt, tt, fl))
    decreases t, 0
  {
    var f1 := GetFirst(t.p1, FullSet());
    GoodGen(t.p2, opt, NoTest, fl);
    var c2 := Gen(t.p2, opt, NoTest, fl);
    if ChoiceByTest(t.p1, t.p2, fl) {
      GoodGen(t.p1, false, TestOf(f1.cs, false), fl);
      GoodChoiceTest(f1.cs, t.p2.TTrue?, Gen(t.p1, false, TestOf(f1.cs, false), fl), c2);
    } else if opt && t.p2.TTrue? {
      GoodGen(t.p1, true, NoTest, FullSet());
      GoodOption(Gen(t.p1, true, NoTest, FullSet()));
    } else {
      GoodGen(t.p1, t.p2.TTrue?, TestOf(f1.cs, f1.e), FullSet());
      GoodChoice(f1, Gen(t.p1, t.p2.TTrue?, TestOf(f1.cs, f1.e), FullSet()), c2);
    }
  }

  lemma {:induction false} GoodGenRep(t: Tree, opt: bool, tt: Test, fl: Charset)
    requires t.TRep?
    ensures Good(Gen(t, opt, tt, fl))
    decreases t, 0
  {
    var f := GetFirst(t.p, FullSet());
    if ToCharset(t.p).Some? {
      GoodInst([Inst(ISpan, 0)] + CharsetSlots(ToCharset(t.p).value));
    } else if RepByTest(t.p, fl) {
      GoodGen(t.p, false, TestOf(f.cs, false), FullSet());
      GoodRepTest(f.cs, Gen(t.p, false, TestOf(f.cs, false), FullSet()));
    } else {
      GoodGen(t.p, false, NoTest, FullSet());
      GoodRep(f, opt, Gen(t.p, false, NoTest, FullSet()));
    }
  }

  // ----- ranks -----

  /** An upper bound of the length of the chain of jumps from `q`. */
  ghost function RankOf(C: Code, q: int): nat
    requires LabelsIn(C, 0, |C|) && 0 <= q <= |C|
    decreases |C| - q
  {
    if !IsJmp(C, q) then 0
    else
      assert LabelAt(C, q);
      var t := Target(C, q);
      if q < t then 1 + RankOf(C, t)
      else if !IsJmp(C, t) then 1
      else assert LabelAt(C, t); 2 + RankOf(C, Target(C, t))
  }

  lemma {:induction false} JumpLowersRank(C: Code, q: int)
    requires LabelsIn(C, 0, |C|) && IsJmp(C, q)
    ensures LabelAt(C, q) && RankOf(C, Target(C, q)) < RankOf(C, q)
  {
    assert LabelAt(C, q);
    var t := Target(C, q);
    if t < q && IsJmp(C, t) { assert LabelAt(C, t); }
  }

  ghost function Ranks(C: Code): seq<nat>
    requires LabelsIn(C, 0, |C|)
  {
    seq(|C|, q requires 0 <= q < |C| => RankOf(C, q))
  }

  /** The program of a pattern is ready for jump optimization. */
  lemma ProgramShape(t: Tree)
    ensures Good(Program(t)) && LabelsOk(Program(t), Ranks(Program(t)))
    ensures Program(t)[|Program(t)| - 1] == Inst(IEnd, 0)
  {
    var g, C := Gen(t, false, NoTest, FullSet()), Program(t);
    GoodGen(t, false, NoTest, FullSet());
    GoodInst([Inst(IEnd, 0)]);
    GoodConcat(g, [Inst(IEnd, 0)]);
    forall q | IsInst(C, q) && IsLabelled(C[q].code)
      ensures HasOffset(C, q) && IsInst(C, Target(C, q))
      ensures C[q].code == IJmp ==> Ranks(C)[Target(C, q)] < Ranks(C)[q]
    {
      assert C[q] == g[q];
      assert LabelAt(g, q) && LabelAt(C, q);
      assert C[q + 1] == g[q + 1];
      if C[q].code == IJmp { JumpLowersRank(C, q); }
    }
  }
}
