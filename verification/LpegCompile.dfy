/**
 The code generator of LPeg as it works: it appends to and patches the code array, and tests character sets by their
 bytes. Each method is proved to give the code of `LpegCodeGen`.
 */
module LpegCompile {
  import opened LpegCharset
  import opened LpegTree
  import opened LpegAnalysis
  import opened LpegMachine
  import opened LpegCodeGen
  import LpegCharsetBytes

  /** "no instruction" */
  const NOINST := -1

  /** What `tt` points to. */
  function TestAt(code: Code, tt: int): Test
    requires TestIndex(code, tt)
  {
    if tt < 0 then NoTest
    else match code[tt].code
         case ITestChar => OnChar(code[tt].aux)
         case ITestSet => OnSet(code[tt + 2].cs)
         case ITestAny => OnAny
         case _ => OnJmp
  }

  predicate TestIndex(code: Code, tt: int) {
    tt < 0 ||
    (tt < |code| && code[tt].Inst? &&
     match code[tt].code
     case ITestChar => code[tt].aux < 256
     case ITestSet => HasBuff(code, tt + 2)
     case _ => true)
  }

  lemma TestIndexGrows(code: Code, more: Code, tt: int)
    requires TestIndex(code, tt)
    ensures TestIndex(code + more, tt) && TestAt(code + more, tt) == TestAt(code, tt)
  {}

  /** The test just coded is the one `TestOf` describes. */
  lemma TestCoded(base: Code, cs: Charset, e: bool, off: int)
    ensures var tt := if e then NOINST else |base|;
            TestIndex(base + CodeTestSet(cs, e, off), tt) && TestAt(base + CodeTestSet(cs, e, off), tt) == TestOf(cs, e)
  {
    if !e {
      var code, g := base + CodeTest(cs, off), CodeTest(cs, off);
      assert code[|base|] == g[0];
      if KindOf(cs).KSet? { assert code[|base| + 2] == g[2]; }
    }
  }

  /** Filling the offset slot of a part. */
  lemma PatchPart(base: Code, x: Code, y: Code, o: Instruction)
    requires |x| >= 2
    ensures (base + x + y)[|base| + 1 := o] == base + x[1 := o] + y
  {}

  lemma PatchLabelled(base: Code, op: Opcode, rest: Code, off: int)
    ensures (base + Labelled(op, 0) + rest)[|base| + 1 := Offset(off)] == base + Labelled(op, off) + rest
  {
    PatchPart(base, Labelled(op, 0), rest, Offset(off));
    assert Labelled(op, 0)[1 := Offset(off)] == Labelled(op, off);
  }

  lemma TestPatch(cs: Charset, off: int)
    ensures |CodeTest(cs, 0)| >= 2 && CodeTest(cs, 0)[1 := Offset(off)] == CodeTest(cs, off)
  {}

  lemma PatchTest(base: Code, cs: Charset, rest: Code, off: int)
    ensures (base + CodeTest(cs, 0) + rest)[|base| + 1 := Offset(off)] == base + CodeTest(cs, off) + rest
  {
    TestPatch(cs, off);
    PatchPart(base, CodeTest(cs, 0), rest, Offset(off));
  }

  // ----- appending and patching gives the layouts -----

  /** Two parts with an offset slot, filled in the order of `codechoice`. */
  lemma PatchTwo(base: Code, t: Code, c1: Code, j: Code, c2: Code, s: Code, o1: Instruction, o2: Instruction)
    requires |t| >= 2 && |j| >= 2 && s == (base + t + c1 + j)[|base| + 1 := o1] + c2
    ensures s[|base + t + c1| + 1 := o2] == base + (t[1 := o1] + (c1 + (j[1 := o2] + c2)))
  {
    var t', j' := t[1 := o1], j[1 := o2];
    assert base + t + c1 + j == base + t + (c1 + j);
    PatchPart(base, t, c1 + j, o1);
    assert s == (base + t' + c1) + j + c2;
    PatchPart(base + t' + c1, j, c2, o2);
    Assoc4(base, t', c1, j', c2);
  }

  lemma Assoc4(base: Code, w: Code, x: Code, y: Code, z: Code)
    ensures base + w + x + y + z == base + (w + (x + (y + z)))
  {}

  lemma Assoc5(base: Code, v: Code, w: Code, x: Code, y: Code, z: Code)
    ensures base + v + w + x + y + z == base + (v + (w + (x + (y + z))))
  {
    Assoc4(v, w, x, y, z);
    assert base + v + w + x + y + z == base + (v + w + x + y + z);
  }

  /** One part with an offset slot. */
  lemma PatchOne(base: Code, t: Code, c1: Code, c2: Code, s: Code, o: Instruction)
    requires |t| >= 2 && s == (base + t + c1)[|base| + 1 := o] + c2
    ensures s == base + (t[1 := o] + (c1 + ([] + c2)))
  {
    PatchPart(base, t, c1, o);
    assert [] + c2 == c2;
    Assoc3(base, t[1 := o], c1, c2);
  }

  lemma Assoc2(base: Code, x: Code, y: Code)
    ensures base + x + y == base + (x + y)
  {}

  lemma Assoc3(base: Code, x: Code, y: Code, z: Code)
    ensures base + x + y + z == base + (x + (y + z))
  {}

  lemma ChoiceTestPatched(base: Code, cs: Charset, empty2: bool, c1: Code, c2: Code, s1: Code, s2: Code, s3: Code)
    requires s1 == base + CodeTest(cs, 0) + c1
    requires s2 == if empty2 then s1 else s1 + Labelled(IJmp, 0)
    requires s3 == s2[|base| + 1 := Offset(|s2| - |base|)] + c2
    ensures (if empty2 then s3 else s3[|s1| + 1 := Offset(|s3| - |s1|)]) == base + ChoiceTestLayout(cs, empty2, c1, c2)
  {
    var t, off := CodeTest(cs, 0), |s2| - |base|;
    TestPatch(cs, off);
    if empty2 {
      PatchOne(base, t, c1, c2, s3, Offset(off));
    } else {
      PatchTwo(base, t, c1, Labelled(IJmp, 0), c2, s3, Offset(off), Offset(2 + |c2|));
    }
    ChoiceTestShape(cs, empty2, c1, c2, off);
  }

  lemma ChoiceTestShape(cs: Charset, empty2: bool, c1: Code, c2: Code, off: int)
    requires off == TestSize(cs, false) + |c1| + if empty2 then 0 else 2
    ensures ChoiceTestLayout(cs, empty2, c1, c2)
            == CodeTest(cs, off) + (c1 + ((if empty2 then [] else Labelled(IJmp, 0)[1 := Offset(2 + |c2|)]) + c2))
  {
    assert Labelled(IJmp, 0)[1 := Offset(2 + |c2|)] == Labelled(IJmp, 2 + |c2|);
  }

  /** Three parts with an offset slot, filled in the order of `codechoice`; the first may be absent. */
  lemma PatchThree(base: Code, t: Code, w: Code, c1: Code, j: Code, c2: Code, s1: Code, s2: Code, s3: Code,
                   o1: Instruction, o2: Instruction, o3: Instruction)
    requires (|t| == 0 || |t| >= 2) && |w| >= 2 && |j| >= 2 && s1 == base + t + w + c1 + j
    requires s2 == s1[|base| + |t| + 1 := o1]
    requires s3 == (if t == [] then s2 else s2[|base| + 1 := o2]) + c2
    ensures s3[|base + t + w + c1| + 1 := o3]
            == base + ((if t == [] then [] else t[1 := o2]) + (w[1 := o1] + (c1 + (j[1 := o3] + c2))))
  {
    var w', t' := w[1 := o1], if t == [] then [] else t[1 := o2];
    assert s1 == (base + t) + w + (c1 + j);
    PatchPart(base + t, w, c1 + j, o1);
    assert s2 == base + t + (w' + (c1 + j));
    if t != [] { PatchPart(base, t, w' + (c1 + j), o2); }
    assert s3 == (base + t' + w' + c1) + j + c2;
    PatchPart(base + t' + w' + c1, j, c2, o3);
    Assoc5(base, t', w', c1, j[1 := o3], c2);
  }

  lemma ChoicePatched(base: Code, f1: FirstSet, c1: Code, c2: Code, s1: Code, s2: Code, s3: Code)
    requires s1 == base + CodeTestSet(f1.cs, f1.e, 0) + Labelled(IChoice, 0) + c1 + Labelled(ICommit, 0)
    requires s2 == s1[|base| + TestSize(f1.cs, f1.e) + 1 := Offset(2 + |c1| + 2)]
    requires s3 == (if f1.e then s2 else s2[|base| + 1 := Offset(|s2| - |base|)]) + c2
    ensures s3[|s1| - 1 := Offset(2 + |c2|)] == base + ChoiceLayout(f1, c1, c2)
  {
    var t := CodeTestSet(f1.cs, f1.e, 0);
    TestPatch(f1.cs, |s2| - |base|);
    PatchThree(base, t, Labelled(IChoice, 0), c1, Labelled(ICommit, 0), c2, s1, s2, s3,
               Offset(2 + |c1| + 2), Offset(|s2| - |base|), Offset(2 + |c2|));
    assert Labelled(IChoice, 0)[1 := Offset(2 + |c1| + 2)] == Labelled(IChoice, 2 + |c1| + 2);
    assert Labelled(ICommit, 0)[1 := Offset(2 + |c2|)] == Labelled(ICommit, 2 + |c2|);
  }

  lemma RepTestPatched(base: Code, cs: Charset, c: Code, s1: Code, s2: Code)
    requires s1 == base + CodeTest(cs, 0) + c + Labelled(IJmp, 0)
    requires s2 == s1[|base| + 1 := Offset(|s1| - |base|)]
    ensures s2[|s1| - 1 := Offset(|base| - (|s1| - 2))] == base + RepTestLayout(cs, c)
  {
    TestPatch(cs, |s1| - |base|);
    var t, j, s := CodeTest(cs, 0), Labelled(IJmp, 0), s2 + [];
    assert s == s2;
    PatchTwo(base, t, c, j, [], s, Offset(|s1| - |base|), Offset(|base| - (|s1| - 2)));
    assert |base + t + c| == |s1| - 2;
    RepTestShape(cs, c, |s1| - |base|, |base| - (|s1| - 2));
  }

  lemma RepTestShape(cs: Charset, c: Code, off: int, back: int)
    requires off == TestSize(cs, false) + |c| + 2 && back == -(TestSize(cs, false) + |c|)
    ensures RepTestLayout(cs, c) == CodeTest(cs, off) + (c + (Labelled(IJmp, 0)[1 := Offset(back)] + []))
  {
    assert Labelled(IJmp, 0)[1 := Offset(back)] + [] == Labelled(IJmp, back);
  }

  /** Two leading parts with an offset slot, of which either may need no filling. */
  lemma PatchBoth(base: Code, t: Code, w: Code, rest: Code, s1: Code, s2: Code, s3: Code, o1: Instruction, o2: Instruction, fill1: bool)
    requires (|t| == 0 || |t| >= 2) && |w| >= 2 && s1 == base + t + w + rest
    requires s2 == if fill1 then s1[|base| + |t| + 1 := o1] else s1
    requires s3 == if t == [] then s2 else s2[|base| + 1 := o2]
    ensures s3 == base + ((if t == [] then [] else t[1 := o2]) + ((if fill1 then w[1 := o1] else w) + rest))
  {
    var w', t' := if fill1 then w[1 := o1] else w, if t == [] then [] else t[1 := o2];
    if fill1 { PatchPart(base + t, w, rest, o1); }
    Assoc2(base + t, w', rest);
    if t != [] { PatchPart(base, t, w' + rest, o2); }
    Assoc2(base, t', w' + rest);
  }

  lemma RepPatched(base: Code, f: FirstSet, opt: bool, c: Code, s1: Code, s2: Code, s3: Code)
    requires s1 == base + CodeTestSet(f.cs, f.e, 0) + (if opt then Labelled(IPartialCommit, 2) else Labelled(IChoice, 0))
                   + c + Labelled(IPartialCommit, -|c|)
    requires s2 == if opt then s1 else s1[|base| + TestSize(f.cs, f.e) + 1 := Offset(2 + |c| + 2)]
    requires s3 == if f.e then s2 else s2[|base| + 1 := Offset(|s2| - |base|)]
    ensures s3 == base + RepLayout(f, opt, c)
  {
    var t, w := CodeTestSet(f.cs, f.e, 0), if opt then Labelled(IPartialCommit, 2) else Labelled(IChoice, 0);
    var pc := Labelled(IPartialCommit, -|c|);
    Assoc2(base + t + w, c, pc);
    TestPatch(f.cs, |s2| - |base|);
    PatchBoth(base, t, w, c + pc, s1, s2, s3, Offset(2 + |c| + 2), Offset(|s2| - |base|), !opt);
    assert Labelled(IChoice, 0)[1 := Offset(2 + |c| + 2)] == Labelled(IChoice, 2 + |c| + 2);
  }

  lemma NotTestPatched(base: Code, f: FirstSet, s1: Code)
    requires s1 == base + CodeTestSet(f.cs, f.e, 0) + [Inst(IFail, 0)]
    ensures (if f.e then s1 else s1[|base| + 1 := Offset(|s1| - |base|)]) == base + NotTestLayout(f)
  {
    if !f.e { PatchTest(base, f.cs, [Inst(IFail, 0)], |s1| - |base|); }
  }

  lemma NotPatched(base: Code, f: FirstSet, c: Code, s1: Code, s2: Code)
    requires s1 == base + CodeTestSet(f.cs, f.e, 0) + Labelled(IChoice, 0) + c + [Inst(IFailTwice, 0)]
    requires s2 == s1[|base| + TestSize(f.cs, f.e) + 1 := Offset(2 + |c| + 1)]
    ensures (if f.e then s2 else s2[|base| + 1 := Offset(|s2| - |base|)]) == base + NotLayout(f, c)
  {
    var t, w, z := CodeTestSet(f.cs, f.e, 0), Labelled(IChoice, 0), [Inst(IFailTwice, 0)];
    var s3 := if f.e then s2 else s2[|base| + 1 := Offset(|s2| - |base|)];
    Assoc2(base + t + w, c, z);
    TestPatch(f.cs, |s2| - |base|);
    PatchBoth(base, t, w, c + z, s1, s2, s3, Offset(2 + |c| + 1), Offset(|s2| - |base|), true);
    assert Labelled(IChoice, 0)[1 := Offset(2 + |c| + 1)] == Labelled(IChoice, 2 + |c| + 1);
  }

  lemma AndPatched(base: Code, c: Code, s1: Code, s2: Code)
    requires s1 == base + Labelled(IChoice, 0) + c + Labelled(IBackCommit, 0)
    requires s2 == s1[|base| + 1 := Offset(2 + |c| + 2)] + [Inst(IFail, 0)]
    ensures s2[|s1| - 1 := Offset(3)] == base + AndLayout(c)
  {
    var ch, z := Labelled(IChoice, 2 + |c| + 2), [Inst(IFail, 0)];
    assert s1 == base + Labelled(IChoice, 0) + (c + Labelled(IBackCommit, 0));
    PatchLabelled(base, IChoice, c + Labelled(IBackCommit, 0), 2 + |c| + 2);
    assert s2 == (base + ch + c) + Labelled(IBackCommit, 0) + z;
    PatchLabelled(base + ch + c, IBackCommit, z, 3);
    assert (base + ch + c) + Labelled(IBackCommit, 3) + z == base + (ch + (c + (Labelled(IBackCommit, 3) + z)));
  }

  // ----- questions about sets, answered by the byte loops -----

  method KindByBytes(cs: Charset) returns (k: Kind)
    ensures k == KindOf(cs)
  {
    k := LpegCharsetBytes.CharsetType(LpegCharsetBytes.Packed(cs));
  }

  method EqualByBytes(a: Charset, b: Charset) returns (r: bool)
    ensures r <==> a == b
  {
    r := LpegCharsetBytes.EqualBytes(LpegCharsetBytes.Packed(a), LpegCharsetBytes.Packed(b));
  }

  method DisjointByBytes(a: Charset, b: Charset) returns (r: bool)
    ensures r <==> a !! b
  {
    r := LpegCharsetBytes.DisjointBytes(LpegCharsetBytes.Packed(a), LpegCharsetBytes.Packed(b));
  }

  class CompileState {
    /** The code array up to `ncode`. */
    var code: Code

    constructor ()
      ensures code == []
    {
      code := [];
    }

    method AddInstruction(op: Opcode, aux: nat) returns (i: int)
      modifies this
      ensures code == old(code) + [Inst(op, aux)] && i == |old(code)|
    {
      i := |code|;
      code := code + [Inst(op, aux)];
    }

    /** The slot for the offset is reserved and filled later. */
    method AddOffsetInst(op: Opcode) returns (i: int)
      modifies this
      ensures code == old(code) + Labelled(op, 0) && i == |old(code)|
    {
      i := AddInstruction(op, 0);
      code := code + [Offset(0)];
    }

    method AddCharset(cs: Charset)
      modifies this
      ensures code == old(code) + CharsetSlots(cs)
    {
      code := code + [Buff(cs)];
      var i := 1;
      while i < CHARSETINSTSIZE - 1
        invariant 1 <= i <= 8 && |code| == |old(code)| + i
        invariant code == old(code) + CharsetSlots(cs)[..i]
      {
        code := code + [Pad];
        i := i + 1;
      }
    }

    method JumpToThere(instruction: int, target: int)
      requires instruction >= 0 ==> instruction + 1 < |code|
      modifies this
      ensures code == if instruction >= 0 then old(code)[instruction + 1 := Offset(target - instruction)] else old(code)
    {
      if instruction >= 0 {
        code := code[instruction + 1 := Offset(target - instruction)];
      }
    }

    method JumpToHere(instruction: int)
      requires instruction >= 0 ==> instruction + 1 < |code|
      modifies this
      ensures code == if instruction >= 0 then old(code)[instruction + 1 := Offset(|old(code)| - instruction)] else old(code)
    {
      JumpToThere(instruction, |code|);
    }

    method EmitChar(c: Char, tt: int)
      requires TestIndex(code, tt)
      modifies this
      ensures code == old(code) + CodeChar(c, TestAt(old(code), tt))
    {
      if tt >= 0 && code[tt].code == ITestChar && code[tt].aux == c {
        var _ := AddInstruction(IAny, 0);
      } else {
        var _ := AddInstruction(IChar, c);
      }
    }

    method EmitCharset(cs: Charset, tt: int)
      requires TestIndex(code, tt)
      modifies this
      ensures code == old(code) + CodeCharset(cs, TestAt(old(code), tt))
    {
      var kind := KindByBytes(cs);
      match kind
      case KChar(c) => EmitChar(c, tt);
      case KSet =>
        var dominated := tt >= 0 && code[tt].code == ITestSet;
        if dominated {
          dominated := EqualByBytes(code[tt + 2].cs, cs);
        }
        if dominated {
          var _ := AddInstruction(IAny, 0);
        } else {
          var _ := AddInstruction(ISet, 0);
          AddCharset(cs);
        }
      case KFail => var _ := AddInstruction(IFail, 0);
      case KAny => var _ := AddInstruction(IAny, 0);
    }

    method EmitTestSet(cs: Charset, e: bool) returns (i: int)
      modifies this
      ensures i == if e then NOINST else |old(code)|
      ensures code == old(code) + CodeTestSet(cs, e, 0)
    {
      if e { return NOINST; }
      var kind := KindByBytes(cs);
      match kind
      case KFail => i := AddOffsetInst(IJmp);
      case KAny => i := AddOffsetInst(ITestAny);
      case KChar(c) =>
        i := AddOffsetInst(ITestChar);
        code := code[i := Inst(ITestChar, c)];
        assert code == old(code) + CodeTest(cs, 0);
      case KSet =>
        i := AddOffsetInst(ITestSet);
        AddCharset(cs);
        assert code == old(code) + CodeTest(cs, 0);
    }

    method EmitBehind(n: nat)
      modifies this
      ensures code == old(code) + CodeBehind(n)
    {
      if n > 0 { var _ := AddInstruction(IBehind, n); }
    }

    /** A partial commit to the next instruction. */
    method EmitPartialCommit()
      modifies this
      ensures code == old(code) + Labelled(IPartialCommit, 2)
    {
      var pc := AddOffsetInst(IPartialCommit);
      PatchLabelled(old(code), IPartialCommit, [], 2);
      JumpToHere(pc);
    }

    /** A partial commit back to `l`. */
    method EmitCommitTo(l: int)
      modifies this
      ensures code == old(code) + Labelled(IPartialCommit, l - |old(code)|)
    {
      var commit := AddOffsetInst(IPartialCommit);
      PatchLabelled(old(code), IPartialCommit, [], l - |old(code)|);
      JumpToThere(commit, l);
    }

    /** `codechoice` */
    method EmitChoice(p1: Tree, p2: Tree, opt: bool, fl: Charset)
      modifies this
      ensures code == old(code) + Gen(TChoice(p1, p2), opt, NoTest, fl)
      decreases TChoice(p1, p2), 1
    {
      var emptyp2 := p2.TTrue?;
      var f1 := GetFirst(p1, FullSet());
      var byTest := HeadFail(p1);
      if !byTest && !f1.e { byTest := DisjointByBytes(f1.cs, GetFirst(p2, fl).cs); }
      if byTest {
        EmitChoiceByTest(p1, p2, opt, fl, f1.cs);
      } else if opt && emptyp2 {
        EmitPartialCommit();
        CodeGen(p1, true, NOINST, FullSet());
        Assoc2(old(code), Labelled(IPartialCommit, 2), Gen(p1, true, NoTest, FullSet()));
      } else {
        EmitChoiceByChoice(p1, p2, opt, fl, f1);
      }
    }

    /** A test, then the pattern it protects. */
    method EmitTested(p: Tree, cs: Charset, fl: Charset) returns (test: int)
      modifies this
      ensures test == |old(code)|
      ensures code == old(code) + CodeTest(cs, 0) + Gen(p, false, TestOf(cs, false), fl)
      decreases p, 3
    {
      hide Gen;
      test := EmitTestSet(cs, false);
      TestCoded(old(code), cs, false, 0);
      CodeGen(p, false, test, fl);
    }

    /** A test, a choice, then the pattern they protect. */
    method EmitTestedChoice(p: Tree, opt: bool, f: FirstSet) returns (test: int, pchoice: int)
      modifies this
      ensures test == if f.e then NOINST else |old(code)|
      ensures pchoice == |old(code)| + TestSize(f.cs, f.e)
      ensures code == old(code) + CodeTestSet(f.cs, f.e, 0) + Labelled(IChoice, 0) + Gen(p, opt, TestOf(f.cs, f.e), FullSet())
      decreases p, 3
    {
      hide Gen;
      test := EmitTestSet(f.cs, f.e);
      TestCoded(old(code), f.cs, f.e, 0);
      TestIndexGrows(code, Labelled(IChoice, 0), test);
      pchoice := AddOffsetInst(IChoice);
      CodeGen(p, opt, test, FullSet());
    }

    method EmitChoiceByTest(p1: Tree, p2: Tree, opt: bool, fl: Charset, cs: Charset)
      modifies this
      ensures code == old(code) + ChoiceTestLayout(cs, p2.TTrue?, Gen(p1, false, TestOf(cs, false), fl), Gen(p2, opt, NoTest, fl))
      decreases TChoice(p1, p2), 0
    {
      hide Gen, ChoiceTestLayout, CodeTest, TestOf;
      TestPatch(cs, 0);
      var test := EmitTested(p1, cs, fl);
      ghost var s1 := code;
      var jmp := NOINST;
      if !p2.TTrue? { jmp := AddOffsetInst(IJmp); }
      ghost var s2 := code;
      JumpToHere(test);
      CodeGen(p2, opt, NOINST, fl);
      ghost var s3 := code;
      JumpToHere(jmp);
      ChoiceTestPatched(old(code), cs, p2.TTrue?, Gen(p1, false, TestOf(cs, false), fl), Gen(p2, opt, NoTest, fl), s1, s2, s3);
    }

    method EmitChoiceByChoice(p1: Tree, p2: Tree, opt: bool, fl: Charset, f1: FirstSet)
      modifies this
      ensures code == old(code) + ChoiceLayout(f1, Gen(p1, p2.TTrue?, TestOf(f1.cs, f1.e), FullSet()), Gen(p2, opt, NoTest, fl))
      decreases TChoice(p1, p2), 0
    {
      hide Gen;
      var test, pchoice := EmitTestedChoice(p1, p2.TTrue?, f1);
      var pcommit := AddOffsetInst(ICommit);
      ghost var s1 := code;
      JumpToHere(pchoice);
      ghost var s2 := code;
      JumpToHere(test);
      CodeGen(p2, opt, NOINST, fl);
      ghost var s3 := code;
      JumpToHere(pcommit);
      ChoicePatched(old(code), f1, Gen(p1, p2.TTrue?, TestOf(f1.cs, f1.e), FullSet()), Gen(p2, opt, NoTest, fl), s1, s2, s3);
    }

    /** `coderep` */
    method EmitRep(p: Tree, opt: bool, fl: Charset)
      modifies this
      ensures code == old(code) + Gen(TRep(p), opt, NoTest, fl)
      decreases TRep(p), 1
    {
      var st := ToCharset(p);
      if st.Some? {
        var _ := AddInstruction(ISpan, 0);
        AddCharset(st.value);
        Assoc2(old(code), [Inst(ISpan, 0)], CharsetSlots(st.value));
      } else {
        var f := GetFirst(p, FullSet());
        var byTest := HeadFail(p);
        if !byTest && !f.e { byTest := DisjointByBytes(f.cs, fl); }
        if byTest {
          EmitRepByTest(p, f.cs);
        } else {
          EmitRepByChoice(p, opt, f);
        }
      }
    }

    method EmitRepByTest(p: Tree, cs: Charset)
      modifies this
      ensures code == old(code) + RepTestLayout(cs, Gen(p, false, TestOf(cs, false), FullSet()))
      decreases TRep(p), 0
    {
      hide Gen;
      var test := EmitTested(p, cs, FullSet());
      var jmp := AddOffsetInst(IJmp);
      ghost var s1 := code;
      JumpToHere(test);
      ghost var s2 := code;
      JumpToThere(jmp, test);
      RepTestPatched(old(code), cs, Gen(p, false, TestOf(cs, false), FullSet()), s1, s2);
    }

    method EmitRepByChoice(p: Tree, opt: bool, f: FirstSet)
      modifies this
      ensures code == old(code) + RepLayout(f, opt, Gen(p, false, NoTest, FullSet()))
      decreases TRep(p), 0
    {
      hide Gen;
      ghost var base := code;
      var test := EmitTestSet(f.cs, f.e);
      var pchoice := NOINST;
      if opt {
        EmitPartialCommit();
      } else {
        pchoice := AddOffsetInst(IChoice);
      }
      var l2 := |code|;
      CodeGen(p, false, NOINST, FullSet());
      EmitCommitTo(l2);
      ghost var s1 := code;
      JumpToHere(pchoice);
      ghost var s2 := code;
      JumpToHere(test);
      RepPatched(base, f, opt, Gen(p, false, NoTest, FullSet()), s1, s2, code);
    }

    /** `codenot` */
    method EmitNot(p: Tree)
      modifies this
      ensures code == old(code) + Gen(TNot(p), false, NoTest, FullSet())
      decreases TNot(p), 1
    {
      var f := GetFirst(p, FullSet());
      if HeadFail(p) { EmitNotByTest(f); } else { EmitNotByChoice(p, f); }
    }

    method EmitNotByTest(f: FirstSet)
      modifies this
      ensures code == old(code) + NotTestLayout(f)
    {
      var test := EmitTestSet(f.cs, f.e);
      var _ := AddInstruction(IFail, 0);
      ghost var s1 := code;
      JumpToHere(test);
      NotTestPatched(old(code), f, s1);
    }

    method EmitNotByChoice(p: Tree, f: FirstSet)
      modifies this
      ensures code == old(code) + NotLayout(f, Gen(p, false, NoTest, FullSet()))
      decreases TNot(p), 0
    {
      hide Gen;
      var test := EmitTestSet(f.cs, f.e);
      var pchoice := AddOffsetInst(IChoice);
      CodeGen(p, false, NOINST, FullSet());
      var _ := AddInstruction(IFailTwice, 0);
      ghost var s1 := code;
      JumpToHere(pchoice);
      ghost var s2 := code;
      JumpToHere(test);
      NotPatched(old(code), f, Gen(p, false, NoTest, FullSet()), s1, s2);
    }

    /** `codeand` */
    method EmitAnd(p: Tree, tt: int)
      requires TestIndex(code, tt)
      modifies this
      ensures code == old(code) + Gen(TAnd(p), false, TestAt(old(code), tt), FullSet())
      decreases TAnd(p), 1
    {
      var n := FixedLen(p);
      if 0 <= n <= MAXBEHIND {
        CodeGen(p, false, tt, FullSet());
        EmitBehind(n);
        Assoc2(old(code), Gen(p, false, TestAt(old(code), tt), FullSet()), CodeBehind(n));
      } else {
        EmitAndByChoice(p, tt);
      }
    }

    method EmitAndByChoice(p: Tree, tt: int)
      requires TestIndex(code, tt)
      modifies this
      ensures code == old(code) + AndLayout(Gen(p, false, TestAt(old(code), tt), FullSet()))
      decreases TAnd(p), 0
    {
      hide Gen;
      TestIndexGrows(code, Labelled(IChoice, 0), tt);
      var pchoice := AddOffsetInst(IChoice);
      CodeGen(p, false, tt, FullSet());
      var pcommit := AddOffsetInst(IBackCommit);
      ghost var s1 := code;
      JumpToHere(pchoice);
      var _ := AddInstruction(IFail, 0);
      ghost var s2 := code;
      JumpToHere(pcommit);
      AndPatched(old(code), Gen(p, false, TestAt(old(code), tt), FullSet()), s1, s2);
    }

    /** `codegen`: appends exactly the code of `Gen`. */
    method CodeGen(t: Tree, opt: bool, tt: int, fl: Charset)
      requires TestIndex(code, tt)
      modifies this
      ensures code == old(code) + Gen(t, opt, TestAt(old(code), tt), fl)
      decreases t, 2
    {
      ghost var base := code;
      match t
      case TChar(c) => EmitChar(c, tt);
      case TAny => var _ := AddInstruction(IAny, 0);
      case TSet(cs) => EmitCharset(cs, tt);
      case TTrue =>
      case TFalse => var _ := AddInstruction(IFail, 0);
      case TChoice(p1, p2) => EmitChoice(p1, p2, opt, fl);
      case TRep(p) => EmitRep(p, opt, fl);
      case TBehind(n, p) =>
        EmitBehind(n);
        CodeGen(p, false, NOINST, FullSet());
        Assoc2(base, CodeBehind(n), Gen(p, false, NoTest, FullSet()));
      case TNot(p) => EmitNot(p);
      case TAnd(p) => EmitAnd(p, tt);
      case TSeq(p1, p2) =>
        var fl1 := if NeedFollow(p1) then GetFirst(p2, fl).cs else FullSet();
        CodeGen(p1, false, tt, fl1);
        TestIndexGrows(old(code), Gen(p1, false, TestAt(old(code), tt), fl1), tt);
        CodeGen(p2, opt, if FixedLen(p1) != 0 then NOINST else tt, fl);
        Assoc2(base, Gen(p1, false, TestAt(base, tt), fl1), Gen(p2, opt, TestAfter(p1, TestAt(base, tt)), fl));
    }
  }
}
