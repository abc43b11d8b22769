/**
 The code generator of `lpcode.c` as a function of the tree, the flag `opt`, the test that protects
 the code (`tt`) and the follow set (`fl`). The imperative generator, which appends to and patches
 the code array, is proved to produce exactly this code.
 */
module LpegCodeGen {
  import opened LpegCharset
  import opened LpegTree
  import opened LpegAnalysis
  import opened LpegMachine

  /** What the generator reads through `tt`: the opcode of the protecting test and its operand. */
  datatype Test = NoTest | OnChar(c: Char) | OnSet(cs: Charset) | OnAny | OnJmp

  function CharsetSlots(cs: Charset): (r: Code)
    ensures |r| == 8
  {
    [Buff(cs), Pad, Pad, Pad, Pad, Pad, Pad, Pad]
  }

  function Labelled(op: Opcode, off: int): Code { [Inst(op, 0), Offset(off)] }

  /** `codechar` */
  function CodeChar(c: Char, tt: Test): Code {
    if tt == OnChar(c) then [Inst(IAny, 0)] else [Inst(IChar, c)]
  }

  /** `codecharset` */
  function CodeCharset(cs: Charset, tt: Test): Code {
    match KindOf(cs)
    case KChar(c) => CodeChar(c, tt)
    case KFail => [Inst(IFail, 0)]
    case KAny => [Inst(IAny, 0)]
    case KSet => if tt == OnSet(cs) then [Inst(IAny, 0)] else [Inst(ISet, 0)] + CharsetSlots(cs)
  }

  /** `codetestset` on a set that must be tested, with the label already known. */
  function CodeTest(cs: Charset, off: int): Code {
    match KindOf(cs)
    case KFail => Labelled(IJmp, off)
    case KAny => Labelled(ITestAny, off)
    case KChar(c) => [Inst(ITestChar, c), Offset(off)]
    case KSet => Labelled(ITestSet, off) + CharsetSlots(cs)
  }

  function TestSize(cs: Charset, e: bool): nat {
    if e then 0 else if KindOf(cs).KSet? then 10 else 2
  }

  /** `codetestset`: no test when the pattern may accept the empty string. */
  function CodeTestSet(cs: Charset, e: bool, off: int): (r: Code)
    ensures |r| == TestSize(cs, e)
  {
    if e then [] else CodeTest(cs, off)
  }

  function TestOf(cs: Charset, e: bool): Test {
    if e then NoTest
    else match KindOf(cs)
         case KFail => OnJmp
         case KAny => OnAny
         case KChar(c) => OnChar(c)
         case KSet => OnSet(cs)
  }

  predicate ChoiceByTest(p1: Tree, p2: Tree, fl: Charset) {
    var f1 := GetFirst(p1, FullSet());
    HeadFail(p1) || (!f1.e && f1.cs !! GetFirst(p2, fl).cs)
  }

  predicate RepByTest(p: Tree, fl: Charset) {
    var f := GetFirst(p, FullSet());
    HeadFail(p) || (!f.e && f.cs !! fl)
  }

  function FollowOf(p1: Tree, p2: Tree, fl: Charset): Charset {
    if NeedFollow(p1) then GetFirst(p2, fl).cs else FullSet()
  }

  function TestAfter(p1: Tree, tt: Test): Test {
    if FixedLen(p1) != 0 then NoTest else tt
  }

  predicate AndByBehind(p: Tree) { 0 <= FixedLen(p) <= MAXBEHIND }

  function CodeBehind(n: nat): Code { if n > 0 then [Inst(IBehind, n)] else [] }

  // ----- layouts, given the code of the parts -----

  /** A failed test skips the first pattern; after a success, a jump skips the second, if there is one. */
  function ChoiceTestLayout(cs1: Charset, empty2: bool, c1: Code, c2: Code): Code {
    var jmp := if empty2 then [] else Labelled(IJmp, 2 + |c2|);
    CodeTest(cs1, TestSize(cs1, false) + |c1| + |jmp|) + (c1 + (jmp + c2))
  }

  /** A failed test skips to the second pattern; else the first runs with the second as its backtrack entry. */
  function ChoiceLayout(f1: FirstSet, c1: Code, c2: Code): Code {
    CodeTestSet(f1.cs, f1.e, TestSize(f1.cs, f1.e) + 2 + |c1| + 2)
    + (Labelled(IChoice, 2 + |c1| + 2) + (c1 + (Labelled(ICommit, 2 + |c2|) + c2)))
  }

  /** A loop that the test at its head leaves. */
  function RepTestLayout(cs: Charset, c: Code): Code {
    var ts := TestSize(cs, false);
    CodeTest(cs, ts + |c| + 2) + (c + Labelled(IJmp, -(ts + |c|)))
  }

  /** A loop that leaves through its backtrack entry, which each round updates; with `opt` the entry is there already. */
  function RepLayout(f: FirstSet, opt: bool, c: Code): Code {
    CodeTestSet(f.cs, f.e, TestSize(f.cs, f.e) + 2 + |c| + 2)
    + ((if opt then Labelled(IPartialCommit, 2) else Labelled(IChoice, 2 + |c| + 2))
       + (c + Labelled(IPartialCommit, -|c|)))
  }

  /** For a pattern that its test decides: a failed test skips the failure. */
  function NotTestLayout(f: FirstSet): Code {
    CodeTestSet(f.cs, f.e, TestSize(f.cs, f.e) + 1) + [Inst(IFail, 0)]
  }

  /** If the pattern matches, its own backtrack entry is dropped and the whole fails. */
  function NotLayout(f: FirstSet, c: Code): Code {
    CodeTestSet(f.cs, f.e, TestSize(f.cs, f.e) + 2 + |c| + 1)
    + (Labelled(IChoice, 2 + |c| + 1) + (c + [Inst(IFailTwice, 0)]))
  }

  /** If the pattern matches, the position is taken back from its backtrack entry. */
  function AndLayout(c: Code): Code {
    Labelled(IChoice, 2 + |c| + 2) + (c + (Labelled(IBackCommit, 3) + [Inst(IFail, 0)]))
  }

  // ----- codegen -----

  function Gen(t: Tree, opt: bool, tt: Test, fl: Charset): Code
    decreases t
  {
    match t
    case TChar(c) => CodeChar(c, tt)
    case TAny => [Inst(IAny, 0)]
    case TSet(cs) => CodeCharset(cs, tt)
    case TTrue => []
    case TFalse => [Inst(IFail, 0)]
    case TChoice(p1, p2) =>
      var f1 := GetFirst(p1, FullSet());
      if ChoiceByTest(p1, p2, fl) then
        ChoiceTestLayout(f1.cs, p2.TTrue?, Gen(p1, false, TestOf(f1.cs, false), fl), Gen(p2, opt, NoTest, fl))
      else if opt && p2.TTrue? then
        Labelled(IPartialCommit, 2) + Gen(p1, true, NoTest, FullSet())
      else
        ChoiceLayout(f1, Gen(p1, p2.TTrue?, TestOf(f1.cs, f1.e), FullSet()), Gen(p2, opt, NoTest, fl))
    case TRep(p) =>
      if ToCharset(p).Some? then
        [Inst(ISpan, 0)] + CharsetSlots(ToCharset(p).value)
      else
        var f := GetFirst(p, FullSet());
        if RepByTest(p, fl) then RepTestLayout(f.cs, Gen(p, false, TestOf(f.cs, false), FullSet()))
        else RepLayout(f, opt, Gen(p, false, NoTest, FullSet()))
    case TBehind(n, p) => CodeBehind(n) + Gen(p, false, NoTest, FullSet())
    case TNot(p) =>
      var f := GetFirst(p, FullSet());
      if HeadFail(p) then NotTestLayout(f) else NotLayout(f, Gen(p, false, NoTest, FullSet()))
    case TAnd(p) =>
      var c := Gen(p, false, tt, FullSet());
      if AndByBehind(p) then c + CodeBehind(FixedLen(p)) else AndLayout(c)
    case TSeq(p1, p2) =>
      Gen(p1, false, tt, FollowOf(p1, p2, fl)) + Gen(p2, opt, TestAfter(p1, tt), fl)
  }

  /** The code of a whole pattern before jump optimization. */
  function Program(t: Tree): Code {
    Gen(t, false, NoTest, FullSet()) + [Inst(IEnd, 0)]
  }
}
