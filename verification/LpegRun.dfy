/**
 Jump optimization in place, the whole compiler, and the interpreter loop.
 */
module LpegRun {
  import opened LpegCharset
  import opened Basics
  import opened LpegTree
  import opened LpegMachine
  import opened LpegCodeGen
  import opened LpegCorrect
  import opened LpegPeephole
  import opened LpegLabels
  import opened LpegCompile

  lemma PreservesRefl(C: Code)
    ensures Preserves(C, C)
  {}

  lemma PreservesTrans(C: Code, D: Code, E: Code)
    requires Preserves(C, D) && Preserves(D, E)
    ensures Preserves(C, E)
  {}

  lemma {:induction false} WholeFrame(C: Code, C': Code, j: int)
    requires |C'| == |C| && 0 <= j <= |C| && Whole(C, j)
    requires forall q :: j <= q < |C| ==> C'[q] == C[q]
    ensures Whole(C', j)
    decreases |C| - j
  {
    if j < |C| { WholeFrame(C, C', j + Size(C[j].code)); }
  }

  /** Code on which the sweep may stand at `i`. */
  ghost predicate Ready(C: Code, rank: seq<nat>, i: int) {
    LabelsOk(C, rank) && 0 <= i <= |C| && Whole(C, i)
  }

  /** The label at `q` leads to no jump, and a jump at `q` leads to nothing that jumps or ends anyway. */
  ghost predicate Threaded(C: Code, q: int) {
    IsInst(C, q) && IsLabelled(C[q].code) ==>
      && HasOffset(C, q) && IsInst(C, Target(C, q)) && !IsJmp(C, Target(C, q))
      && (C[q].code == IJmp ==> !IsEnd(C[Target(C, q)].code) && !IsCommit(C[Target(C, q)].code))
  }

  ghost predicate ThreadedBelow(C: Code, i: int) { forall q :: q < i ==> Threaded(C, q) }

  /** A rewriting further on leaves it so: it changes no instruction but jumps, and of others only the label. */
  lemma StaysThreaded(C: Code, C': Code, rank: seq<nat>, i: int)
    requires LabelsOk(C, rank) && Rewritten(C, C', rank, i) && ThreadedBelow(C, i)
    ensures ThreadedBelow(C', i)
  {
    forall q | q < i ensures Threaded(C', q) {
      assert Threaded(C, q);
      assert HasOffset(C, i);
    }
  }

  /** Moving the label of an instruction to the end of its chain. */
  lemma LabelToFinal(C: Code, C': Code, rank: seq<nat>, i: int)
    requires Ready(C, rank, i) && IsInst(C, i) && IsLabelled(C[i].code) && C[i].code != IJmp
    requires C' == C[i + 1 := Offset(FinalTarget(C, rank, Target(C, i)) - i)]
    ensures Preserves(C, C') && Ready(C', rank, i) && Threaded(C', i) && (ThreadedBelow(C, i) ==> ThreadedBelow(C', i))
  {
    assert Same(C, rank, Target(C, i), Target(C', i));
    if ThreadedBelow(C, i) { StaysThreaded(C, C', rank, i); }
    RewritingPreserves(C, C', rank, i);
    RewritingKeepsLabels(C, C', rank, i);
    WholeFrame(C, C', i + Size(C[i].code));
  }

  /** A jump moved to the end of its chain. */
  lemma JumpToFinal(C: Code, C': Code, rank: seq<nat>, i: int)
    requires Ready(C, rank, i) && IsJmp(C, i) && HasOffset(C, i)
    requires C' == C[i + 1 := Offset(FinalTarget(C, rank, i) - i)]
    ensures Preserves(C, C') && Ready(C', rank, i) && (ThreadedBelow(C, i) ==> ThreadedBelow(C', i))
    ensures !IsEnd(C[FinalTarget(C, rank, i)].code) && !IsCommit(C[FinalTarget(C, rank, i)].code) ==> Threaded(C', i)
  {
    if ThreadedBelow(C, i) { StaysThreaded(C, C', rank, i); }
    RewritingPreserves(C, C', rank, i);
    RewritingKeepsLabels(C, C', rank, i);
    WholeFrame(C, C', i + 2);
  }

  /** A jump replaced by the ending instruction it leads to; the spare slot becomes an instruction of its own. */
  lemma JumpToEnd(C: Code, C': Code, rank: seq<nat>, i: int)
    requires Ready(C, rank, i) && IsJmp(C, i) && HasOffset(C, i) && IsEnd(C[FinalTarget(C, rank, i)].code)
    requires C' == C[i := C[FinalTarget(C, rank, i)]][i + 1 := Inst(IAny, 0)]
    ensures Preserves(C, C') && Ready(C', rank, i) && Threaded(C', i) && (ThreadedBelow(C, i) ==> ThreadedBelow(C', i))
  {
    if ThreadedBelow(C, i) { StaysThreaded(C, C', rank, i); }
    RewritingPreserves(C, C', rank, i);
    RewritingKeepsLabels(C, C', rank, i);
    WholeFrame(C, C', i + 2);
    assert Whole(C', i + 1);
  }

  /** A jump replaced by the committing instruction it leads to. */
  lemma JumpToCommit(C: Code, C': Code, rank: seq<nat>, i: int)
    requires Ready(C, rank, i) && IsJmp(C, i) && HasOffset(C, i) && IsCommit(C[FinalTarget(C, rank, i)].code)
    requires var ft := FinalTarget(C, rank, i);
             C' == C[i := C[ft]][i + 1 := Offset(FinalTarget(C, rank, Target(C, ft)) - i)]
    ensures Preserves(C, C') && Ready(C', rank, i) && Threaded(C', i) && (ThreadedBelow(C, i) ==> ThreadedBelow(C', i))
  {
    var ft := FinalTarget(C, rank, i);
    assert Same(C, rank, Target(C, ft), Target(C', i));
    if ThreadedBelow(C, i) { StaysThreaded(C, C', rank, i); }
    RewritingPreserves(C, C', rank, i);
    RewritingKeepsLabels(C, C', rank, i);
    WholeFrame(C, C', i + 2);
  }

  /** `finaltarget`: follow jumps. */
  method ChaseJumps(code: array<Instruction>, ghost rank: seq<nat>, i: int) returns (j: int)
    requires LabelsOk(code[..], rank) && IsInst(code[..], i)
    ensures j == FinalTarget(code[..], rank, i)
  {
    j := i;
    while code[j].code == IJmp
      invariant IsInst(code[..], j) && FinalTarget(code[..], rank, j) == FinalTarget(code[..], rank, i)
      decreases rank[j]
    {
      assert HasOffset(code[..], j);
      j := j + code[j + 1].offset;
    }
  }

  /** Optimize the label of the instruction at `i`. */
  method OptimizeLabel(code: array<Instruction>, ghost rank: seq<nat>, i: int)
    requires Ready(code[..], rank, i) && IsInst(code[..], i) && IsLabelled(code[i].code) && code[i].code != IJmp
    requires ThreadedBelow(code[..], i)
    modifies code
    ensures Preserves(old(code[..]), code[..]) && Ready(code[..], rank, i) && ThreadedBelow(code[..], i) && Threaded(code[..], i)
  {
    ghost var C := code[..];
    assert HasOffset(C, i) && IsInst(C, Target(C, i));
    var ft := ChaseJumps(code, rank, i + code[i + 1].offset);
    code[i + 1] := Offset(ft - i);
    assert code[..] == C[i + 1 := Offset(ft - i)];
    LabelToFinal(C, code[..], rank, i);
  }

  /** Optimize the jump at `i`: it may become the instruction it leads to. */
  method OptimizeJump(code: array<Instruction>, ghost rank: seq<nat>, i: int)
    requires Ready(code[..], rank, i) && IsJmp(code[..], i) && ThreadedBelow(code[..], i)
    modifies code
    ensures Preserves(old(code[..]), code[..]) && Ready(code[..], rank, i) && ThreadedBelow(code[..], i) && Threaded(code[..], i)
  {
    ghost var C := code[..];
    assert HasOffset(C, i) && IsInst(C, Target(C, i));
    var ft := ChaseJumps(code, rank, i);
    var op := code[ft].code;
    if IsEnd(op) {
      code[i] := code[ft];
      code[i + 1] := Inst(IAny, 0);
      assert code[..] == C[i := C[ft]][i + 1 := Inst(IAny, 0)];
      JumpToEnd(C, code[..], rank, i);
    } else if IsCommit(op) {
      assert HasOffset(C, ft) && IsInst(C, Target(C, ft));
      var fft := ChaseJumps(code, rank, ft + code[ft + 1].offset);
      code[i] := code[ft];
      code[i + 1] := Offset(fft - i);
      assert code[..] == C[i := C[ft]][i + 1 := Offset(fft - i)];
      JumpToCommit(C, code[..], rank, i);
    } else {
      code[i + 1] := Offset(ft - i);
      assert code[..] == C[i + 1 := Offset(ft - i)];
      JumpToFinal(C, code[..], rank, i);
    }
  }

  /** Between the start of an instruction and the next one there is no other. */
  lemma ThreadedOver(C: Code, i: int)
    requires 0 <= i < |C| && Whole(C, i) && ThreadedBelow(C, i) && Threaded(C, i)
    ensures ThreadedBelow(C, i + Size(C[i].code))
  {
  }

  /** `peephole`: one sweep over the code, after which every jump is threaded. */
  method Peephole(code: array<Instruction>, ghost rank: seq<nat>)
    requires Ready(code[..], rank, 0)
    modifies code
    ensures Preserves(old(code[..]), code[..]) && ThreadedBelow(code[..], code.Length)
  {
    hide Threaded;
    NoneThreaded(code[..]);
    PreservesRefl(code[..]);
    var i := 0;
    while i < code.Length
      invariant Ready(code[..], rank, i) && Preserves(old(code[..]), code[..]) && ThreadedBelow(code[..], i)
      decreases code.Length - i
    {
      ghost var C := code[..];
      if code[i].code == IJmp {
        OptimizeJump(code, rank, i);
        PreservesTrans(old(code[..]), C, code[..]);
      }
      ghost var D := code[..];
      if IsLabelled(code[i].code) && code[i].code != IJmp {
        OptimizeLabel(code, rank, i);
        PreservesTrans(old(code[..]), D, code[..]);
      }
      if !IsLabelled(code[i].code) { NotLabelled(code[..], i); }
      ThreadedOver(code[..], i);
      var size := Size(code[i].code);
      i := i + size;
    }
  }

  lemma NoneThreaded(C: Code)
    ensures ThreadedBelow(C, 0)
  {
  }

  lemma NotLabelled(C: Code, i: int)
    requires IsInst(C, i) && !IsLabelled(C[i].code)
    ensures Threaded(C, i)
  {
  }

  /** `compile`: the optimized code of a pattern, whose runs all report what `Parse` says. */
  method Compile(t: Tree) returns (code: array<Instruction>)
    requires WellFormed(t)
    ensures Computes(code[..], t) && ThreadedBelow(code[..], code.Length)
  {
    var source := Generate(t);
    code := new Instruction[|source|](i requires 0 <= i < |source| => source[i]);
    assert code[..] == source;
    ProgramShape(t);
    Peephole(code, Ranks(source));
    OptimizedComputes(t, code[..]);
  }

  method Generate(t: Tree) returns (source: Code)
    ensures source == Program(t)
  {
    hide Gen;
    var cs := new CompileState();
    cs.CodeGen(t, false, NOINST, FullSet());
    var _ := cs.AddInstruction(IEnd, 0);
    source := cs.code;
  }

  /** Every run of the code ends and reports what `Parse` says. */
  ghost predicate Computes(C: Code, t: Tree) {
    forall S: Subject, i: nat | i <= |S| :: Reach(C, S, Start(i), Outcome(Parse(t, S, i)))
  }

  /** Compiler correctness: whatever preserves the generated program computes the pattern. */
  lemma OptimizedComputes(t: Tree, C: Code)
    requires WellFormed(t) && Preserves(Program(t), C)
    ensures Computes(C, t)
  {
    forall S: Subject, i: nat | i <= |S| ensures Reach(C, S, Start(i), Outcome(Parse(t, S, i))) {
      ProgramCorrect(t, S, i);
    }
  }

  /** `match`: the interpreter loop. `n` bounds the length of the run. */
  method Match(code: array<Instruction>, S: Subject, start: nat, ghost n: nat) returns (r: Option<nat>)
    requires start <= |S| && Final(Steps(code[..], S, Start(start), n))
    ensures Outcome(r) == Steps(code[..], S, Start(start), n)
  {
    ghost var C := code[..];
    var p, s, stack := 0, start, Push(GIVEUP, start, Bottom);
    ghost var left := n;
    while true
      invariant Steps(C, S, Running(p, s, stack), left) == Steps(C, S, Start(start), n)
      decreases left
    {
      ghost var x := Running(p, s, stack);
      NotStuck(C, S, x, left);
      if p == GIVEUP {
        FinalStays(C, S, Rejected, left - 1);
        return None;
      }
      if code[p].code == IEnd {
        FinalStays(C, S, Accepted(s), left - 1);
        return Some(s);
      }
      p, s, stack := Interpret(code, S, p, s, stack);
      left := left - 1;
    }
    assert false;
  }

  lemma NotStuck(C: Code, S: Subject, x: State, n: nat)
    requires x.Running? && Final(Steps(C, S, x, n))
    ensures n > 0 && Step(C, S, x) != Stuck && Steps(C, S, Step(C, S, x), n - 1) == Steps(C, S, x, n)
  {
    if n > 0 && Step(C, S, x) == Stuck { StuckStays(C, S, n - 1); }
  }

  /** One turn of the switch, for an instruction that does not end the run. */
  method Interpret(code: array<Instruction>, S: Subject, p0: int, s0: nat, k0: Stack) returns (p: int, s: nat, stack: Stack)
    requires p0 != GIVEUP && Step(code[..], S, Running(p0, s0, k0)) != Stuck && code[p0].code != IEnd
    ensures Running(p, s, stack) == Step(code[..], S, Running(p0, s0, k0))
  {
    p, s, stack := p0, s0, k0;
    var fail := false;
    match code[p].code {
      case IAny => if s < |S| { p, s := p + 1, s + 1; } else { fail := true; }
      case IChar => if s < |S| && S[s] == code[p].aux { p, s := p + 1, s + 1; } else { fail := true; }
      case ISet =>
        if s < |S| && Has(code[p + 1].cs, S[s]) { p, s := p + CHARSETINSTSIZE, s + 1; } else { fail := true; }
      case ITestAny => if s < |S| { p := p + 2; } else { p := p + code[p + 1].offset; }
      case ITestChar => if s < |S| && S[s] == code[p].aux { p := p + 2; } else { p := p + code[p + 1].offset; }
      case ITestSet =>
        if s < |S| && Has(code[p + 2].cs, S[s]) { p := p + 1 + CHARSETINSTSIZE; } else { p := p + code[p + 1].offset; }
      case ISpan =>
        var cs := code[p + 1].cs;
        while s < |S| && Has(cs, S[s])
          invariant s0 <= s <= |S| && Span(cs, S, s) == Span(cs, S, s0)
        {
          s := s + 1;
        }
        p := p + CHARSETINSTSIZE;
      case IBehind => if code[p].aux > s { fail := true; } else { p, s := p + 1, s - code[p].aux; }
      case IJmp => p := p + code[p + 1].offset;
      case IChoice => p, stack := p + 2, Push(p + code[p + 1].offset, s, stack);
      case ICommit => p, stack := p + code[p + 1].offset, stack.rest;
      case IPartialCommit => p, stack := p + code[p + 1].offset, Push(stack.p, s, stack.rest);
      case IBackCommit => p, s, stack := p + code[p + 1].offset, stack.s, stack.rest;
      case IFailTwice => stack := stack.rest; fail := true;
      case IFail => fail := true;
      case IEnd =>
    }
    if fail {
      p, s, stack := stack.p, stack.s, stack.rest;
    }
  }

  /** Compiling a pattern and running it on a subject yields the result of the pattern. */
  method CompileAndMatch(t: Tree, S: Subject, start: nat) returns (r: Option<nat>)
    requires WellFormed(t) && start <= |S|
    ensures r == Parse(t, S, start)
  {
    var code := Compile(t);
    assert Reach(code[..], S, Start(start), Outcome(Parse(t, S, start)));
    ghost var n: nat :| Steps(code[..], S, Start(start), n) == Outcome(Parse(t, S, start));
    r := Match(code, S, start, n);
  }
}
