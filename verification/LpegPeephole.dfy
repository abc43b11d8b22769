/**
 Jump threading (`peephole`) preserves what a program does.

 One rewriting replaces the label of one instruction by the end of its chain of jumps, or a jump by
 the instruction at the end of its chain. The proof is a simulation: two addresses are
 interchangeable when their chains of jumps end at the same place.
 */
module LpegPeephole {
  import opened LpegTree
  import opened LpegMachine

  predicate IsLabelled(op: Opcode) {
    op in {ITestAny, ITestChar, ITestSet, IChoice, IJmp, ICommit, IPartialCommit, IBackCommit}
  }

  predicate IsJmp(C: Code, q: int) { 0 <= q < |C| && C[q].Inst? && C[q].code == IJmp }

  /** An address where an instruction starts. */
  predicate IsInst(C: Code, q: int) { 0 <= q < |C| && C[q].Inst? }

  /** Every label leads to an instruction, and every jump lowers the rank. */
  ghost predicate LabelsOk(C: Code, rank: seq<nat>) {
    && |rank| == |C|
    && forall q :: IsInst(C, q) && IsLabelled(C[q].code) ==>
         HasOffset(C, q) && IsInst(C, Target(C, q)) && (C[q].code == IJmp ==> rank[Target(C, q)] < rank[q])
  }

  /** `finaltarget` */
  ghost function FinalTarget(C: Code, rank: seq<nat>, i: int): (r: int)
    requires LabelsOk(C, rank) && IsInst(C, i)
    ensures IsInst(C, r) && !IsJmp(C, r) && rank[r] <= rank[i]
    ensures r == i || rank[r] < rank[i]
    decreases rank[i]
  {
    if C[i].code == IJmp then FinalTarget(C, rank, Target(C, i)) else i
  }

  /** Two addresses whose chains of jumps end at the same place. */
  ghost predicate Same(C: Code, rank: seq<nat>, p: int, p': int)
    requires LabelsOk(C, rank)
  {
    p == p' || (IsInst(C, p) && IsInst(C, p') && FinalTarget(C, rank, p) == FinalTarget(C, rank, p'))
  }

  predicate IsEnd(op: Opcode) { op in {IFail, IFailTwice, IEnd} }
  predicate IsCommit(op: Opcode) { op in {ICommit, IPartialCommit, IBackCommit} }

  /** `C'` is `C` after one rewriting of the instruction at `i`. */
  ghost predicate Rewritten(C: Code, C': Code, rank: seq<nat>, i: int)
    requires LabelsOk(C, rank)
  {
    && |C'| == |C|
    && IsInst(C, i) && IsLabelled(C[i].code) && C'[i].Inst?
    && (forall q :: 0 <= q < |C| && q != i && q != i + 1 ==> C'[q] == C[q])
    && if C[i].code == IJmp then
         var ft := FinalTarget(C, rank, i);
         || (C'[i] == C[i] && HasOffset(C', i) && Target(C', i) == ft)
         || (C'[i] == C[ft] && IsEnd(C[ft].code) && HasOffset(C, i) && C'[i + 1] == Inst(IAny, 0))
         || (C'[i] == C[ft] && IsCommit(C[ft].code) && HasOffset(C', i) && Same(C, rank, Target(C, ft), Target(C', i)))
       else
         C'[i] == C[i] && HasOffset(C', i) && Same(C, rank, Target(C, i), Target(C', i))
  }

  ghost predicate SameStack(C: Code, rank: seq<nat>, k: Stack, k': Stack)
    requires LabelsOk(C, rank)
  {
    match (k, k')
    case (Bottom, Bottom) => true
    case (Push(p, s, r), Push(p', s', r')) => Same(C, rank, p, p') && s == s' && SameStack(C, rank, r, r')
    case _ => false
  }

  ghost predicate SameState(C: Code, rank: seq<nat>, x: State, x': State)
    requires LabelsOk(C, rank)
  {
    match (x, x')
    case (Running(p, s, k), Running(p', s', k')) => Same(C, rank, p, p') && s == s' && SameStack(C, rank, k, k')
    case _ => x == x'
  }

  lemma {:induction false} StuckStays(C: Code, S: Subject, n: nat)
    ensures Steps(C, S, Stuck, n) == Stuck
    decreases n
  {
    if n > 0 { StuckStays(C, S, n - 1); }
  }

  lemma SameBacktrack(C: Code, rank: seq<nat>, k: Stack, k': Stack)
    requires LabelsOk(C, rank) && SameStack(C, rank, k, k')
    ensures SameState(C, rank, Backtrack(k), Backtrack(k'))
  {}

  /** Following jumps in the rewritten code from an address equivalent to `p` reaches `p` itself, or
      the copy at `i` of the instruction at `p`. */
  lemma {:induction false} Chase(C: Code, C': Code, rank: seq<nat>, i: int, S: Subject, p: int, p': int, s: nat, k: Stack) returns (q: int)
    requires LabelsOk(C, rank) && Rewritten(C, C', rank, i) && s <= |S|
    requires IsInst(C, p') && FinalTarget(C, rank, p') == p
    ensures Reach(C', S, Running(p', s, k), Running(q, s, k))
    ensures q == p || (q == i && IsJmp(C, i) && FinalTarget(C, rank, i) == p && C'[i] == C[p] && C'[i].code != IJmp)
    decreases rank[p']
  {
    var x := Running(p', s, k);
    if p' == p {
      ReachRefl(C', S, x);
      q := p;
    } else if p' == i {
      if C'[i] == C[i] {
        ReachStep(C', S, x);
        q := p;
      } else {
        ReachRefl(C', S, x);
        q := i;
      }
    } else {
      var t := Target(C, p');
      assert C'[p'] == C[p'] && C'[p' + 1] == C[p' + 1];
      q := Chase(C, C', rank, i, S, p, t, s, k);
      assert Step(C', S, x) == Running(t, s, k);
      StepThen(C', S, x, Running(q, s, k));
    }
  }

  /** The same instruction with the same operands has the same effect. */
  lemma SameOperands(C: Code, C': Code, S: Subject, p: int, s: nat, k: Stack)
    requires s <= |S| && |C'| == |C| && IsInst(C, p) && C'[p] == C[p]
    requires HasOffset(C, p) ==> C'[p + 1] == C[p + 1]
    requires HasBuff(C, p + 1) ==> C'[p + 1] == C[p + 1]
    requires HasBuff(C, p + 2) ==> C'[p + 2] == C[p + 2]
    requires Execute(C, S, p, s, k) != Stuck
    ensures Execute(C', S, p, s, k) == Execute(C, S, p, s, k)
  {}

  /** An instruction takes equivalent stacks to equivalent states. */
  lemma SameExecute(C: Code, rank: seq<nat>, D: Code, S: Subject, p: int, s: nat, k: Stack, k': Stack)
    requires LabelsOk(C, rank) && s <= |S| && SameStack(C, rank, k, k') && IsInst(D, p)
    ensures SameState(C, rank, Execute(D, S, p, s, k), Execute(D, S, p, s, k'))
  {
    SameBacktrack(C, rank, k, k');
    match D[p].code
    case IFailTwice => if k.Push? { SameBacktrack(C, rank, k.rest, k'.rest); }
    case IChoice => if HasOffset(D, p) { assert SameStack(C, rank, Push(Target(D, p), s, k), Push(Target(D, p), s, k')); }
    case IPartialCommit => if k.Push? { assert SameStack(C, rank, Push(k.p, s, k.rest), Push(k'.p, s, k'.rest)); }
    case _ =>
  }

  /** A labelled instruction whose label was moved along its chain, possibly copied to another place. */
  lemma SameLabelled(C: Code, C': Code, rank: seq<nat>, S: Subject, p: int, q: int, s: nat, k: Stack, k': Stack)
    requires LabelsOk(C, rank) && s <= |S| && SameStack(C, rank, k, k') && |C'| == |C|
    requires IsInst(C, p) && IsInst(C', q) && C'[q] == C[p] && C[p].code != IJmp && IsLabelled(C[p].code)
    requires HasOffset(C', q) && Same(C, rank, Target(C, p), Target(C', q))
    requires q == p || IsCommit(C[p].code)
    requires HasBuff(C, p + 2) ==> C'[p + 2] == C[p + 2]
    requires Execute(C, S, p, s, k) != Stuck
    ensures SameState(C, rank, Execute(C, S, p, s, k), Execute(C', S, q, s, k'))
  {}

  lemma SameEnd(C: Code, C': Code, rank: seq<nat>, S: Subject, p: int, q: int, s: nat, k: Stack, k': Stack)
    requires LabelsOk(C, rank) && s <= |S| && SameStack(C, rank, k, k')
    requires IsInst(C, p) && IsInst(C', q) && C'[q] == C[p] && IsEnd(C[p].code)
    requires Execute(C, S, p, s, k) != Stuck
    ensures SameState(C, rank, Execute(C, S, p, s, k), Execute(C', S, q, s, k'))
  {
    SameBacktrack(C, rank, k, k');
    if k.Push? { SameBacktrack(C, rank, k.rest, k'.rest); }
  }

  /** An instruction that is not a jump has the same effect in both programs. */
  lemma {:induction false} SameStep(C: Code, C': Code, rank: seq<nat>, i: int, S: Subject, p: int, q: int, s: nat, k: Stack, k': Stack)
    requires LabelsOk(C, rank) && Rewritten(C, C', rank, i) && s <= |S| && SameStack(C, rank, k, k')
    requires IsInst(C, p) && C[p].code != IJmp
    requires q == p || (q == i && IsJmp(C, i) && FinalTarget(C, rank, i) == p && C'[i] == C[p] && C'[i].code != IJmp)
    requires Execute(C, S, p, s, k) != Stuck
    ensures SameState(C, rank, Execute(C, S, p, s, k), Execute(C', S, q, s, k'))
  {
    if q != i {
      SameOperands(C, C', S, p, s, k);
      SameExecute(C, rank, C', S, p, s, k, k');
    } else if IsEnd(C[p].code) {
      SameEnd(C, C', rank, S, p, q, s, k, k');
    } else {
      assert HasBuff(C, p + 2) ==> C'[p + 2] == C[p + 2];
      SameLabelled(C, C', rank, S, p, q, s, k, k');
    }
  }

  /** The simulation. */
  lemma {:induction false} Simulates(C: Code, C': Code, rank: seq<nat>, i: int, S: Subject, x: State, x': State, n: nat)
    requires LabelsOk(C, rank) && Rewritten(C, C', rank, i)
    requires SameState(C, rank, x, x') && Final(Steps(C, S, x, n))
    ensures Reach(C', S, x', Steps(C, S, x, n))
    decreases n
  {
    if n == 0 || !x.Running? {
      if !x.Running? { if Final(x) { FinalStays(C, S, x, n); } else { StuckStays(C, S, n); } }
      ReachRefl(C', S, x');
    } else {
      var y, z := Step(C, S, x), Steps(C, S, x, n);
      if y == Stuck { StuckStays(C, S, n - 1); }
      if x.p == GIVEUP {
        FinalStays(C, S, y, n - 1);
        ReachStep(C', S, x');
      } else if C[x.p].code == IJmp {
        Simulates(C, C', rank, i, S, y, x', n - 1);
      } else {
        var q := Chase(C, C', rank, i, S, x.p, x'.p, x.s, x'.stack);
        var w := Running(q, x.s, x'.stack);
        SameStep(C, C', rank, i, S, x.p, q, x.s, x.stack, x'.stack);
        Simulates(C, C', rank, i, S, y, Step(C', S, w), n - 1);
        StepThen(C', S, w, z);
        ReachTrans(C', S, x', w, z);
      }
    }
  }

  /** Whatever the first program reports, the second reports. */
  ghost predicate Preserves(C: Code, C': Code) {
    forall S: Subject, i: nat, z: State :: Final(z) && Reach(C, S, Start(i), z) ==> Reach(C', S, Start(i), z)
  }

  lemma RewritingPreserves(C: Code, C': Code, rank: seq<nat>, i: int)
    requires LabelsOk(C, rank) && Rewritten(C, C', rank, i)
    ensures Preserves(C, C')
  {
    forall S: Subject, j: nat, z: State | Final(z) && Reach(C, S, Start(j), z) ensures Reach(C', S, Start(j), z) {
      var n: nat :| Steps(C, S, Start(j), n) == z;
      Simulates(C, C', rank, i, S, Start(j), Start(j), n);
    }
  }

  /** A rewriting keeps labels valid and jumps ranked. */
  lemma RewritingKeepsLabels(C: Code, C': Code, rank: seq<nat>, i: int)
    requires LabelsOk(C, rank) && Rewritten(C, C', rank, i)
    requires HasOffset(C', i) && IsLabelled(C'[i].code) ==> IsInst(C, Target(C', i))
    ensures LabelsOk(C', rank)
  {
    forall q | IsInst(C', q) && IsLabelled(C'[q].code)
      ensures HasOffset(C', q) && IsInst(C', Target(C', q)) && (C'[q].code == IJmp ==> rank[Target(C', q)] < rank[q])
    {
      if q == i {
        assert IsInst(C, Target(C', i));
      } else if q == i + 1 {
        assert false;
      } else {
        assert C'[q] == C[q] && C'[q + 1] == C[q + 1] && IsInst(C, Target(C, q));
      }
    }
  }
}
