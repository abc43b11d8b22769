/**
 The backtracking machine of `lpvm.c`, without calls and captures.

 Code is laid out in slots as in the source: an instruction slot may be followed by a slot with a
 relative offset and by the slots that hold a character set.
 */
module LpegMachine {
  import opened LpegCharset
  import opened Basics
  import opened LpegTree

  datatype Opcode =
    | IAny | IChar | ISet | ITestAny | ITestChar | ITestSet | ISpan | IBehind
    | IEnd | IChoice | IJmp | ICommit | IPartialCommit | IBackCommit | IFailTwice | IFail

  /** One slot of the code array. A set fills `CHARSETINSTSIZE - 1` slots: the first stands for its
      bytes, the others are padding. */
  datatype Instruction =
    | Inst(code: Opcode, aux: nat)
    | Offset(offset: int)
    | Buff(cs: Charset)
    | Pad

  type Code = seq<Instruction>

  const CHARSETINSTSIZE := 9

  /** The address of the `giveup` instruction, which lies outside the code array. */
  const GIVEUP := -1

  /** The backtrack stack: where to resume and the saved position. */
  datatype Stack = Bottom | Push(p: int, s: nat, rest: Stack)

  datatype State =
    | Running(p: int, s: nat, stack: Stack)
    | Accepted(s: nat)
    | Rejected
    | Stuck

  predicate HasOffset(C: Code, p: int) { 0 <= p && p + 1 < |C| && C[p + 1].Offset? }
  predicate HasBuff(C: Code, p: int) { 0 <= p < |C| && C[p].Buff? }

  /** `target` */
  function Target(C: Code, p: int): int
    requires HasOffset(C, p)
  {
    p + C[p + 1].offset
  }

  /** The `fail` label: pop an entry and resume there. */
  function Backtrack(k: Stack): State {
    match k
    case Bottom => Stuck
    case Push(p, s, rest) => Running(p, s, rest)
  }

  /** Where the loop of `ISpan` stops. */
  function Span(cs: Charset, S: Subject, s: nat): (r: nat)
    requires s <= |S|
    ensures s <= r <= |S|
    decreases |S| - s
  {
    if CharIn(cs, S, s) then Span(cs, S, s + 1) else s
  }

  function Step(C: Code, S: Subject, st: State): State {
    match st
    case Running(p, s, k) =>
      if p == GIVEUP then Rejected
      else if !(0 <= p < |C|) || !C[p].Inst? || s > |S| then Stuck
      else Execute(C, S, p, s, k)
    case _ => st
  }

  function Execute(C: Code, S: Subject, p: int, s: nat, k: Stack): State
    requires 0 <= p < |C| && C[p].Inst? && s <= |S|
  {
    match C[p].code
    case IEnd => Accepted(s)
    case IAny => if s < |S| then Running(p + 1, s + 1, k) else Backtrack(k)
    case IChar => if s < |S| && S[s] == C[p].aux then Running(p + 1, s + 1, k) else Backtrack(k)
    case ISet =>
      if !HasBuff(C, p + 1) then Stuck
      else if CharIn(C[p + 1].cs, S, s) then Running(p + CHARSETINSTSIZE, s + 1, k) else Backtrack(k)
    case ITestAny =>
      if !HasOffset(C, p) then Stuck
      else if s < |S| then Running(p + 2, s, k) else Running(Target(C, p), s, k)
    case ITestChar =>
      if !HasOffset(C, p) then Stuck
      else if s < |S| && S[s] == C[p].aux then Running(p + 2, s, k) else Running(Target(C, p), s, k)
    case ITestSet =>
      if !HasOffset(C, p) || !HasBuff(C, p + 2) then Stuck
      else if CharIn(C[p + 2].cs, S, s) then Running(p + 1 + CHARSETINSTSIZE, s, k)
      else Running(Target(C, p), s, k)
    case ISpan =>
      if !HasBuff(C, p + 1) then Stuck
      else Running(p + CHARSETINSTSIZE, Span(C[p + 1].cs, S, s), k)
    case IBehind => if C[p].aux > s then Backtrack(k) else Running(p + 1, s - C[p].aux, k)
    case IJmp => if !HasOffset(C, p) then Stuck else Running(Target(C, p), s, k)
    case IChoice => if !HasOffset(C, p) then Stuck else Running(p + 2, s, Push(Target(C, p), s, k))
    case ICommit =>
      if !HasOffset(C, p) || k.Bottom? then Stuck else Running(Target(C, p), s, k.rest)
    case IPartialCommit =>
      if !HasOffset(C, p) || k.Bottom? then Stuck
      else Running(Target(C, p), s, Push(k.p, s, k.rest))
    case IBackCommit =>
      if !HasOffset(C, p) || k.Bottom? then Stuck else Running(Target(C, p), k.s, k.rest)
    case IFailTwice => if k.Bottom? then Stuck else Backtrack(k.rest)
    case IFail => Backtrack(k)
  }

  function Steps(C: Code, S: Subject, st: State, n: nat): State
    decreases n
  {
    if n == 0 then st else Steps(C, S, Step(C, S, st), n - 1)
  }

  ghost predicate Reach(C: Code, S: Subject, x: State, y: State) {
    exists n: nat :: Steps(C, S, x, n) == y
  }

  lemma {:induction false} StepsAdd(C: Code, S: Subject, x: State, m: nat, n: nat)
    ensures Steps(C, S, x, m + n) == Steps(C, S, Steps(C, S, x, m), n)
    decreases m
  {
    if m > 0 { StepsAdd(C, S, Step(C, S, x), m - 1, n); }
  }

  lemma ReachRefl(C: Code, S: Subject, x: State)
    ensures Reach(C, S, x, x)
  {
    assert Steps(C, S, x, 0) == x;
  }

  lemma ReachStep(C: Code, S: Subject, x: State)
    ensures Reach(C, S, x, Step(C, S, x))
  {
    assert Steps(C, S, x, 1) == Step(C, S, x) by { assert Steps(C, S, Step(C, S, x), 0) == Step(C, S, x); }
  }

  lemma ReachTrans(C: Code, S: Subject, x: State, y: State, z: State)
    requires Reach(C, S, x, y) && Reach(C, S, y, z)
    ensures Reach(C, S, x, z)
  {
    var m: nat :| Steps(C, S, x, m) == y;
    var n: nat :| Steps(C, S, y, n) == z;
    StepsAdd(C, S, x, m, n);
    assert Steps(C, S, x, m + n) == z;
  }

  /** One instruction, then the rest of a run. */
  lemma StepThen(C: Code, S: Subject, x: State, y: State)
    requires Reach(C, S, Step(C, S, x), y)
    ensures Reach(C, S, x, y)
  {
    ReachStep(C, S, x);
    ReachTrans(C, S, x, Step(C, S, x), y);
  }

  /** A run, then one instruction. */
  lemma ThenStep(C: Code, S: Subject, x: State, y: State)
    requires Reach(C, S, x, y)
    ensures Reach(C, S, x, Step(C, S, y))
  {
    ReachStep(C, S, y);
    ReachTrans(C, S, x, y, Step(C, S, y));
  }

  predicate Final(st: State) { st.Accepted? || st.Rejected? }

  lemma {:induction false} FinalStays(C: Code, S: Subject, st: State, n: nat)
    requires Final(st)
    ensures Steps(C, S, st, n) == st
    decreases n
  {
    if n > 0 { FinalStays(C, S, st, n - 1); }
  }

  /** The machine is deterministic: a run has at most one final state. */
  lemma FinalUnique(C: Code, S: Subject, x: State, y: State, z: State)
    requires Reach(C, S, x, y) && Final(y) && Reach(C, S, x, z) && Final(z)
    ensures y == z
  {
    var m: nat :| Steps(C, S, x, m) == y;
    var n: nat :| Steps(C, S, x, n) == z;
    if m <= n { StepsAdd(C, S, x, m, n - m); FinalStays(C, S, y, n - m); }
    else { StepsAdd(C, S, x, n, m - n); FinalStays(C, S, z, m - n); }
  }

  /** `match` starts at the first instruction with the giveup entry on the stack. */
  function Start(i: nat): State { Running(0, i, Push(GIVEUP, i, Bottom)) }

  /** The final state that reports a result. */
  function Outcome(r: Option<nat>): State {
    match r
    case None => Rejected
    case Some(j) => Accepted(j)
  }
}
