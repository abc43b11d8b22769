/**
 Correctness of the code generator: code placed anywhere in a program does what `Parse` says.

 The statement is contextual. Generated code may fail where the pattern matches, provided that the
 character after the match is outside the follow set, because then the continuation fails anyway;
 and code generated with `opt` may leave through the choice entry that is already on the stack.
 */
module LpegCorrect {
  import opened LpegCharset
  import opened Basics
  import opened LpegTree
  import opened LpegAnalysis
  import opened LpegMachine
  import opened LpegCodeGen

  /** The code `g` sits at address `a`. */
  ghost predicate At(C: Code, a: int, g: Code) {
    0 <= a && a + |g| <= |C| && forall n :: 0 <= n < |g| ==> C[a + n] == g[n]
  }

  lemma AtSplit(C: Code, a: int, x: Code, y: Code)
    requires At(C, a, x + y)
    ensures At(C, a, x) && At(C, a + |x|, y)
  {
    forall n | 0 <= n < |x| ensures C[a + n] == x[n] { assert (x + y)[n] == x[n]; }
    forall n | 0 <= n < |y| ensures C[a + |x| + n] == y[n] { assert (x + y)[|x| + n] == y[n]; }
  }

  lemma AtSplit3(C: Code, a: int, x: Code, y: Code, z: Code)
    requires At(C, a, x + (y + z))
    ensures At(C, a, x) && At(C, a + |x|, y) && At(C, a + |x| + |y|, z)
  {
    AtSplit(C, a, x, y + z);
    AtSplit(C, a + |x|, y, z);
  }

  lemma AtSplit4(C: Code, a: int, w: Code, x: Code, y: Code, z: Code)
    requires At(C, a, w + (x + (y + z)))
    ensures At(C, a, w) && At(C, a + |w|, x) && At(C, a + |w| + |x|, y) && At(C, a + |w| + |x| + |y|, z)
  {
    AtSplit(C, a, w, x + (y + z));
    AtSplit3(C, a + |w|, x, y, z);
  }

  lemma AtSplit5(C: Code, a: int, v: Code, w: Code, x: Code, y: Code, z: Code)
    requires At(C, a, v + (w + (x + (y + z))))
    ensures At(C, a, v) && At(C, a + |v|, w) && At(C, a + |v| + |w|, x) && At(C, a + |v| + |w| + |x|, y)
            && At(C, a + |v| + |w| + |x| + |y|, z)
  {
    AtSplit(C, a, v, w + (x + (y + z)));
    AtSplit4(C, a + |v|, w, x, y, z);
  }

  lemma AtSlot(C: Code, a: int, g: Code, n: int)
    requires At(C, a, g) && 0 <= n < |g|
    ensures C[a + n] == g[n]
  {}

  /** The current character has passed the protecting test. */
  predicate TestOk(tt: Test, S: Subject, i: nat) {
    match tt
    case OnChar(c) => i < |S| && S[i] == c
    case OnSet(cs) => CharIn(cs, S, i)
    case OnAny => i < |S|
    case _ => true
  }

  /** There is a next character and it cannot start the continuation. */
  predicate Hopeless(fl: Charset, S: Subject, j: nat) { j < |S| && !Has(fl, S[j]) }

  /** The run leaves at the end of the code with the position of the top choice entry possibly moved. */
  ghost predicate Leaves(C: Code, S: Subject, x: State, b: int, j: nat, k: Stack)
    requires k.Push?
  {
    exists s: nat :: Reach(C, S, x, Running(b, j, Push(k.p, s, k.rest)))
  }

  /** From `x`, with the stack `k` in place, code that ends at `b` delivers the result `r`. */
  ghost predicate Correct(C: Code, S: Subject, x: State, b: int, r: Option<nat>, opt: bool, fl: Charset, k: Stack) {
    if opt then
      k.Push? &&
      match r
      case None => Reach(C, S, x, Backtrack(k))
      case Some(j) => Reach(C, S, x, Running(k.p, j, k.rest)) || Leaves(C, S, x, b, j, k)
    else
      match r
      case None => Reach(C, S, x, Backtrack(k))
      case Some(j) => Reach(C, S, x, Running(b, j, k)) || (Hopeless(fl, S, j) && Reach(C, S, x, Backtrack(k)))
  }

  lemma Prepend(C: Code, S: Subject, x: State, y: State, b: int, r: Option<nat>, opt: bool, fl: Charset, k: Stack)
    requires Reach(C, S, x, y) && Correct(C, S, y, b, r, opt, fl, k)
    ensures Correct(C, S, x, b, r, opt, fl, k)
  {
    match r
    case None => ReachTrans(C, S, x, y, Backtrack(k));
    case Some(j) =>
      if opt {
        if Reach(C, S, y, Running(k.p, j, k.rest)) {
          ReachTrans(C, S, x, y, Running(k.p, j, k.rest));
        } else {
          var s: nat :| Reach(C, S, y, Running(b, j, Push(k.p, s, k.rest)));
          ReachTrans(C, S, x, y, Running(b, j, Push(k.p, s, k.rest)));
        }
      } else if Reach(C, S, y, Running(b, j, k)) {
        ReachTrans(C, S, x, y, Running(b, j, k));
      } else {
        ReachTrans(C, S, x, y, Backtrack(k));
      }
  }

  /** Code generated without `opt` and with the full follow set may stand where `opt` is allowed. */
  lemma PlainToOpt(C: Code, S: Subject, x: State, b: int, r: Option<nat>, k: Stack)
    requires k.Push? && Correct(C, S, x, b, r, false, FullSet(), k)
    ensures Correct(C, S, x, b, r, true, FullSet(), k)
  {
    FullHasAll();
    if r.Some? {
      assert Reach(C, S, x, Running(b, r.value, Push(k.p, k.s, k.rest)));
    }
  }

  /** An exact result is a result for every follow set, and where `opt` is allowed. */
  lemma Lift(C: Code, S: Subject, x: State, b: int, r: Option<nat>, opt: bool, fl: Charset, k: Stack)
    requires Correct(C, S, x, b, r, false, FullSet(), k) && (opt ==> k.Push?)
    ensures Correct(C, S, x, b, r, opt, fl, k)
  {
    FullHasAll();
    if opt { PlainToOpt(C, S, x, b, r, k); }
  }

  /** A run that reaches the end of the code with the stack unchanged. */
  lemma EndsAt(C: Code, S: Subject, x: State, b: int, j: nat, opt: bool, fl: Charset, k: Stack)
    requires Reach(C, S, x, Running(b, j, k)) && (opt ==> k.Push?)
    ensures Correct(C, S, x, b, Some(j), opt, fl, k)
  {
    Lift(C, S, x, b, Some(j), opt, fl, k);
  }

  /** A jump after the code. */
  lemma ThenJump(C: Code, S: Subject, x: State, b: int, r: Option<nat>, fl: Charset, k: Stack, off: int)
    requires Correct(C, S, x, b, r, false, fl, k) && At(C, b, Labelled(IJmp, off))
    requires r.Some? ==> r.value <= |S|
    ensures Correct(C, S, x, b + off, r, false, fl, k)
  {
    AtSlot(C, b, Labelled(IJmp, off), 0);
    AtSlot(C, b, Labelled(IJmp, off), 1);
    if r.Some? && Reach(C, S, x, Running(b, r.value, k)) {
      ThenStep(C, S, x, Running(b, r.value, k));
    }
  }

  // ----- tests -----

  lemma RunTest(C: Code, S: Subject, a: int, i: nat, k: Stack, cs: Charset, off: int)
    requires At(C, a, CodeTest(cs, off)) && i <= |S|
    ensures CharIn(cs, S, i) ==> Reach(C, S, Running(a, i, k), Running(a + TestSize(cs, false), i, k))
                                 && TestOk(TestOf(cs, false), S, i)
    ensures !CharIn(cs, S, i) ==> Reach(C, S, Running(a, i, k), Running(a + off, i, k))
  {
    var g := CodeTest(cs, off);
    AtSlot(C, a, g, 0);
    AtSlot(C, a, g, 1);
    if KindOf(cs).KSet? { AtSlot(C, a, g, 2); }
    if i < |S| { KindMeaning(cs, S[i]); }
    ReachStep(C, S, Running(a, i, k));
  }

  lemma RunTestSet(C: Code, S: Subject, a: int, i: nat, k: Stack, f: FirstSet, off: int)
    requires At(C, a, CodeTestSet(f.cs, f.e, off)) && i <= |S|
    ensures f.e || CharIn(f.cs, S, i) ==>
              Reach(C, S, Running(a, i, k), Running(a + TestSize(f.cs, f.e), i, k)) && TestOk(TestOf(f.cs, f.e), S, i)
    ensures !f.e && !CharIn(f.cs, S, i) ==> Reach(C, S, Running(a, i, k), Running(a + off, i, k))
  {
    if f.e { ReachRefl(C, S, Running(a, i, k)); } else { RunTest(C, S, a, i, k, f.cs, off); }
  }

  lemma RunLabelled(C: Code, S: Subject, a: int, i: nat, k: Stack, op: Opcode, off: int)
    requires At(C, a, Labelled(op, off)) && i <= |S|
    requires op.IChoice? || op.IJmp? || (k.Push? && (op.ICommit? || op.IPartialCommit? || op.IBackCommit?))
    ensures var y := match op
              case IChoice => Running(a + 2, i, Push(a + off, i, k))
              case ICommit => Running(a + off, i, k.rest)
              case IPartialCommit => Running(a + off, i, Push(k.p, i, k.rest))
              case IBackCommit => Running(a + off, k.s, k.rest)
              case _ => Running(a + off, i, k);
            Step(C, S, Running(a, i, k)) == y && Reach(C, S, Running(a, i, k), y)
  {
    AtSlot(C, a, Labelled(op, off), 0);
    AtSlot(C, a, Labelled(op, off), 1);
    ReachStep(C, S, Running(a, i, k));
  }

  // ----- leaves -----

  lemma CharCorrect(C: Code, S: Subject, a: int, i: nat, k: Stack, c: Char, tt: Test, opt: bool, fl: Charset)
    requires i <= |S| && At(C, a, CodeChar(c, tt)) && TestOk(tt, S, i) && (opt ==> k.Push?)
    ensures Correct(C, S, Running(a, i, k), a + |CodeChar(c, tt)|, Parse(TChar(c), S, i), opt, fl, k)
  {
    AtSlot(C, a, CodeChar(c, tt), 0);
    ReachStep(C, S, Running(a, i, k));
    Lift(C, S, Running(a, i, k), a + 1, Parse(TChar(c), S, i), opt, fl, k);
  }

  lemma SetCorrect(C: Code, S: Subject, a: int, i: nat, k: Stack, cs: Charset, tt: Test, opt: bool, fl: Charset)
    requires i <= |S| && At(C, a, CodeCharset(cs, tt)) && TestOk(tt, S, i) && (opt ==> k.Push?)
    ensures Correct(C, S, Running(a, i, k), a + |CodeCharset(cs, tt)|, Parse(TSet(cs), S, i), opt, fl, k)
  {
    var g := CodeCharset(cs, tt);
    if i < |S| { KindMeaning(cs, S[i]); }
    if KindOf(cs).KChar? {
      CharCorrect(C, S, a, i, k, KindOf(cs).c, tt, opt, fl);
    } else {
      AtSlot(C, a, g, 0);
      if |g| > 1 { AtSlot(C, a, g, 1); }
      ReachStep(C, S, Running(a, i, k));
      Lift(C, S, Running(a, i, k), a + |g|, Parse(TSet(cs), S, i), opt, fl, k);
    }
  }

  lemma LeafCorrect(C: Code, S: Subject, a: int, i: nat, k: Stack, t: Tree, opt: bool, fl: Charset)
    requires i <= |S| && (t.TAny? || t.TTrue? || t.TFalse?)
    requires At(C, a, Gen(t, opt, NoTest, fl)) && (opt ==> k.Push?)
    ensures Correct(C, S, Running(a, i, k), a + |Gen(t, opt, NoTest, fl)|, Parse(t, S, i), opt, fl, k)
  {
    var x := Running(a, i, k);
    ReachRefl(C, S, x);
    if !t.TTrue? { AtSlot(C, a, Gen(t, opt, NoTest, fl), 0); ReachStep(C, S, x); }
    Lift(C, S, x, a + |Gen(t, opt, NoTest, fl)|, Parse(t, S, i), opt, fl, k);
  }

  lemma {:induction false} SpanParses(p: Tree, cs: Charset, S: Subject, i: nat)
    requires i <= |S| && ToCharset(p) == Some(cs)
    ensures Parse(TRep(p), S, i) == Some(Span(cs, S, i))
    decreases |S| - i
  {
    ToCharsetSound(p, S, i);
    if CharIn(cs, S, i) { SpanParses(p, cs, S, i + 1); }
  }

  // ----- fragments of code that implement a tree -----

  /** In this place and this situation, the fragment `g` delivers the result of `t`. */
  ghost predicate Delivers(g: Code, t: Tree, opt: bool, tt: Test, fl: Charset, C: Code, S: Subject, a: int, i: nat, k: Stack) {
    Situation(g, opt, tt, fl, C, S, a, i, k) ==> Correct(C, S, Running(a, i, k), a + |g|, Parse(t, S, i), opt, fl, k)
  }

  ghost predicate Situation(g: Code, opt: bool, tt: Test, fl: Charset, C: Code, S: Subject, a: int, i: nat, k: Stack) {
    i <= |S| && At(C, a, g) && TestOk(tt, S, i) && (opt ==> k.Push? && fl == FullSet())
  }

  /** The fragment works in every program, on every subject, at every position and on every stack. */
  ghost predicate Implements(g: Code, t: Tree, opt: bool, tt: Test, fl: Charset) {
    forall C: Code, S: Subject, a: int, i: nat, k: Stack :: Delivers(g, t, opt, tt, fl, C, S, a, i, k)
  }

  lemma {:induction false} SeqImplements(p1: Tree, p2: Tree, opt: bool, tt: Test, fl: Charset, c1: Code, c2: Code)
    requires WellFormed(p1) && WellFormed(p2)
    requires Implements(c1, p1, false, tt, FollowOf(p1, p2, fl)) && Implements(c2, p2, opt, TestAfter(p1, tt), fl)
    ensures Implements(c1 + c2, TSeq(p1, p2), opt, tt, fl)
  {
    forall C: Code, S: Subject, a: int, i: nat, k: Stack ensures Delivers(c1 + c2, TSeq(p1, p2), opt, tt, fl, C, S, a, i, k) {
      if Situation(c1 + c2, opt, tt, fl, C, S, a, i, k) { SeqCorrect(C, S, a, i, k, p1, p2, opt, tt, fl, c1, c2); }
    }
  }

  lemma {:induction false} SeqCorrect(C: Code, S: Subject, a: int, i: nat, k: Stack, p1: Tree, p2: Tree, opt: bool, tt: Test,
                                      fl: Charset, c1: Code, c2: Code)
    requires WellFormed(p1) && WellFormed(p2) && Situation(c1 + c2, opt, tt, fl, C, S, a, i, k)
    requires Implements(c1, p1, false, tt, FollowOf(p1, p2, fl)) && Implements(c2, p2, opt, TestAfter(p1, tt), fl)
    ensures Correct(C, S, Running(a, i, k), a + |c1 + c2|, Parse(TSeq(p1, p2), S, i), opt, fl, k)
  {
    AtSplit(C, a, c1, c2);
    var x, m, b := Running(a, i, k), a + |c1|, a + |c1| + |c2|;
    assert Delivers(c1, p1, false, tt, FollowOf(p1, p2, fl), C, S, a, i, k);
    var r1 := Parse(p1, S, i);
    if r1.Some? {
      var j := r1.value;
      if Reach(C, S, x, Running(m, j, k)) {
        if FixedLen(p1) == 0 { FixedLenSound(p1, S, i); }
        assert Delivers(c2, p2, opt, TestAfter(p1, tt), fl, C, S, m, j, k);
        Prepend(C, S, x, Running(m, j, k), b, Parse(p2, S, j), opt, fl, k);
      } else {
        // the code of p1 gave up because p2 cannot start here
        FullHasAll();
        if Parse(p2, S, j).Some? { FirstSound(p2, fl, S, j); }
      }
    }
  }

  // ----- choice -----

  /** The parts of `test -> l; p1; jmp b; l: p2; b:`. */
  lemma ChoiceTestLayoutParts(C: Code, a: int, cs: Charset, empty2: bool, c1: Code, c2: Code) returns (m: int, q: int, l: int, b: int)
    requires At(C, a, ChoiceTestLayout(cs, empty2, c1, c2)) && (empty2 ==> c2 == [])
    ensures At(C, a, CodeTest(cs, l - a)) && m == a + TestSize(cs, false)
    ensures At(C, m, c1) && q == m + |c1| && At(C, l, c2) && b == l + |c2|
    ensures b == a + |ChoiceTestLayout(cs, empty2, c1, c2)|
    ensures if empty2 then q == l == b else l == q + 2 && At(C, q, Labelled(IJmp, b - q))
  {
    var jmp := if empty2 then [] else Labelled(IJmp, 2 + |c2|);
    m := a + TestSize(cs, false);
    q := m + |c1|;
    l := q + |jmp|;
    b := l + |c2|;
    assert ChoiceTestLayout(cs, empty2, c1, c2) == CodeTest(cs, l - a) + (c1 + (jmp + c2));
    AtSplit4(C, a, CodeTest(cs, l - a), c1, jmp, c2);
  }

  /** What the two ways through `test -> l; p1; jmp b; l: p2; b:` deliver. */
  lemma ChoiceTestRuns(C: Code, S: Subject, x: State, y: State, z: State, q: int, b: int, i: nat, k: Stack,
                       passes: bool, empty2: bool, opt: bool, fl: Charset, r1: Option<nat>, r2: Option<nat>)
    requires opt ==> k.Push? && fl == FullSet()
    requires r1.Some? ==> r1.value <= |S|
    requires passes ==> Reach(C, S, x, y) && Correct(C, S, y, q, r1, false, fl, k)
    requires !passes ==> r1.None? && Reach(C, S, x, z) && Correct(C, S, z, b, r2, opt, fl, k)
    requires if empty2 then q == b else At(C, q, Labelled(IJmp, b - q))
    requires passes && r1.None? && r2.Some? ==> r2.value == i && Hopeless(fl, S, i)
    ensures Correct(C, S, x, b, if r1.Some? then r1 else r2, opt, fl, k)
  {
    var r := if r1.Some? then r1 else r2;
    if passes {
      if r1.Some? && !empty2 { ThenJump(C, S, y, q, r1, fl, k, b - q); }
      Prepend(C, S, x, y, b, r, false, fl, k);
      if opt { PlainToOpt(C, S, x, b, r, k); }
    } else {
      Prepend(C, S, x, z, b, r2, opt, fl, k);
    }
  }

  /** Why the test is enough. */
  lemma {:induction false} ChoiceTestFacts(t: Tree, fl: Charset, S: Subject, i: nat)
    requires t.TChoice? && WellFormed(t) && i <= |S| && ChoiceByTest(t.p1, t.p2, fl)
    ensures !CharIn(GetFirst(t.p1, FullSet()).cs, S, i) ==> Parse(t.p1, S, i).None?
    ensures CharIn(GetFirst(t.p1, FullSet()).cs, S, i) && Parse(t.p1, S, i).None? && Parse(t.p2, S, i).Some? ==>
              Parse(t.p2, S, i).value == i && Hopeless(fl, S, i)
  {
    var p1, p2, cs := t.p1, t.p2, GetFirst(t.p1, FullSet()).cs;
    if HeadFail(p1) { HeadFailEmpty(p1, FullSet()); HeadFailExact(p1, S, i); }
    if !CharIn(cs, S, i) {
      TestFails(p1, S, i);
    } else if Parse(p1, S, i).None? && Parse(p2, S, i).Some? {
      FirstSound(p2, fl, S, i);
    }
  }

  lemma {:induction false} ChoiceTestImplements(t: Tree, opt: bool, tt: Test, fl: Charset, c1: Code, c2: Code)
    requires t.TChoice? && WellFormed(t) && ChoiceByTest(t.p1, t.p2, fl) && (t.p2.TTrue? ==> c2 == [])
    requires var cs := GetFirst(t.p1, FullSet()).cs;
             Implements(c1, t.p1, false, TestOf(cs, false), fl) && Implements(c2, t.p2, opt, NoTest, fl)
    ensures Implements(ChoiceTestLayout(GetFirst(t.p1, FullSet()).cs, t.p2.TTrue?, c1, c2), t, opt, tt, fl)
  {
    var g := ChoiceTestLayout(GetFirst(t.p1, FullSet()).cs, t.p2.TTrue?, c1, c2);
    forall C: Code, S: Subject, a: int, i: nat, k: Stack ensures Delivers(g, t, opt, tt, fl, C, S, a, i, k) {
      if Situation(g, opt, tt, fl, C, S, a, i, k) { ChoiceTestCorrect(C, S, a, i, k, t, opt, fl, GetFirst(t.p1, FullSet()).cs, c1, c2); }
    }
  }

  lemma {:induction false} ChoiceTestCorrect(C: Code, S: Subject, a: int, i: nat, k: Stack, t: Tree, opt: bool, fl: Charset,
                                             cs: Charset, c1: Code, c2: Code)
    requires t.TChoice? && WellFormed(t) && ChoiceByTest(t.p1, t.p2, fl) && (t.p2.TTrue? ==> c2 == [])
    requires cs == GetFirst(t.p1, FullSet()).cs
    requires Situation(ChoiceTestLayout(cs, t.p2.TTrue?, c1, c2), opt, NoTest, fl, C, S, a, i, k)
    requires Implements(c1, t.p1, false, TestOf(cs, false), fl) && Implements(c2, t.p2, opt, NoTest, fl)
    ensures Correct(C, S, Running(a, i, k), a + |ChoiceTestLayout(cs, t.p2.TTrue?, c1, c2)|, Parse(t, S, i), opt, fl, k)
  {
    var m, q, l, b := ChoiceTestLayoutParts(C, a, cs, t.p2.TTrue?, c1, c2);
    ChoiceTestFacts(t, fl, S, i);
    RunTest(C, S, a, i, k, cs, l - a);
    ChoiceTestDelivers(C, S, m, l, i, k, t.p1, t.p2, opt, fl, cs, c1, c2);
    ChoiceTestRuns(C, S, Running(a, i, k), Running(m, i, k), Running(l, i, k), q, b, i, k,
                   CharIn(cs, S, i), t.p2.TTrue?, opt, fl, Parse(t.p1, S, i), Parse(t.p2, S, i));
  }

  lemma {:induction false} ChoiceTestDelivers(C: Code, S: Subject, m: int, l: int, i: nat, k: Stack, p1: Tree, p2: Tree,
                                              opt: bool, fl: Charset, cs: Charset, c1: Code, c2: Code)
    requires i <= |S| && At(C, m, c1) && At(C, l, c2) && (opt ==> k.Push? && fl == FullSet())
    requires CharIn(cs, S, i) ==> TestOk(TestOf(cs, false), S, i)
    requires Implements(c1, p1, false, TestOf(cs, false), fl) && Implements(c2, p2, opt, NoTest, fl)
    ensures CharIn(cs, S, i) ==> Correct(C, S, Running(m, i, k), m + |c1|, Parse(p1, S, i), false, fl, k)
    ensures Correct(C, S, Running(l, i, k), l + |c2|, Parse(p2, S, i), opt, fl, k)
  {
    assert Delivers(c1, p1, false, TestOf(cs, false), fl, C, S, m, i, k);
    assert Delivers(c2, p2, opt, NoTest, fl, C, S, l, i, k);
  }

  /** `p1 / true` inside an optional pattern: the choice already on the stack is moved forward. */
  lemma {:induction false} OptionImplements(t: Tree, tt: Test, fl: Charset, c1: Code)
    requires t.TChoice? && t.p2.TTrue? && Implements(c1, t.p1, true, NoTest, FullSet())
    ensures Implements(Labelled(IPartialCommit, 2) + c1, t, true, tt, fl)
  {
    var g := Labelled(IPartialCommit, 2) + c1;
    forall C: Code, S: Subject, a: int, i: nat, k: Stack ensures Delivers(g, t, true, tt, fl, C, S, a, i, k) {
      if Situation(g, true, tt, fl, C, S, a, i, k) {
        AtSplit(C, a, Labelled(IPartialCommit, 2), c1);
        assert Delivers(c1, t.p1, true, NoTest, FullSet(), C, S, a + 2, i, Push(k.p, i, k.rest));
        OptionRuns(C, S, a, i, k, c1, Parse(t.p1, S, i));
        OptionParses(t, S, i);
      }
    }
  }

  lemma {:induction false} OptionParses(t: Tree, S: Subject, i: nat)
    requires t.TChoice? && t.p2.TTrue? && i <= |S|
    ensures Parse(t, S, i) == if Parse(t.p1, S, i).Some? then Parse(t.p1, S, i) else Some(i)
  {}

  lemma OptionRuns(C: Code, S: Subject, a: int, i: nat, k: Stack, c1: Code, r1: Option<nat>)
    requires i <= |S| && k.Push? && At(C, a, Labelled(IPartialCommit, 2))
    requires Correct(C, S, Running(a + 2, i, Push(k.p, i, k.rest)), a + 2 + |c1|, r1, true, FullSet(), Push(k.p, i, k.rest))
    ensures Correct(C, S, Running(a, i, k), a + 2 + |c1|, if r1.Some? then r1 else Some(i), true, FullSet(), k)
  {
    var k1 := Push(k.p, i, k.rest);
    var x, y, b := Running(a, i, k), Running(a + 2, i, k1), a + 2 + |c1|;
    RunLabelled(C, S, a, i, k, IPartialCommit, 2);
    var r := if r1.Some? then r1 else Some(i);
    if r1.Some? && !Reach(C, S, y, Running(k.p, r.value, k.rest)) {
      var s: nat :| Reach(C, S, y, Running(b, r.value, Push(k1.p, s, k1.rest)));
      assert Leaves(C, S, y, b, r.value, k);
    }
    Prepend(C, S, x, y, b, r, true, FullSet(), k);
  }

  /** The parts of `test -> l; choice l; p1; commit b; l: p2; b:`. */
  lemma ChoiceLayoutParts(C: Code, a: int, f1: FirstSet, c1: Code, c2: Code) returns (o: int, m: int, q: int, l: int, b: int)
    requires At(C, a, ChoiceLayout(f1, c1, c2))
    ensures At(C, a, CodeTestSet(f1.cs, f1.e, l - a)) && o == a + TestSize(f1.cs, f1.e)
    ensures At(C, o, Labelled(IChoice, l - o)) && m == o + 2 && At(C, m, c1) && q == m + |c1|
    ensures At(C, q, Labelled(ICommit, b - q)) && l == q + 2 && At(C, l, c2) && b == l + |c2|
    ensures b == a + |ChoiceLayout(f1, c1, c2)|
  {
    o := a + TestSize(f1.cs, f1.e);
    m := o + 2;
    q := m + |c1|;
    l := q + 2;
    b := l + |c2|;
    AtSplit5(C, a, CodeTestSet(f1.cs, f1.e, l - a), Labelled(IChoice, l - o), c1, Labelled(ICommit, b - q), c2);
  }

  /** After `choice l; p1; commit b` a success is committed and a failure resumes at `l`. */
  lemma CommitOrRetry(C: Code, S: Subject, x: State, y: State, q: int, l: int, b: int, i: nat, k: Stack,
                      empty2: bool, r1: Option<nat>)
    requires Reach(C, S, x, y) && Correct(C, S, y, q, r1, empty2, FullSet(), Push(l, i, k))
    requires At(C, q, Labelled(ICommit, b - q)) && (empty2 ==> l == b)
    requires r1.Some? ==> r1.value <= |S|
    ensures r1.None? ==> Reach(C, S, x, Running(l, i, k))
    ensures r1.Some? ==> Reach(C, S, x, Running(b, r1.value, k))
  {
    FullHasAll();
    match r1
    case None => ReachTrans(C, S, x, y, Running(l, i, k));
    case Some(j) =>
      if empty2 && Reach(C, S, y, Running(l, j, k)) {
        ReachTrans(C, S, x, y, Running(l, j, k));
      } else {
        var s: nat :| Reach(C, S, y, Running(q, j, Push(l, s, k)));
        RunLabelled(C, S, q, j, Push(l, s, k), ICommit, b - q);
        ReachTrans(C, S, y, Running(q, j, Push(l, s, k)), Running(b, j, k));
        ReachTrans(C, S, x, y, Running(b, j, k));
      }
  }

  /** What the ways through `test -> l; choice l; p1; commit b; l: p2; b:` deliver. */
  lemma ChoiceRuns(C: Code, S: Subject, x: State, o: int, m: int, q: int, l: int, b: int, i: nat, k: Stack,
                   passes: bool, empty2: bool, opt: bool, fl: Charset, r1: Option<nat>, r2: Option<nat>)
    requires i <= |S| && (opt ==> k.Push? && fl == FullSet())
    requires r1.Some? ==> r1.value <= |S|
    requires At(C, o, Labelled(IChoice, l - o)) && m == o + 2 && At(C, q, Labelled(ICommit, b - q)) && l == q + 2
    requires passes ==> Reach(C, S, x, Running(o, i, k)) &&
                        Correct(C, S, Running(m, i, Push(l, i, k)), q, r1, empty2, FullSet(), Push(l, i, k))
    requires !passes ==> r1.None? && Reach(C, S, x, Running(l, i, k))
    requires r1.None? ==> Correct(C, S, Running(l, i, k), b, r2, opt, fl, k)
    requires empty2 ==> l == b
    ensures Correct(C, S, x, b, if r1.Some? then r1 else r2, opt, fl, k)
  {
    if passes {
      var y := Running(m, i, Push(l, i, k));
      RunLabelled(C, S, o, i, k, IChoice, l - o);
      ReachTrans(C, S, x, Running(o, i, k), y);
      CommitOrRetry(C, S, x, y, q, l, b, i, k, empty2, r1);
    }
    if r1.Some? {
      assert Correct(C, S, x, b, r1, false, FullSet(), k);
      if opt { PlainToOpt(C, S, x, b, r1, k); }
    } else {
      Prepend(C, S, x, Running(l, i, k), b, r2, opt, fl, k);
    }
  }

  lemma {:induction false} ChoiceImplements(t: Tree, opt: bool, tt: Test, fl: Charset, c1: Code, c2: Code)
    requires t.TChoice? && WellFormed(t) && !(opt && t.p2.TTrue?) && (t.p2.TTrue? ==> c2 == [])
    requires var f1 := GetFirst(t.p1, FullSet());
             Implements(c1, t.p1, t.p2.TTrue?, TestOf(f1.cs, f1.e), FullSet()) && Implements(c2, t.p2, opt, NoTest, fl)
    ensures Implements(ChoiceLayout(GetFirst(t.p1, FullSet()), c1, c2), t, opt, tt, fl)
  {
    var g := ChoiceLayout(GetFirst(t.p1, FullSet()), c1, c2);
    forall C: Code, S: Subject, a: int, i: nat, k: Stack ensures Delivers(g, t, opt, tt, fl, C, S, a, i, k) {
      if Situation(g, opt, tt, fl, C, S, a, i, k) { ChoiceCorrect(C, S, a, i, k, t, opt, fl, c1, c2); }
    }
  }

  lemma {:induction false} ChoiceCorrect(C: Code, S: Subject, a: int, i: nat, k: Stack, t: Tree, opt: bool, fl: Charset,
                                         c1: Code, c2: Code)
    requires t.TChoice? && WellFormed(t) && !(opt && t.p2.TTrue?) && (t.p2.TTrue? ==> c2 == [])
    requires Situation(ChoiceLayout(GetFirst(t.p1, FullSet()), c1, c2), opt, NoTest, fl, C, S, a, i, k)
    requires var f1 := GetFirst(t.p1, FullSet());
             Implements(c1, t.p1, t.p2.TTrue?, TestOf(f1.cs, f1.e), FullSet()) && Implements(c2, t.p2, opt, NoTest, fl)
    ensures Correct(C, S, Running(a, i, k), a + |ChoiceLayout(GetFirst(t.p1, FullSet()), c1, c2)|, Parse(t, S, i), opt, fl, k)
  {
    var f1 := GetFirst(t.p1, FullSet());
    var o, m, q, l, b := ChoiceLayoutParts(C, a, f1, c1, c2);
    RunTestSet(C, S, a, i, k, f1, l - a);
    var passes := f1.e || CharIn(f1.cs, S, i);
    if !passes { TestFails(t.p1, S, i); }
    assert Delivers(c1, t.p1, t.p2.TTrue?, TestOf(f1.cs, f1.e), FullSet(), C, S, m, i, Push(l, i, k));
    assert Delivers(c2, t.p2, opt, NoTest, fl, C, S, l, i, k);
    ChoiceRuns(C, S, Running(a, i, k), o, m, q, l, b, i, k, passes, t.p2.TTrue?, opt, fl,
               Parse(t.p1, S, i), Parse(t.p2, S, i));
  }

  // ----- repetition -----

  lemma {:induction false} SpanCorrect(C: Code, S: Subject, a: int, i: nat, k: Stack, p: Tree, opt: bool, fl: Charset)
    requires i <= |S| && ToCharset(p).Some?
    requires At(C, a, [Inst(ISpan, 0)] + CharsetSlots(ToCharset(p).value)) && (opt ==> k.Push?)
    ensures Correct(C, S, Running(a, i, k), a + 9, Parse(TRep(p), S, i), opt, fl, k)
  {
    var cs := ToCharset(p).value;
    AtSlot(C, a, [Inst(ISpan, 0)] + CharsetSlots(cs), 0);
    AtSlot(C, a, [Inst(ISpan, 0)] + CharsetSlots(cs), 1);
    SpanParses(p, cs, S, i);
    ReachStep(C, S, Running(a, i, k));
    EndsAt(C, S, Running(a, i, k), a + 9, Span(cs, S, i), opt, fl, k);
  }

  lemma {:induction false} SpanImplements(p: Tree, opt: bool, tt: Test, fl: Charset)
    requires ToCharset(p).Some?
    ensures Implements([Inst(ISpan, 0)] + CharsetSlots(ToCharset(p).value), TRep(p), opt, tt, fl)
  {
    var g := [Inst(ISpan, 0)] + CharsetSlots(ToCharset(p).value);
    forall C: Code, S: Subject, a: int, i: nat, k: Stack ensures Delivers(g, TRep(p), opt, tt, fl, C, S, a, i, k) {
      if Situation(g, opt, tt, fl, C, S, a, i, k) { SpanCorrect(C, S, a, i, k, p, opt, fl); }
    }
  }

  /** The parts of `a: test -> b; p; q: jmp a; b:`. */
  lemma RepTestSizes(cs: Charset, c: Code)
    ensures forall off :: |CodeTest(cs, off)| == TestSize(cs, false)
  {
  }

  lemma RepTestLayoutParts(C: Code, a: int, cs: Charset, c: Code) returns (m: int, q: int, b: int)
    requires At(C, a, RepTestLayout(cs, c))
    ensures At(C, a, CodeTest(cs, b - a)) && m == a + TestSize(cs, false) && At(C, m, c) && q == m + |c|
    ensures At(C, q, Labelled(IJmp, a - q)) && b == q + 2 == a + |RepTestLayout(cs, c)|
  {
    hide CodeTest, At;
    RepTestSizes(cs, c);
    m := a + TestSize(cs, false);
    q := m + |c|;
    b := q + 2;
    assert a - q == -(TestSize(cs, false) + |c|);
    AtSplit3(C, a, CodeTest(cs, b - a), c, Labelled(IJmp, a - q));
  }

  /** Why the test is enough for a repetition. */
  lemma {:induction false} RepTestFacts(t: Tree, fl: Charset, S: Subject, i: nat)
    requires t.TRep? && WellFormed(t) && i <= |S| && RepByTest(t.p, fl)
    ensures !CharIn(GetFirst(t.p, FullSet()).cs, S, i) ==> Parse(t.p, S, i).None?
    ensures CharIn(GetFirst(t.p, FullSet()).cs, S, i) && Parse(t.p, S, i).None? ==> Hopeless(fl, S, i)
    ensures Parse(t.p, S, i).Some? ==> Parse(t.p, S, i).value > i
    ensures Parse(t, S, i) == if Parse(t.p, S, i).Some? then Parse(t, S, Parse(t.p, S, i).value) else Some(i)
  {
    if HeadFail(t.p) { HeadFailEmpty(t.p, FullSet()); HeadFailExact(t.p, S, i); }
    if !CharIn(GetFirst(t.p, FullSet()).cs, S, i) { TestFails(t.p, S, i); }
    RepUnfolds(t, S, i);
  }

  /** An iteration of a well-formed repetition consumes something. */
  lemma {:induction false} RepUnfolds(t: Tree, S: Subject, i: nat)
    requires t.TRep? && WellFormed(t) && i <= |S|
    ensures Parse(t.p, S, i).Some? ==> Parse(t.p, S, i).value > i
    ensures Parse(t, S, i) == if Parse(t.p, S, i).Some? then Parse(t, S, Parse(t.p, S, i).value) else Some(i)
  {
    if Parse(t.p, S, i) == Some(i) { NullableSound(t.p, S, i); }
  }

  lemma RepTestRuns(C: Code, S: Subject, a: int, m: int, q: int, b: int, i: nat, k: Stack, passes: bool, fl: Charset,
                    r1: Option<nat>, r: Option<nat>)
    requires i <= |S| && At(C, q, Labelled(IJmp, a - q)) && (r1.Some? ==> r1.value <= |S|)
    requires passes ==> Reach(C, S, Running(a, i, k), Running(m, i, k)) &&
                        Correct(C, S, Running(m, i, k), q, r1, false, FullSet(), k)
    requires !passes ==> r1.None? && Reach(C, S, Running(a, i, k), Running(b, i, k))
    requires r1.None? ==> r == Some(i) && (passes ==> Hopeless(fl, S, i))
    requires r1.Some? ==> Correct(C, S, Running(a, r1.value, k), b, r, false, fl, k)
    ensures Correct(C, S, Running(a, i, k), b, r, false, fl, k)
  {
    FullHasAll();
    var x := Running(a, i, k);
    if passes {
      match r1
      case None => ReachTrans(C, S, x, Running(m, i, k), Backtrack(k));
      case Some(j) =>
        ReachTrans(C, S, x, Running(m, i, k), Running(q, j, k));
        RunLabelled(C, S, q, j, k, IJmp, a - q);
        ReachTrans(C, S, x, Running(q, j, k), Running(a, j, k));
        Prepend(C, S, x, Running(a, j, k), b, r, false, fl, k);
    }
  }

  /** The iterations of `a: test -> b; m: p; q: jmp a; b:`. */
  lemma {:induction false} RepTestLoop(C: Code, S: Subject, a: int, m: int, q: int, b: int, i: nat, k: Stack, t: Tree, fl: Charset, c: Code)
    requires t.TRep? && WellFormed(t) && i <= |S| && RepByTest(t.p, fl)
    requires var cs := GetFirst(t.p, FullSet()).cs;
             && At(C, a, CodeTest(cs, b - a)) && m == a + TestSize(cs, false) && At(C, m, c) && q == m + |c|
             && Implements(c, t.p, false, TestOf(cs, false), FullSet())
    requires At(C, q, Labelled(IJmp, a - q))
    ensures Correct(C, S, Running(a, i, k), b, Parse(t, S, i), false, fl, k)
    decreases |S| - i
  {
    var cs := GetFirst(t.p, FullSet()).cs;
    RepTestFacts(t, fl, S, i);
    RunTest(C, S, a, i, k, cs, b - a);
    assert Delivers(c, t.p, false, TestOf(cs, false), FullSet(), C, S, m, i, k);
    if Parse(t.p, S, i).Some? { RepTestLoop(C, S, a, m, q, b, Parse(t.p, S, i).value, k, t, fl, c); }
    RepTestRuns(C, S, a, m, q, b, i, k, CharIn(cs, S, i), fl, Parse(t.p, S, i), Parse(t, S, i));
  }

  lemma {:induction false} RepTestImplements(t: Tree, opt: bool, tt: Test, fl: Charset, c: Code)
    requires t.TRep? && WellFormed(t) && RepByTest(t.p, fl)
    requires Implements(c, t.p, false, TestOf(GetFirst(t.p, FullSet()).cs, false), FullSet())
    ensures Implements(RepTestLayout(GetFirst(t.p, FullSet()).cs, c), t, opt, tt, fl)
  {
    var cs := GetFirst(t.p, FullSet()).cs;
    var g := RepTestLayout(cs, c);
    forall C: Code, S: Subject, a: int, i: nat, k: Stack ensures Delivers(g, t, opt, tt, fl, C, S, a, i, k) {
      if Situation(g, opt, tt, fl, C, S, a, i, k) {
        var m, q, b := RepTestLayoutParts(C, a, cs, c);
        RepTestLoop(C, S, a, m, q, b, i, k, t, fl, c);
        if opt { PlainToOpt(C, S, Running(a, i, k), b, Parse(t, S, i), k); }
      }
    }
  }

  /** The iterations of `m: p; q: partialcommit m` with a choice on top of the stack: they end by
      resuming that choice at the position where the repetition ends. */
  lemma {:induction false} LoopCorrect(C: Code, S: Subject, m: int, q: int, i: nat, l: int, k: Stack, t: Tree, c: Code)
    requires t.TRep? && WellFormed(t) && i <= |S|
    requires At(C, m, c) && q == m + |c| && Implements(c, t.p, false, NoTest, FullSet())
    requires At(C, q, Labelled(IPartialCommit, m - q))
    ensures Parse(t, S, i).Some?
    ensures Reach(C, S, Running(m, i, Push(l, i, k)), Running(l, Parse(t, S, i).value, k))
    decreases |S| - i
  {
    var k1 := Push(l, i, k);
    var x := Running(m, i, k1);
    assert Delivers(c, t.p, false, NoTest, FullSet(), C, S, m, i, k1);
    FullHasAll();
    RepUnfolds(t, S, i);
    match Parse(t.p, S, i)
    case None =>
    case Some(j) =>
      RunLabelled(C, S, q, j, k1, IPartialCommit, m - q);
      ReachTrans(C, S, x, Running(q, j, k1), Running(m, j, Push(l, j, k)));
      LoopCorrect(C, S, m, q, j, l, k, t, c);
      ReachTrans(C, S, x, Running(m, j, Push(l, j, k)), Running(l, Parse(t, S, j).value, k));
  }

  /** The parts of `test -> b; o: choice b; m: p; q: partialcommit m; b:`. */
  lemma RepLayoutParts(C: Code, a: int, f: FirstSet, opt: bool, c: Code) returns (o: int, m: int, q: int, b: int)
    requires At(C, a, RepLayout(f, opt, c))
    ensures At(C, a, CodeTestSet(f.cs, f.e, b - a)) && o == a + TestSize(f.cs, f.e) && At(C, m, c) && q == m + |c|
    ensures At(C, o, if opt then Labelled(IPartialCommit, m - o) else Labelled(IChoice, b - o)) && m == o + 2
    ensures At(C, q, Labelled(IPartialCommit, m - q)) && b == q + 2 == a + |RepLayout(f, opt, c)|
  {
    o := a + TestSize(f.cs, f.e);
    m := o + 2;
    q := m + |c|;
    b := q + 2;
    AtSplit4(C, a, CodeTestSet(f.cs, f.e, b - a), if opt then Labelled(IPartialCommit, m - o) else Labelled(IChoice, b - o),
             c, Labelled(IPartialCommit, m - q));
  }

  /** Entering the loop pushes a choice, or reuses the one that is there. */
  lemma EnterLoop(C: Code, S: Subject, x: State, o: int, m: int, b: int, i: nat, k: Stack, opt: bool, fl: Charset, r: nat)
    requires i <= |S| && (opt ==> k.Push?) && Reach(C, S, x, Running(o, i, k)) && m == o + 2
    requires At(C, o, if opt then Labelled(IPartialCommit, m - o) else Labelled(IChoice, b - o))
    requires var l, k1 := if opt then k.p else b, if opt then k.rest else k;
             Reach(C, S, Running(m, i, Push(l, i, k1)), Running(l, r, k1))
    ensures Correct(C, S, x, b, Some(r), opt, fl, k)
  {
    if opt { RunLabelled(C, S, o, i, k, IPartialCommit, m - o); } else { RunLabelled(C, S, o, i, k, IChoice, b - o); }
    var l, k1 := if opt then k.p else b, if opt then k.rest else k;
    var y := Running(m, i, Push(l, i, k1));
    ReachTrans(C, S, x, Running(o, i, k), y);
    ReachTrans(C, S, x, y, Running(l, r, k1));
  }

  lemma {:induction false} RepCorrect(C: Code, S: Subject, a: int, i: nat, k: Stack, t: Tree, opt: bool, fl: Charset, c: Code)
    requires t.TRep? && WellFormed(t) && Implements(c, t.p, false, NoTest, FullSet())
    requires Situation(RepLayout(GetFirst(t.p, FullSet()), opt, c), opt, NoTest, fl, C, S, a, i, k)
    ensures Correct(C, S, Running(a, i, k), a + |RepLayout(GetFirst(t.p, FullSet()), opt, c)|, Parse(t, S, i), opt, fl, k)
  {
    var f, x := GetFirst(t.p, FullSet()), Running(a, i, k);
    var o, m, q, b := RepLayoutParts(C, a, f, opt, c);
    RunTestSet(C, S, a, i, k, f, b - a);
    if f.e || CharIn(f.cs, S, i) {
      LoopCorrect(C, S, m, q, i, if opt then k.p else b, if opt then k.rest else k, t, c);
      EnterLoop(C, S, x, o, m, b, i, k, opt, fl, Parse(t, S, i).value);
    } else {
      SkipLoop(t, S, i);
      EndsAt(C, S, x, b, i, opt, fl, k);
    }
  }

  lemma {:induction false} SkipLoop(t: Tree, S: Subject, i: nat)
    requires t.TRep? && WellFormed(t) && i <= |S|
    requires !GetFirst(t.p, FullSet()).e && !CharIn(GetFirst(t.p, FullSet()).cs, S, i)
    ensures Parse(t, S, i) == Some(i)
  {
    TestFails(t.p, S, i);
    RepUnfolds(t, S, i);
  }

  lemma {:induction false} RepImplements(t: Tree, opt: bool, tt: Test, fl: Charset, c: Code)
    requires t.TRep? && WellFormed(t) && Implements(c, t.p, false, NoTest, FullSet())
    ensures Implements(RepLayout(GetFirst(t.p, FullSet()), opt, c), t, opt, tt, fl)
  {
    var g := RepLayout(GetFirst(t.p, FullSet()), opt, c);
    forall C: Code, S: Subject, a: int, i: nat, k: Stack ensures Delivers(g, t, opt, tt, fl, C, S, a, i, k) {
      if Situation(g, opt, tt, fl, C, S, a, i, k) { RepCorrect(C, S, a, i, k, t, opt, fl, c); }
    }
  }

  // ----- predicates -----

  lemma {:induction false} BehindImplements(t: Tree, opt: bool, tt: Test, fl: Charset, c: Code)
    requires t.TBehind? && WellFormed(t) && Implements(c, t.p, false, NoTest, FullSet())
    ensures Implements(CodeBehind(t.n) + c, t, opt, tt, fl)
  {
    var n := t.n;
    var g := CodeBehind(n) + c;
    forall C: Code, S: Subject, a: int, i: nat, k: Stack ensures Delivers(g, t, opt, tt, fl, C, S, a, i, k) {
      if Situation(g, opt, tt, fl, C, S, a, i, k) {
        var x, m := Running(a, i, k), a + |CodeBehind(n)|;
        AtSplit(C, a, CodeBehind(n), c);
        RunBehind(C, S, a, i, k, n);
        if n <= i {
          assert Delivers(c, t.p, false, NoTest, FullSet(), C, S, m, i - n, k);
          Prepend(C, S, x, Running(m, i - n, k), m + |c|, Parse(t.p, S, i - n), false, FullSet(), k);
          BehindParses(t, S, i);
        }
        Lift(C, S, x, m + |c|, Parse(t, S, i), opt, fl, k);
      }
    }
  }

  lemma {:induction false} BehindParses(t: Tree, S: Subject, i: nat)
    requires t.TBehind? && WellFormed(t) && t.n <= i <= |S|
    ensures Parse(t, S, i) == Parse(t.p, S, i - t.n)
  {
    if Parse(t.p, S, i - t.n).Some? { FixedLenSound(t.p, S, i - t.n); }
  }

  lemma RunBehind(C: Code, S: Subject, a: int, i: nat, k: Stack, n: nat)
    requires i <= |S| && At(C, a, CodeBehind(n))
    ensures n <= i ==> Reach(C, S, Running(a, i, k), Running(a + |CodeBehind(n)|, i - n, k))
    ensures n > i ==> Reach(C, S, Running(a, i, k), Backtrack(k))
  {
    if n > 0 { AtSlot(C, a, CodeBehind(n), 0); ReachStep(C, S, Running(a, i, k)); }
    else { ReachRefl(C, S, Running(a, i, k)); }
  }

  lemma {:induction false} NotImplements(t: Tree, opt: bool, tt: Test, fl: Charset, c: Code)
    requires t.TNot? && WellFormed(t) && Implements(c, t.p, false, NoTest, FullSet())
    ensures Implements(NotLayout(GetFirst(t.p, FullSet()), c), t, opt, tt, fl)
  {
    var f := GetFirst(t.p, FullSet());
    var g := NotLayout(f, c);
    forall C: Code, S: Subject, a: int, i: nat, k: Stack ensures Delivers(g, t, opt, tt, fl, C, S, a, i, k) {
      if Situation(g, opt, tt, fl, C, S, a, i, k) {
        var m, q, b := NotLayoutParts(C, a, f, c);
        assert Delivers(c, t.p, false, NoTest, FullSet(), C, S, m, i, Push(b, i, k));
        if !f.e && !CharIn(f.cs, S, i) { TestFails(t.p, S, i); }
        NotRuns(C, S, a, i, k, f, m, q, b, Parse(t.p, S, i));
        Lift(C, S, Running(a, i, k), b, Parse(t, S, i), opt, fl, k);
      }
    }
  }

  lemma {:induction false} NotTestImplements(t: Tree, opt: bool, tt: Test, fl: Charset)
    requires t.TNot? && WellFormed(t) && HeadFail(t.p)
    ensures Implements(NotTestLayout(GetFirst(t.p, FullSet())), t, opt, tt, fl)
  {
    var f := GetFirst(t.p, FullSet());
    var g := NotTestLayout(f);
    HeadFailEmpty(t.p, FullSet());
    forall C: Code, S: Subject, a: int, i: nat, k: Stack ensures Delivers(g, t, opt, tt, fl, C, S, a, i, k) {
      if Situation(g, opt, tt, fl, C, S, a, i, k) {
        HeadFailExact(t.p, S, i);
        NotTestRuns(C, S, a, i, k, f);
        Lift(C, S, Running(a, i, k), a + |g|, Parse(t, S, i), opt, fl, k);
      }
    }
  }

  lemma NotTestRuns(C: Code, S: Subject, a: int, i: nat, k: Stack, f: FirstSet)
    requires i <= |S| && At(C, a, NotTestLayout(f)) && !f.e
    ensures CharIn(f.cs, S, i) ==> Reach(C, S, Running(a, i, k), Backtrack(k))
    ensures !CharIn(f.cs, S, i) ==> Reach(C, S, Running(a, i, k), Running(a + |NotTestLayout(f)|, i, k))
  {
    var ts := TestSize(f.cs, f.e);
    AtSplit(C, a, CodeTestSet(f.cs, f.e, ts + 1), [Inst(IFail, 0)]);
    AtSlot(C, a + ts, [Inst(IFail, 0)], 0);
    RunTestSet(C, S, a, i, k, f, ts + 1);
    if CharIn(f.cs, S, i) { ThenStep(C, S, Running(a, i, k), Running(a + ts, i, k)); }
  }

  /** The parts of `test -> b; choice b; m: p; q: failtwice; b:`. */
  lemma NotLayoutParts(C: Code, a: int, f: FirstSet, c: Code) returns (m: int, q: int, b: int)
    requires At(C, a, NotLayout(f, c))
    ensures At(C, a, CodeTestSet(f.cs, f.e, b - a)) && m == a + TestSize(f.cs, f.e) + 2
    ensures At(C, m - 2, Labelled(IChoice, b - m + 2)) && At(C, m, c) && q == m + |c|
    ensures At(C, q, [Inst(IFailTwice, 0)]) && b == q + 1 == a + |NotLayout(f, c)|
  {
    m := a + TestSize(f.cs, f.e) + 2;
    q := m + |c|;
    b := q + 1;
    AtSplit4(C, a, CodeTestSet(f.cs, f.e, b - a), Labelled(IChoice, b - m + 2), c, [Inst(IFailTwice, 0)]);
  }

  lemma NotRuns(C: Code, S: Subject, a: int, i: nat, k: Stack, f: FirstSet, m: int, q: int, b: int, r: Option<nat>)
    requires i <= |S| && (r.Some? ==> r.value <= |S|)
    requires At(C, a, CodeTestSet(f.cs, f.e, b - a)) && m == a + TestSize(f.cs, f.e) + 2
    requires At(C, m - 2, Labelled(IChoice, b - m + 2)) && At(C, q, [Inst(IFailTwice, 0)])
    requires if f.e || CharIn(f.cs, S, i)
             then Correct(C, S, Running(m, i, Push(b, i, k)), q, r, false, FullSet(), Push(b, i, k)) else r.None?
    ensures r.None? ==> Reach(C, S, Running(a, i, k), Running(b, i, k))
    ensures r.Some? ==> Reach(C, S, Running(a, i, k), Backtrack(k))
  {
    RunTestSet(C, S, a, i, k, f, b - a);
    if f.e || CharIn(f.cs, S, i) {
      var k1 := Push(b, i, k);
      var x, y := Running(a, i, k), Running(m, i, k1);
      RunLabelled(C, S, m - 2, i, k, IChoice, b - m + 2);
      ReachTrans(C, S, x, Running(m - 2, i, k), y);
      Prepend(C, S, x, y, q, r, false, FullSet(), k1);
      FullHasAll();
      AtSlot(C, q, [Inst(IFailTwice, 0)], 0);
      if r.Some? { ThenStep(C, S, x, Running(q, r.value, k1)); }
    }
  }

  lemma {:induction false} AndBehindImplements(t: Tree, opt: bool, tt: Test, fl: Charset, c: Code)
    requires t.TAnd? && WellFormed(t) && AndByBehind(t.p) && Implements(c, t.p, false, tt, FullSet())
    ensures Implements(c + CodeBehind(FixedLen(t.p)), t, opt, tt, fl)
  {
    var n := FixedLen(t.p);
    var g := c + CodeBehind(n);
    forall C: Code, S: Subject, a: int, i: nat, k: Stack ensures Delivers(g, t, opt, tt, fl, C, S, a, i, k) {
      if Situation(g, opt, tt, fl, C, S, a, i, k) {
        AtSplit(C, a, c, CodeBehind(n));
        assert Delivers(c, t.p, false, tt, FullSet(), C, S, a, i, k);
        if Parse(t.p, S, i).Some? { FixedLenSound(t.p, S, i); }
        AndBehindRuns(C, S, a, i, k, a + |c|, n, Parse(t.p, S, i));
        Lift(C, S, Running(a, i, k), a + |g|, Parse(t, S, i), opt, fl, k);
      }
    }
  }

  lemma {:induction false} AndImplements(t: Tree, opt: bool, tt: Test, fl: Charset, c: Code)
    requires t.TAnd? && WellFormed(t) && Implements(c, t.p, false, tt, FullSet())
    ensures Implements(AndLayout(c), t, opt, tt, fl)
  {
    forall C: Code, S: Subject, a: int, i: nat, k: Stack ensures Delivers(AndLayout(c), t, opt, tt, fl, C, S, a, i, k) {
      if Situation(AndLayout(c), opt, tt, fl, C, S, a, i, k) {
        var q, l, b := AndLayoutParts(C, a, c);
        assert Delivers(c, t.p, false, tt, FullSet(), C, S, a + 2, i, Push(l, i, k));
        AndRuns(C, S, a, i, k, q, l, b, Parse(t.p, S, i));
        Lift(C, S, Running(a, i, k), b, Parse(t, S, i), opt, fl, k);
      }
    }
  }

  lemma AndBehindRuns(C: Code, S: Subject, a: int, i: nat, k: Stack, q: int, n: nat, r: Option<nat>)
    requires i <= |S| && At(C, q, CodeBehind(n)) && Correct(C, S, Running(a, i, k), q, r, false, FullSet(), k)
    requires r.Some? ==> r.value == i + n <= |S|
    ensures r.None? ==> Reach(C, S, Running(a, i, k), Backtrack(k))
    ensures r.Some? ==> Reach(C, S, Running(a, i, k), Running(q + |CodeBehind(n)|, i, k))
  {
    FullHasAll();
    if r.Some? {
      RunBehind(C, S, q, i + n, k, n);
      ReachTrans(C, S, Running(a, i, k), Running(q, i + n, k), Running(q + |CodeBehind(n)|, i, k));
    }
  }

  /** The parts of `choice l; p; q: backcommit b; l: fail; b:`. */
  lemma AndLayoutParts(C: Code, a: int, c: Code) returns (q: int, l: int, b: int)
    requires At(C, a, AndLayout(c))
    ensures At(C, a, Labelled(IChoice, l - a)) && At(C, a + 2, c) && q == a + 2 + |c|
    ensures At(C, q, Labelled(IBackCommit, b - q)) && l == q + 2 && At(C, l, [Inst(IFail, 0)]) && b == l + 1 == a + |AndLayout(c)|
  {
    q := a + 2 + |c|;
    l := q + 2;
    b := l + 1;
    AtSplit4(C, a, Labelled(IChoice, l - a), c, Labelled(IBackCommit, b - q), [Inst(IFail, 0)]);
  }

  lemma AndRuns(C: Code, S: Subject, a: int, i: nat, k: Stack, q: int, l: int, b: int, r: Option<nat>)
    requires i <= |S| && (r.Some? ==> r.value <= |S|) && At(C, a, Labelled(IChoice, l - a))
    requires Correct(C, S, Running(a + 2, i, Push(l, i, k)), q, r, false, FullSet(), Push(l, i, k))
    requires At(C, q, Labelled(IBackCommit, b - q)) && At(C, l, [Inst(IFail, 0)])
    ensures r.None? ==> Reach(C, S, Running(a, i, k), Backtrack(k))
    ensures r.Some? ==> Reach(C, S, Running(a, i, k), Running(b, i, k))
  {
    var x, k1 := Running(a, i, k), Push(l, i, k);
    RunLabelled(C, S, a, i, k, IChoice, l - a);
    Prepend(C, S, x, Running(a + 2, i, k1), q, r, false, FullSet(), k1);
    FullHasAll();
    if r.Some? {
      RunLabelled(C, S, q, r.value, k1, IBackCommit, b - q);
      ReachTrans(C, S, x, Running(q, r.value, k1), Running(b, i, k));
    } else {
      AtSlot(C, l, [Inst(IFail, 0)], 0);
      ThenStep(C, S, x, Running(l, i, k));
    }
  }

  // ----- the induction -----

  lemma {:induction false} LeafImplements(t: Tree, opt: bool, tt: Test, fl: Charset)
    requires t.TChar? || t.TSet? || t.TAny? || t.TTrue? || t.TFalse?
    ensures Implements(Gen(t, opt, tt, fl), t, opt, tt, fl)
  {
    var g := Gen(t, opt, tt, fl);
    forall C: Code, S: Subject, a: int, i: nat, k: Stack ensures Delivers(g, t, opt, tt, fl, C, S, a, i, k) {
      if Situation(g, opt, tt, fl, C, S, a, i, k) {
        match t
        case TChar(c) => CharCorrect(C, S, a, i, k, c, tt, opt, fl);
        case TSet(cs) => SetCorrect(C, S, a, i, k, cs, tt, opt, fl);
        case _ => LeafCorrect(C, S, a, i, k, t, opt, fl);
      }
    }
  }

  /** The generated code implements the tree, whatever `opt`, the protecting test and the follow set. */
  lemma {:induction false} GenImplements(t: Tree, opt: bool, tt: Test, fl: Charset)
    requires WellFormed(t)
    ensures Implements(Gen(t, opt, tt, fl), t, opt, tt, fl)
    decreases t, 1
  {
    match t
    case TChoice(p1, p2) => ChoiceGenImplements(t, opt, tt, fl);
    case TRep(p) => RepGenImplements(t, opt, tt, fl);
    case TBehind(n, p) =>
      GenImplements(p, false, NoTest, FullSet());
      BehindImplements(t, opt, tt, fl, Gen(p, false, NoTest, FullSet()));
    case TNot(p) =>
      GenImplements(p, false, NoTest, FullSet());
      if HeadFail(p) { NotTestImplements(t, opt, tt, fl); }
      else { NotImplements(t, opt, tt, fl, Gen(p, false, NoTest, FullSet())); }
    case TAnd(p) =>
      GenImplements(p, false, tt, FullSet());
      if AndByBehind(p) { AndBehindImplements(t, opt, tt, fl, Gen(p, false, tt, FullSet())); }
      else { AndImplements(t, opt, tt, fl, Gen(p, false, tt, FullSet())); }
    case TSeq(p1, p2) =>
      GenImplements(p1, false, tt, FollowOf(p1, p2, fl));
      GenImplements(p2, opt, TestAfter(p1, tt), fl);
      SeqImplements(p1, p2, opt, tt, fl, Gen(p1, false, tt, FollowOf(p1, p2, fl)), Gen(p2, opt, TestAfter(p1, tt), fl));
    case _ => LeafImplements(t, opt, tt, fl);
  }

  lemma {:induction false} ChoiceGenImplements(t: Tree, opt: bool, tt: Test, fl: Charset)
    requires t.TChoice? && WellFormed(t)
    ensures Implements(Gen(t, opt, tt, fl), t, opt, tt, fl)
    decreases t, 0
  {
    var f1 := GetFirst(t.p1, FullSet());
    GenImplements(t.p2, opt, NoTest, fl);
    var c2 := Gen(t.p2, opt, NoTest, fl);
    if ChoiceByTest(t.p1, t.p2, fl) {
      GenImplements(t.p1, false, TestOf(f1.cs, false), fl);
      ChoiceTestImplements(t, opt, tt, fl, Gen(t.p1, false, TestOf(f1.cs, false), fl), c2);
    } else if opt && t.p2.TTrue? {
      GenImplements(t.p1, true, NoTest, FullSet());
      OptionImplements(t, tt, fl, Gen(t.p1, true, NoTest, FullSet()));
    } else {
      GenImplements(t.p1, t.p2.TTrue?, TestOf(f1.cs, f1.e), FullSet());
      ChoiceImplements(t, opt, tt, fl, Gen(t.p1, t.p2.TTrue?, TestOf(f1.cs, f1.e), FullSet()), c2);
    }
  }

  lemma {:induction false} RepGenImplements(t: Tree, opt: bool, tt: Test, fl: Charset)
    requires t.TRep? && WellFormed(t)
    ensures Implements(Gen(t, opt, tt, fl), t, opt, tt, fl)
    decreases t, 0
  {
    var cs := GetFirst(t.p, FullSet()).cs;
    if ToCharset(t.p).Some? {
      SpanImplements(t.p, opt, tt, fl);
    } else if RepByTest(t.p, fl) {
      GenImplements(t.p, false, TestOf(cs, false), FullSet());
      RepTestImplements(t, opt, tt, fl, Gen(t.p, false, TestOf(cs, false), FullSet()));
    } else {
      GenImplements(t.p, false, NoTest, FullSet());
      RepImplements(t, opt, tt, fl, Gen(t.p, false, NoTest, FullSet()));
    }
  }

  // ----- whole programs -----

  /** Running the generated program from any start position ends, and reports what `Parse` says. */
  lemma ProgramCorrect(t: Tree, S: Subject, i: nat)
    requires WellFormed(t) && i <= |S|
    ensures Reach(Program(t), S, Start(i), Outcome(Parse(t, S, i)))
  {
    hide Gen, Parse;
    var C, g := Program(t), Gen(t, false, NoTest, FullSet());
    assert At(C, 0, g + [Inst(IEnd, 0)]);
    AtSplit(C, 0, g, [Inst(IEnd, 0)]);
    AtSlot(C, |g|, [Inst(IEnd, 0)], 0);
    var k := Push(GIVEUP, i, Bottom);
    GenImplements(t, false, NoTest, FullSet());
    assert Delivers(g, t, false, NoTest, FullSet(), C, S, 0, i, k);
    FullHasAll();
    match Parse(t, S, i)
    case None => ThenStep(C, S, Start(i), Running(GIVEUP, i, Bottom));
    case Some(j) => ThenStep(C, S, Start(i), Running(|g|, j, k));
  }
}
