/**
 The pattern constructors of `lptree.c`, and the rotation of left-associative patterns: what they build matches what
 the plain operators match.
 */
module LpegRewrite {
  import opened Basics
  import opened LpegCharset
  import opened LpegTree
  import opened LpegAnalysis

  /** Two patterns match the same, at every position of every subject. */
  ghost predicate Same(t: Tree, u: Tree) {
    forall S: Subject, i: nat | i <= |S| :: Parse(t, S, i) == Parse(u, S, i)
  }

  // ----- strings and numbers -----

  /** A sequence of leaves, as `fillseq` builds it. */
  function Chain(leaves: seq<Tree>): Tree
    requires leaves != []
  {
    if |leaves| == 1 then leaves[0] else TSeq(leaves[0], Chain(leaves[1..]))
  }

  function Chars(s: seq<Char>): seq<Tree> { seq(|s|, i requires 0 <= i < |s| => TChar(s[i])) }

  function Anys(n: nat): seq<Tree> { seq(n, _ => TAny) }

  /** A string as a pattern. */
  function StringOf(s: seq<Char>): Tree { if s == [] then TTrue else Chain(Chars(s)) }

  /** A number as a pattern, `numtree`. */
  function NumberOf(n: int): Tree {
    if n == 0 then TTrue else if n > 0 then Chain(Anys(n)) else TNot(Chain(Anys(-n)))
  }

  /** A string matches itself and nothing else. */
  lemma {:induction false} StringMeaning(s: seq<Char>, S: Subject, i: nat)
    requires i <= |S|
    ensures WellFormed(StringOf(s))
    ensures Parse(StringOf(s), S, i) == if s <= S[i..] then Some(i + |s|) else None
    decreases |s|
  {
    if |s| > 1 {
      assert Chars(s)[1..] == Chars(s[1..]);
      StringMeaning(s[1..], S, if i < |S| then i + 1 else i);
      if i < |S| {
        assert S[i..] == [S[i]] + S[i + 1..];
        assert s <= S[i..] <==> s[0] == S[i] && s[1..] <= S[i + 1..] by { assert s == [s[0]] + s[1..]; PrefixCons(s, S[i..]); }
      }
    }
  }

  lemma PrefixCons(s: seq<Char>, u: seq<Char>)
    requires s != [] && u != []
    ensures s <= u <==> s[0] == u[0] && s[1..] <= u[1..]
  {
    if s[0] == u[0] && s[1..] <= u[1..] {
      forall k | 0 <= k < |s| ensures k < |u| && s[k] == u[k] { if k > 0 { assert s[k] == s[1..][k - 1] && u[k] == u[1..][k - 1]; } }
    }
  }

  /** That many characters, or, for a negative number, not that many. */
  lemma NumberMeaning(n: int, S: Subject, i: nat)
    requires i <= |S|
    ensures WellFormed(NumberOf(n))
    ensures n >= 0 ==> Parse(NumberOf(n), S, i) == if n <= |S| - i then Some(i + n) else None
    ensures n < 0 ==> Parse(NumberOf(n), S, i) == if -n <= |S| - i then None else Some(i)
  {
    if n != 0 { AnysMeaning(if n > 0 then n else -n, S, i); }
  }

  lemma {:induction false} AnysMeaning(n: nat, S: Subject, i: nat)
    requires n > 0 && i <= |S|
    ensures WellFormed(Chain(Anys(n))) && Parse(Chain(Anys(n)), S, i) == if n <= |S| - i then Some(i + n) else None
    decreases n
  {
    if n > 1 {
      assert Anys(n)[1..] == Anys(n - 1);
      AnysMeaning(n - 1, S, if i < |S| then i + 1 else i);
    }
  }

  // ----- sequence, choice, difference -----

  /** `lp_seq` */
  function SeqOf(t1: Tree, t2: Tree): Tree {
    if t1.TFalse? || t2.TTrue? then t1 else if t1.TTrue? then t2 else TSeq(t1, t2)
  }

  lemma SeqOfSame(t1: Tree, t2: Tree)
    ensures Same(SeqOf(t1, t2), TSeq(t1, t2))
    ensures WellFormed(t1) && WellFormed(t2) ==> WellFormed(SeqOf(t1, t2))
  {
  }

  /** `lp_choice` */
  function ChoiceOf(t1: Tree, t2: Tree): Tree {
    if ToCharset(t1).Some? && ToCharset(t2).Some? then TSet(ToCharset(t1).value + ToCharset(t2).value)
    else if NoFail(t1) || t2.TFalse? then t1
    else if t1.TFalse? then t2
    else TChoice(t1, t2)
  }

  lemma ChoiceOfSame(t1: Tree, t2: Tree)
    requires WellFormed(t1) && WellFormed(t2)
    ensures Same(ChoiceOf(t1, t2), TChoice(t1, t2)) && WellFormed(ChoiceOf(t1, t2))
  {
    forall S: Subject, i: nat | i <= |S| ensures Parse(ChoiceOf(t1, t2), S, i) == Parse(TChoice(t1, t2), S, i) {
      if ToCharset(t1).Some? && ToCharset(t2).Some? {
        ToCharsetSound(t1, S, i);
        ToCharsetSound(t2, S, i);
      } else if NoFail(t1) {
        NoFailSound(t1, S, i);
      }
    }
  }

  /** `lp_sub`: charsets are subtracted, other patterns become a sequence of a predicate and the first. */
  function SubOf(t1: Tree, t2: Tree): Tree {
    if ToCharset(t1).Some? && ToCharset(t2).Some? then TSet(ToCharset(t1).value - ToCharset(t2).value)
    else TSeq(TNot(t2), t1)
  }

  /** The difference matches where the second pattern does not match and the first does, as the first does. */
  lemma SubOfMeaning(t1: Tree, t2: Tree, S: Subject, i: nat)
    requires i <= |S|
    ensures Parse(SubOf(t1, t2), S, i) == if Parse(t2, S, i).Some? then None else Parse(t1, S, i)
    ensures WellFormed(t1) && WellFormed(t2) ==> WellFormed(SubOf(t1, t2))
  {
    if ToCharset(t1).Some? && ToCharset(t2).Some? {
      ToCharsetSound(t1, S, i);
      ToCharsetSound(t2, S, i);
    }
  }

  // ----- repetition -----

  /** The tree for at least `n` repetitions. */
  function AtLeast(t: Tree, n: nat): Tree {
    if n == 0 then TRep(t) else TSeq(t, AtLeast(t, n - 1))
  }

  /** The tree for at most `n` repetitions. */
  function AtMost(t: Tree, n: nat): Tree
    requires n >= 1
  {
    if n == 1 then TChoice(t, TTrue) else TChoice(TSeq(t, AtMost(t, n - 1)), TTrue)
  }

  /** `lp_star`, which refuses a loop over a pattern that may match nothing. */
  function StarOf(t: Tree, n: int): Option<Tree> {
    if n >= 0 then (if Nullable(t) then None else Some(AtLeast(t, n))) else Some(AtMost(t, -n))
  }

  /** A repetition that is not refused is well formed. */
  lemma {:induction false} StarOfWellFormed(t: Tree, n: int)
    requires WellFormed(t) && StarOf(t, n).Some?
    ensures WellFormed(StarOf(t, n).value)
    decreases if n < 0 then -n else n
  {
    if n > 0 { StarOfWellFormed(t, n - 1); } else if n < -1 { StarOfWellFormed(t, n + 1); }
  }

  /** Where `k` matches one after the other end, if they all succeed. */
  function Times(t: Tree, S: Subject, i: nat, k: nat): (r: Option<nat>)
    requires i <= |S|
    ensures r.Some? ==> i <= r.value <= |S|
    decreases k
  {
    if k == 0 then Some(i)
    else
      var r := Parse(t, S, i);
      if r.None? then None else Times(t, S, r.value, k - 1)
  }

  /** At least `n` repetitions, and then as many as there are. */
  lemma {:induction false} AtLeastMeaning(t: Tree, n: nat, S: Subject, i: nat)
    requires i <= |S|
    ensures var r := Times(t, S, i, n);
      Parse(AtLeast(t, n), S, i) == if r.None? then None else Parse(TRep(t), S, r.value)
    decreases n
  {
    if n > 0 {
      var r := Parse(t, S, i);
      if r.Some? { AtLeastMeaning(t, n - 1, S, r.value); }
    }
  }

  /** A loop goes on until its body fails. */
  lemma {:induction false} RepMeaning(t: Tree, S: Subject, i: nat) returns (k: nat)
    requires i <= |S| && WellFormed(TRep(t))
    ensures Times(t, S, i, k).Some? && Parse(TRep(t), S, i) == Times(t, S, i, k)
    ensures Parse(t, S, Times(t, S, i, k).value).None?
    decreases |S| - i
  {
    var r := Parse(t, S, i);
    if r.None? {
      k := 0;
    } else {
      if r.value == i { NullableSound(t, S, i); }
      var m := RepMeaning(t, S, r.value);
      k := m + 1;
    }
  }

  /** As many repetitions as there are, and no more than `n`. */
  function UpTo(t: Tree, S: Subject, i: nat, n: nat): (j: nat)
    requires i <= |S|
    ensures i <= j <= |S|
    decreases n
  {
    if n == 0 then i
    else
      var r := Parse(t, S, i);
      if r.None? then i else UpTo(t, S, r.value, n - 1)
  }

  lemma {:induction false} AtMostMeaning(t: Tree, n: nat, S: Subject, i: nat)
    requires i <= |S| && n >= 1
    ensures Parse(AtMost(t, n), S, i) == Some(UpTo(t, S, i, n))
    decreases n
  {
    var r := Parse(t, S, i);
    if r.Some? {
      if n == 1 { assert UpTo(t, S, r.value, 0) == r.value; } else { AtMostMeaning(t, n - 1, S, r.value); }
    }
  }

  /**
   What `lp_star` builds: for `n >= 0` it refuses exactly the patterns that may match nothing, and else matches `n` times
   and then as often as it can; for `n < 0` it matches as often as it can, and no more than `-n` times.
   */
  lemma StarOfMeaning(t: Tree, n: int, S: Subject, i: nat)
    requires i <= |S|
    ensures n >= 0 ==> (StarOf(t, n).None? <==> Nullable(t))
    ensures n >= 0 && !Nullable(t) ==>
      var r := Times(t, S, i, n);
      Parse(StarOf(t, n).value, S, i) == if r.None? then None else Parse(TRep(t), S, r.value)
    ensures n < 0 ==> StarOf(t, n).Some? && Parse(StarOf(t, n).value, S, i) == Some(UpTo(t, S, i, -n))
  {
    if n >= 0 { AtLeastMeaning(t, n, S, i); } else { AtMostMeaning(t, -n, S, i); }
  }

  // ----- associativity -----

  predicate SameOp(t: Tree, u: Tree) { (t.TSeq? && u.TSeq?) || (t.TChoice? && u.TChoice?) }

  function Op(t: Tree, a: Tree, b: Tree): Tree
    requires t.TSeq? || t.TChoice?
  {
    if t.TSeq? then TSeq(a, b) else TChoice(a, b)
  }

  function Count(t: Tree): (n: nat)
    ensures n >= 1
  {
    match t
    case TSeq(a, b) => 1 + Count(a) + Count(b)
    case TChoice(a, b) => 1 + Count(a) + Count(b)
    case TRep(a) => 1 + Count(a)
    case TNot(a) => 1 + Count(a)
    case TAnd(a) => 1 + Count(a)
    case TBehind(_, a) => 1 + Count(a)
    case _ => 1
  }

  /** `correctassociativity`: rotates until the first operand is of another kind. */
  function Rotated(t: Tree): (r: Tree)
    requires t.TSeq? || t.TChoice?
    ensures SameOp(t, r) && !SameOp(r, r.p1) && Count(r) == Count(t)
    decreases Count(t.p1)
  {
    if !SameOp(t, t.p1) then t
    else CountRotate(t); Rotated(Op(t, t.p1.p1, Op(t, t.p1.p2, t.p2)))
  }

  lemma CountRotate(t: Tree)
    requires (t.TSeq? || t.TChoice?) && SameOp(t, t.p1)
    ensures Count(Op(t, t.p1.p1, Op(t, t.p1.p2, t.p2))) == Count(t) && Count(t.p1.p1) < Count(t.p1)
  {
    var a, b, c := t.p1.p1, t.p1.p2, t.p2;
    assert Count(t) == 1 + Count(t.p1) + Count(c) && Count(t.p1) == 1 + Count(a) + Count(b);
    assert Count(Op(t, b, c)) == 1 + Count(b) + Count(c);
  }

  lemma RotateSame(t: Tree)
    requires (t.TSeq? || t.TChoice?) && SameOp(t, t.p1)
    ensures Same(Op(t, t.p1.p1, Op(t, t.p1.p2, t.p2)), t)
  {
    var a, b, c := t.p1.p1, t.p1.p2, t.p2;
    forall S: Subject, i: nat | i <= |S| ensures Parse(Op(t, a, Op(t, b, c)), S, i) == Parse(t, S, i) {
      var r := Parse(a, S, i);
      if r.Some? { assert Parse(Op(t, b, c), S, r.value) == Parse(Op(t, b, c), S, r.value); }
    }
  }

  lemma {:induction false} RotatedSame(t: Tree)
    requires t.TSeq? || t.TChoice?
    ensures Same(Rotated(t), t) && (WellFormed(t) ==> WellFormed(Rotated(t)))
    decreases Count(t.p1)
  {
    if SameOp(t, t.p1) {
      var u := Op(t, t.p1.p1, Op(t, t.p1.p2, t.p2));
      RotateSame(t);
      RotatedSame(u);
      assert Rotated(t) == Rotated(u);
      assert WellFormed(t) ==> WellFormed(t.p1) && WellFormed(u);
    }
  }

  /** `finalfix` on a pattern without grammars. */
  function FinalFix(t: Tree): (r: Tree)
    ensures Count(r) == Count(t)
    decreases Count(t)
  {
    match t
    case TSeq(_, _) => var u := Rotated(t); TSeq(FinalFix(u.p1), FinalFix(u.p2))
    case TChoice(_, _) => var u := Rotated(t); TChoice(FinalFix(u.p1), FinalFix(u.p2))
    case TRep(a) => TRep(FinalFix(a))
    case TNot(a) => TNot(FinalFix(a))
    case TAnd(a) => TAnd(FinalFix(a))
    case TBehind(n, a) => TBehind(n, FinalFix(a))
    case _ => t
  }

  /** No first operand is of the same kind as its parent. */
  predicate RightAssociative(t: Tree) {
    match t
    case TSeq(a, b) => !a.TSeq? && RightAssociative(a) && RightAssociative(b)
    case TChoice(a, b) => !a.TChoice? && RightAssociative(a) && RightAssociative(b)
    case TRep(a) => RightAssociative(a)
    case TNot(a) => RightAssociative(a)
    case TAnd(a) => RightAssociative(a)
    case TBehind(_, a) => RightAssociative(a)
    case _ => true
  }

  lemma {:induction false} FinalFixShape(t: Tree)
    ensures RightAssociative(FinalFix(t))
    ensures FinalFix(t).TSeq? == t.TSeq? && FinalFix(t).TChoice? == t.TChoice?
    decreases Count(t)
  {
    match t
    case TSeq(_, _) => FinalFixShape(Rotated(t).p1); FinalFixShape(Rotated(t).p2);
    case TChoice(_, _) => FinalFixShape(Rotated(t).p1); FinalFixShape(Rotated(t).p2);
    case TRep(a) => FinalFixShape(a);
    case TNot(a) => FinalFixShape(a);
    case TAnd(a) => FinalFixShape(a);
    case TBehind(_, a) => FinalFixShape(a);
    case _ =>
  }

  lemma {:induction false} RepSame(a: Tree, b: Tree, S: Subject, i: nat)
    requires Same(a, b) && i <= |S|
    ensures Parse(TRep(a), S, i) == Parse(TRep(b), S, i)
    decreases |S| - i
  {
    var r := Parse(a, S, i);
    assert r == Parse(b, S, i);
    if r.Some? && r.value > i { RepSame(a, b, S, r.value); }
  }

  lemma OpSame(t: Tree, a: Tree, b: Tree)
    requires (t.TSeq? || t.TChoice?) && Same(a, t.p1) && Same(b, t.p2)
    ensures Same(Op(t, a, b), t)
  {
  }

  /** The final adjustment changes no match. */
  lemma {:induction false} FinalFixSame(t: Tree)
    ensures Same(FinalFix(t), t)
    decreases Count(t), 1
  {
    hide Rotated;
    match t
    case TSeq(_, _) => FixBoth(t);
    case TChoice(_, _) => FixBoth(t);
    case TRep(a) => FinalFixSame(a); UnderSame(FinalFix(a), a, 0);
    case TNot(a) => FinalFixSame(a); UnderSame(FinalFix(a), a, 0);
    case TAnd(a) => FinalFixSame(a); UnderSame(FinalFix(a), a, 0);
    case TBehind(n, a) => FinalFixSame(a); UnderSame(FinalFix(a), a, n);
    case _ =>
  }

  /** Patterns that match the same can stand for each other under an operator. */
  lemma UnderSame(a: Tree, b: Tree, n: nat)
    requires Same(a, b)
    ensures Same(TRep(a), TRep(b)) && Same(TNot(a), TNot(b)) && Same(TAnd(a), TAnd(b)) && Same(TBehind(n, a), TBehind(n, b))
  {
    forall S: Subject, i: nat | i <= |S| ensures Parse(TRep(a), S, i) == Parse(TRep(b), S, i) { RepSame(a, b, S, i); }
    forall S: Subject, i: nat | i <= |S| ensures Parse(TNot(a), S, i) == Parse(TNot(b), S, i) && Parse(TAnd(a), S, i) == Parse(TAnd(b), S, i) {
      assert Parse(a, S, i) == Parse(b, S, i);
    }
    forall S: Subject, i: nat | i <= |S| ensures Parse(TBehind(n, a), S, i) == Parse(TBehind(n, b), S, i) {
      if n <= i { assert Parse(a, S, i - n) == Parse(b, S, i - n); }
    }
  }

  lemma {:induction false} FixBoth(t: Tree)
    requires t.TSeq? || t.TChoice?
    ensures Same(FinalFix(t), t)
    decreases Count(t), 0
  {
    var u := Rotated(t);
    RotatedSame(t);
    FinalFixSame(u.p1);
    FinalFixSame(u.p2);
    OpSame(u, FinalFix(u.p1), FinalFix(u.p2));
  }

  // ----- the analyses after the final adjustment -----

  /** The analyses say the same of both trees. */
  ghost predicate Alike(t: Tree, u: Tree) {
    && (forall pred: Pred :: CheckAux(t, pred) == CheckAux(u, pred))
    && (forall len: nat :: FixedLenX(t, len) == FixedLenX(u, len))
  }

  lemma {:induction false} FixedLenBound(t: Tree, len: nat)
    ensures FixedLenX(t, len) >= -1
  {
    match t
    case TSeq(a, b) =>
      FixedLenBound(a, len);
      if FixedLenX(a, len) >= 0 { FixedLenBound(b, FixedLenX(a, len)); }
    case TChoice(a, b) => FixedLenBound(a, len);
    case _ =>
  }

  lemma RotateAlike(t: Tree)
    requires (t.TSeq? || t.TChoice?) && SameOp(t, t.p1)
    ensures Alike(Op(t, t.p1.p1, Op(t, t.p1.p2, t.p2)), t)
  {
    var a, b, c := t.p1.p1, t.p1.p2, t.p2;
    var u := Op(t, b, c);
    forall pred: Pred ensures CheckAux(Op(t, a, u), pred) == CheckAux(t, pred) {
      assert CheckAux(t, pred) == if t.TSeq? then CheckAux(t.p1, pred) && CheckAux(c, pred) else CheckAux(t.p1, pred) || CheckAux(c, pred);
    }
    forall len: nat ensures FixedLenX(Op(t, a, u), len) == FixedLenX(t, len) {
      FixedLenBound(a, len);
      FixedLenBound(b, len);
      FixedLenBound(c, len);
      assert t.TChoice? ==> FixedLenX(u, len) == if FixedLenX(b, len) < 0 then -1 else if FixedLenX(b, len) == FixedLenX(c, len) then FixedLenX(b, len) else -1;
      assert t.TChoice? ==> FixedLenX(t.p1, len) == if FixedLenX(a, len) < 0 then -1 else if FixedLenX(a, len) == FixedLenX(b, len) then FixedLenX(a, len) else -1;
      assert t.TSeq? ==> FixedLenX(t.p1, len) == if FixedLenX(a, len) < 0 then -1 else FixedLenX(b, FixedLenX(a, len));
      assert t.TSeq? && FixedLenX(a, len) >= 0 ==>
        FixedLenX(u, FixedLenX(a, len)) == if FixedLenX(b, FixedLenX(a, len)) < 0 then -1 else FixedLenX(c, FixedLenX(b, FixedLenX(a, len)));
    }
  }

  lemma {:induction false} RotatedAlike(t: Tree)
    requires t.TSeq? || t.TChoice?
    ensures Alike(Rotated(t), t)
    decreases Count(t.p1)
  {
    if SameOp(t, t.p1) {
      RotateAlike(t);
      RotatedAlike(Op(t, t.p1.p1, Op(t, t.p1.p2, t.p2)));
      CountRotate(t);
    }
  }

  lemma OpAlike(t: Tree, a: Tree, b: Tree)
    requires (t.TSeq? || t.TChoice?) && Alike(a, t.p1) && Alike(b, t.p2)
    ensures Alike(Op(t, a, b), t)
  {
    var u := Op(t, a, b);
    forall pred: Pred ensures CheckAux(u, pred) == CheckAux(t, pred) {
      assert CheckAux(a, pred) == CheckAux(t.p1, pred) && CheckAux(b, pred) == CheckAux(t.p2, pred);
    }
    forall len: nat ensures FixedLenX(u, len) == FixedLenX(t, len) {
      assert FixedLenX(a, len) == FixedLenX(t.p1, len) && FixedLenX(b, len) == FixedLenX(t.p2, len);
      if FixedLenX(a, len) >= 0 { assert FixedLenX(b, FixedLenX(a, len)) == FixedLenX(t.p2, FixedLenX(a, len)); }
    }
  }

  /** The final adjustment changes no analysis, and keeps a pattern well formed. */
  lemma {:induction false} FinalFixAlike(t: Tree)
    ensures Alike(FinalFix(t), t) && (WellFormed(t) ==> WellFormed(FinalFix(t)))
    decreases Count(t), 1
  {
    hide Rotated;
    match t
    case TSeq(_, _) => FixBothAlike(t);
    case TChoice(_, _) => FixBothAlike(t);
    case TRep(a) => FinalFixAlike(a);
    case TNot(a) => FinalFixAlike(a);
    case TAnd(a) =>
      FinalFixAlike(a);
      forall pred: Pred ensures CheckAux(TAnd(FinalFix(a)), pred) == CheckAux(t, pred) {
        assert CheckAux(FinalFix(a), pred) == CheckAux(a, pred);
      }
    case TBehind(_, a) => FinalFixAlike(a);
    case _ =>
  }

  lemma {:induction false} FixBothAlike(t: Tree)
    requires t.TSeq? || t.TChoice?
    ensures Alike(FinalFix(t), t) && (WellFormed(t) ==> WellFormed(FinalFix(t)))
    decreases Count(t), 0
  {
    hide CheckAux, FixedLenX;
    var u := Rotated(t);
    RotatedAlike(t);
    RotatedSame(t);
    FinalFixAlike(u.p1);
    FinalFixAlike(u.p2);
    OpAlike(u, FinalFix(u.p1), FinalFix(u.p2));
  }
}
