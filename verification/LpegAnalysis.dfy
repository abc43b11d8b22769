/**
 The analyses of `lpcode.c` and their soundness with respect to `Parse`.
 */
module LpegAnalysis {
  import opened LpegCharset
  import opened Basics
  import opened LpegTree

  /** The result of `getfirst`: whether the pattern may accept the empty string at the end of the
      subject (the return value), and the first set. */
  datatype FirstSet = FirstSet(e: bool, cs: Charset)

  function GetFirst(t: Tree, follow: Charset): FirstSet {
    match t
    case TChar(c) => FirstSet(false, {c})
    case TSet(cs) => FirstSet(false, cs)
    case TAny => FirstSet(false, FullSet())
    case TTrue => FirstSet(true, follow)
    case TFalse => FirstSet(false, EmptySet())
    case TChoice(p1, p2) =>
      var f1, f2 := GetFirst(p1, follow), GetFirst(p2, follow);
      FirstSet(f1.e || f2.e, f1.cs + f2.cs)
    case TSeq(p1, p2) =>
      if !Nullable(p1) then GetFirst(p1, FullSet())
      else
        var f2 := GetFirst(p2, follow);
        var f1 := GetFirst(p1, f2.cs);
        FirstSet(f1.e && f2.e, f1.cs)
    case TRep(p) => FirstSet(true, GetFirst(p, follow).cs + follow)
    case TAnd(p) =>
      var f := GetFirst(p, follow);
      FirstSet(f.e, f.cs * follow)
    case TNot(p) =>
      if ToCharset(p).Some? then FirstSet(true, Complement(ToCharset(p).value)) else FirstSet(true, follow)
    case TBehind(_, p) => FirstSet(true, follow)
  }

  predicate HeadFail(t: Tree) {
    match t
    case TChar(_) => true
    case TSet(_) => true
    case TAny => true
    case TFalse => true
    case TAnd(p) => HeadFail(p)
    case TSeq(p1, p2) => NoFail(p2) && HeadFail(p1)
    case TChoice(p1, p2) => HeadFail(p1) && HeadFail(p2)
    case _ => false
  }

  predicate NeedFollow(t: Tree) {
    match t
    case TChoice(_, _) => true
    case TRep(_) => true
    case TSeq(_, p2) => NeedFollow(p2)
    case _ => false
  }

  // ----- soundness -----

  /** A single-character pattern matches exactly the characters of its set. */
  lemma ToCharsetSound(t: Tree, S: Subject, i: nat)
    requires i <= |S| && ToCharset(t).Some?
    ensures Parse(t, S, i) == if CharIn(ToCharset(t).value, S, i) then Some(i + 1) else None
  {
    FullHasAll();
    if t.TChar? { }
  }

  /** A match that consumes nothing needs a nullable pattern. */
  lemma {:induction false} NullableSound(t: Tree, S: Subject, i: nat)
    requires i <= |S| && Parse(t, S, i) == Some(i)
    ensures Nullable(t)
  {
    match t
    case TSeq(p1, p2) => NullableSound(p1, S, i); NullableSound(p2, S, i);
    case TChoice(p1, p2) =>
      if Parse(p1, S, i).Some? { NullableSound(p1, S, i); } else { NullableSound(p2, S, i); }
    case _ =>
  }

  predicate NoPredicates(t: Tree) {
    match t
    case TNot(_) => false
    case TAnd(_) => false
    case TBehind(_, _) => false
    case TRep(p) => NoPredicates(p)
    case TSeq(p1, p2) => NoPredicates(p1) && NoPredicates(p2)
    case TChoice(p1, p2) => NoPredicates(p1) && NoPredicates(p2)
    case _ => true
  }

  /** Without predicates, nullable is exact: the patterns that match the empty subject. */
  lemma {:induction false} NullableExactly(t: Tree)
    requires NoPredicates(t)
    ensures Nullable(t) <==> Parse(t, [], 0).Some?
  {
    match t
    case TSeq(p1, p2) => NullableExactly(p1); NullableExactly(p2);
    case TChoice(p1, p2) => NullableExactly(p1); NullableExactly(p2);
    case _ =>
  }

  /** Without predicates, a pattern that matches the empty subject matches everywhere, and nofail says so. */
  lemma {:induction false} NoFailExactly(t: Tree)
    requires NoPredicates(t)
    ensures NoFail(t) <==> Parse(t, [], 0).Some?
  {
    match t
    case TSeq(p1, p2) => NoFailExactly(p1); NoFailExactly(p2);
    case TChoice(p1, p2) => NoFailExactly(p1); NoFailExactly(p2);
    case _ =>
  }

  /** A pattern marked nofail matches everywhere. */
  lemma {:induction false} NoFailSound(t: Tree, S: Subject, i: nat)
    requires i <= |S| && NoFail(t)
    ensures Parse(t, S, i).Some?
    decreases t, |S| - i
  {
    match t
    case TRep(p) =>
      var r := Parse(p, S, i);
      if r.Some? && r.value != i { NoFailSound(t, S, r.value); }
    case TAnd(p) => NoFailSound(p, S, i);
    case TSeq(p1, p2) => NoFailSound(p1, S, i); NoFailSound(p2, S, Parse(p1, S, i).value);
    case TChoice(p1, p2) =>
      if NoFail(p1) { NoFailSound(p1, S, i); } else { NoFailSound(p2, S, i); }
    case _ =>
  }

  lemma {:induction false} NoFailNullable(t: Tree)
    requires NoFail(t)
    ensures Nullable(t)
  {
    match t
    case TSeq(p1, p2) => NoFailNullable(p1); NoFailNullable(p2);
    case TChoice(p1, p2) => if NoFail(p1) { NoFailNullable(p1); } else { NoFailNullable(p2); }
    case _ =>
  }

  /** How many characters a pattern consumes, where that is plain from its shape. */
  function Width(t: Tree): Option<nat> {
    match t
    case TChar(_) => Some(1)
    case TSet(_) => Some(1)
    case TAny => Some(1)
    case TRep(_) => None
    case TSeq(p1, p2) =>
      if Width(p1).Some? && Width(p2).Some? then Some(Width(p1).value + Width(p2).value) else None
    case TChoice(p1, p2) => if Width(p1) == Width(p2) then Width(p1) else None
    case _ => Some(0)
  }

  /** The accumulator of `fixedlenx` adds up the width, and gives up exactly where there is none. */
  lemma {:induction false} FixedLenXExactly(t: Tree, len: nat)
    ensures FixedLenX(t, len) == if Width(t).Some? then len + Width(t).value else -1
  {
    match t
    case TSeq(p1, p2) =>
      FixedLenXExactly(p1, len);
      if Width(p1).Some? { FixedLenXExactly(p2, len + Width(p1).value); }
    case TChoice(p1, p2) => FixedLenXExactly(p1, len); FixedLenXExactly(p2, len);
    case _ =>
  }

  /** A fixed length is the exact number of characters of every success. */
  lemma {:induction false} FixedLenXSound(t: Tree, len: nat, S: Subject, i: nat)
    requires i <= |S| && FixedLenX(t, len) >= 0 && Parse(t, S, i).Some?
    ensures Parse(t, S, i).value - i == FixedLenX(t, len) - len
  {
    match t
    case TSeq(p1, p2) =>
      FixedLenXSound(p1, len, S, i);
      FixedLenXSound(p2, FixedLenX(p1, len), S, Parse(p1, S, i).value);
    case TChoice(p1, p2) =>
      if Parse(p1, S, i).Some? { FixedLenXSound(p1, len, S, i); } else { FixedLenXSound(p2, len, S, i); }
    case _ =>
  }

  lemma {:induction false} FixedLenSound(t: Tree, S: Subject, i: nat)
    requires i <= |S| && FixedLen(t) >= 0 && Parse(t, S, i).Some?
    ensures Parse(t, S, i).value == i + FixedLen(t)
  {
    FixedLenXSound(t, 0, S, i);
  }

  /** A character outside the first set makes the pattern fail, unless the pattern matches the empty
      string and the character is outside the follow set too. */
  lemma {:induction false} FirstSound(t: Tree, fl: Charset, S: Subject, i: nat)
    requires WellFormed(t) && i < |S| && !Has(GetFirst(t, fl).cs, S[i]) && Parse(t, S, i).Some?
    ensures Parse(t, S, i) == Some(i) && !Has(fl, S[i])
  {
    match t
    case TChar(c) =>
    case TSet(_) =>
    case TAny => FullHasAll();
    case TTrue =>
    case TFalse =>
    case TChoice(p1, p2) =>
      if Parse(p1, S, i).Some? { FirstSound(p1, fl, S, i); } else { FirstSound(p2, fl, S, i); }
    case TSeq(p1, p2) =>
      if !Nullable(p1) {
        FullHasAll();
        FirstSound(p1, FullSet(), S, i);
      } else {
        FirstSound(p1, GetFirst(p2, fl).cs, S, i);
        FirstSound(p2, fl, S, i);
      }
    case TRep(p) =>
      if Parse(p, S, i).Some? {
        FirstSound(p, fl, S, i);
        NullableSound(p, S, i);
      }
    case TAnd(p) =>
      if !Has(GetFirst(p, fl).cs, S[i]) { FirstSound(p, fl, S, i); }
    case TNot(p) =>
      if ToCharset(p).Some? {
        ToCharsetSound(p, S, i);
      }
    case TBehind(_, _) =>
  }

  /** With the full set as follow, a character outside the first set always means failure. */
  lemma FirstFails(t: Tree, S: Subject, i: nat)
    requires WellFormed(t) && i < |S| && !Has(GetFirst(t, FullSet()).cs, S[i])
    ensures Parse(t, S, i).None?
  {
    FullHasAll();
    if Parse(t, S, i).Some? { FirstSound(t, FullSet(), S, i); }
  }

  /** When `getfirst` returns zero the pattern fails at the end of the subject. */
  lemma {:induction false} EmptyFails(t: Tree, fl: Charset, S: Subject)
    requires !GetFirst(t, fl).e
    ensures Parse(t, S, |S|).None?
  {
    match t
    case TChoice(p1, p2) => EmptyFails(p1, fl, S); EmptyFails(p2, fl, S);
    case TSeq(p1, p2) =>
      if !Nullable(p1) {
        EmptyFails(p1, FullSet(), S);
      } else if !GetFirst(p1, GetFirst(p2, fl).cs).e {
        EmptyFails(p1, GetFirst(p2, fl).cs, S);
      } else {
        EmptyFails(p2, fl, S);
      }
    case TAnd(p) => EmptyFails(p, fl, S);
    case _ =>
  }

  /** The first test of a pattern: it fails only where the pattern fails. */
  lemma TestFails(t: Tree, S: Subject, i: nat)
    requires WellFormed(t) && i <= |S| && !GetFirst(t, FullSet()).e && !CharIn(GetFirst(t, FullSet()).cs, S, i)
    ensures Parse(t, S, i).None?
  {
    if i < |S| { FirstFails(t, S, i); } else { EmptyFails(t, FullSet(), S); }
  }

  lemma {:induction false} NoFailFirst(t: Tree)
    requires NoFail(t)
    ensures GetFirst(t, FullSet()).cs == FullSet()
  {
    FullHasAll();
    match t
    case TTrue =>
    case TRep(p) =>
    case TAnd(p) => NoFailFirst(p);
    case TSeq(p1, p2) =>
      NoFailFirst(p1); NoFailFirst(p2);
      NoFailNullable(p1);
    case TChoice(p1, p2) =>
      if NoFail(p1) { NoFailFirst(p1); } else { NoFailFirst(p2); }
  }

  /** A headfail pattern never asks to be tried at the end of the subject. */
  lemma {:induction false} HeadFailEmpty(t: Tree, fl: Charset)
    requires HeadFail(t)
    ensures !GetFirst(t, fl).e
  {
    match t
    case TAnd(p) => HeadFailEmpty(p, fl);
    case TSeq(p1, p2) => HeadFailEmpty(p1, if Nullable(p1) then GetFirst(p2, fl).cs else FullSet());
    case TChoice(p1, p2) => HeadFailEmpty(p1, fl); HeadFailEmpty(p2, fl);
    case _ =>
  }

  /** A headfail pattern is decided by the next character: it matches exactly where there is one and
      it lies in the first set. */
  lemma {:induction false} HeadFailExact(t: Tree, S: Subject, i: nat)
    requires WellFormed(t) && HeadFail(t) && i <= |S|
    ensures Parse(t, S, i).Some? <==> CharIn(GetFirst(t, FullSet()).cs, S, i)
  {
    match t
    case TChar(c) =>
    case TSet(_) =>
    case TAny => FullHasAll();
    case TFalse => 
    case TAnd(p) =>
      HeadFailExact(p, S, i);
      FullHasAll();
    case TSeq(p1, p2) =>
      HeadFailExact(p1, S, i);
      if Nullable(p1) {
        NoFailFirst(p2);
        FullHasAll();
      }
      if Parse(p1, S, i).Some? { NoFailSound(p2, S, Parse(p1, S, i).value); }
    case TChoice(p1, p2) =>
      HeadFailExact(p1, S, i);
      HeadFailExact(p2, S, i);
  }
}
