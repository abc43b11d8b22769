/**
 Pattern trees of the grammar-free fragment of LPeg, and what it means for one to match.

 `Parse` is the reference: the big-step semantics of parsing expressions. It says where a
 match that starts at position `i` ends, or that there is none. Everything the compiler and
 the virtual machine do is measured against it.
 */
module LpegTree {
  import opened Basics
  import opened LpegCharset

  type Subject = seq<Char>

  datatype Tree =
    | TChar(c: Char)
    | TSet(cs: Charset)
    | TAny
    | TTrue
    | TFalse
    | TRep(p: Tree)
    | TSeq(p1: Tree, p2: Tree)
    | TChoice(p1: Tree, p2: Tree)
    | TNot(p: Tree)
    | TAnd(p: Tree)
    | TBehind(n: nat, p: Tree)

  const MAXBEHIND := 255

  /** `tocharset`: the set of a single-character pattern. */
  function ToCharset(t: Tree): (r: Option<Charset>) {
    match t
    case TSet(cs) => Some(cs)
    case TChar(c) => Some({c})
    case TAny => Some(FullSet())
    case _ => None
  }

  // ----- checkaux, fixedlenx -----

  datatype Pred = PEnullable | PEnofail

  predicate CheckAux(t: Tree, pred: Pred) {
    match t
    case TChar(_) => false
    case TSet(_) => false
    case TAny => false
    case TFalse => false
    case TRep(_) => true
    case TTrue => true
    case TNot(_) => pred.PEnullable?
    case TBehind(_, _) => pred.PEnullable?
    case TAnd(p) => pred.PEnullable? || CheckAux(p, pred)
    case TSeq(p1, p2) => CheckAux(p1, pred) && CheckAux(p2, pred)
    case TChoice(p1, p2) => CheckAux(p2, pred) || CheckAux(p1, pred)
  }

  predicate Nullable(t: Tree) { CheckAux(t, PEnullable) }
  predicate NoFail(t: Tree) { CheckAux(t, PEnofail) }

  /** `fixedlenx`: `len` plus the number of characters `t` matches, or -1 when that varies. */
  function FixedLenX(t: Tree, len: int): int {
    match t
    case TChar(_) => len + 1
    case TSet(_) => len + 1
    case TAny => len + 1
    case TFalse => len
    case TTrue => len
    case TNot(_) => len
    case TAnd(_) => len
    case TBehind(_, _) => len
    case TRep(_) => -1
    case TSeq(p1, p2) =>
      var n := FixedLenX(p1, len);
      if n < 0 then -1 else FixedLenX(p2, n)
    case TChoice(p1, p2) =>
      var n1 := FixedLenX(p1, len);
      if n1 < 0 then -1
      else if n1 == FixedLenX(p2, len) then n1 else -1
  }

  function FixedLen(t: Tree): int { FixedLenX(t, 0) }

  /** What the constructors of `lptree.c` guarantee: no loop over an empty match (`lp_star`), and a
      look-behind over a pattern of fixed length that fits in an instruction (`lp_behind`). */
  predicate WellFormed(t: Tree) {
    match t
    case TRep(p) => WellFormed(p) && !Nullable(p)
    case TSeq(p1, p2) => WellFormed(p1) && WellFormed(p2)
    case TChoice(p1, p2) => WellFormed(p1) && WellFormed(p2)
    case TNot(p) => WellFormed(p)
    case TAnd(p) => WellFormed(p)
    case TBehind(n, p) => WellFormed(p) && n == FixedLen(p) && n <= MAXBEHIND
    case _ => true
  }

  // ----- semantics -----

  predicate CharIn(cs: Charset, S: Subject, i: nat) { i < |S| && Has(cs, S[i]) }

  function Parse(t: Tree, S: Subject, i: nat): (r: Option<nat>)
    requires i <= |S|
    ensures r.Some? ==> i <= r.value <= |S|
    decreases t, |S| - i
  {
    match t
    case TChar(c) => if i < |S| && S[i] == c then Some(i + 1) else None
    case TSet(cs) => if i < |S| && Has(cs, S[i]) then Some(i + 1) else None
    case TAny => if i < |S| then Some(i + 1) else None
    case TTrue => Some(i)
    case TFalse => None
    case TRep(p) =>
      var r := Parse(p, S, i);
      // an iteration that consumes nothing ends the loop; it cannot happen in a well-formed tree
      if r.None? || r.value == i then Some(i) else Parse(t, S, r.value)
    case TSeq(p1, p2) =>
      var r := Parse(p1, S, i);
      if r.None? then None else Parse(p2, S, r.value)
    case TChoice(p1, p2) =>
      var r := Parse(p1, S, i);
      if r.Some? then r else Parse(p2, S, i)
    case TNot(p) => if Parse(p, S, i).None? then Some(i) else None
    case TAnd(p) => if Parse(p, S, i).Some? then Some(i) else None
    case TBehind(n, p) => if n <= i && Parse(p, S, i - n).Some? then Some(i) else None
  }
}
