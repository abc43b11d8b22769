/**
 Character sets as the analyses and the code generator see them. How LPeg packs them in 32 bytes,
 and that its byte loops compute these operations, is the subject of `LpegCharsetBytes`.
 */
module LpegCharset {

  /** An unsigned character. */
  type Char = c: int | 0 <= c < 256

  type Charset = set<Char>

  /** `testchar` */
  predicate Has(cs: Charset, c: Char) { c in cs }

  predicate IsByte(c: int) { 0 <= c < 256 }

  /** `fullset` */
  function FullSet(): Charset { set c: int | 0 <= c < 256 && IsByte(c) }

  function EmptySet(): Charset { {} }

  function Complement(cs: Charset): Charset { FullSet() - cs }

  lemma FullHasAll()
    ensures forall c: Char :: c in FullSet()
  {}

  /** The four shapes of a set: which instruction is enough to test it. */
  datatype Kind = KFail | KChar(c: Char) | KAny | KSet

  /** `charsettype` */
  function KindOf(cs: Charset): Kind {
    if cs == {} then KFail
    else if cs == FullSet() then KAny
    else if |cs| == 1 then
      OnlyOne(cs);
      var c: Char :| c in cs;
      KChar(c)
    else KSet
  }

  lemma OnlyOne(cs: Charset)
    requires |cs| == 1
    ensures forall c, d :: c in cs && d in cs ==> c == d
  {
    forall c, d | c in cs && d in cs ensures c == d {
      var rest := cs - {c};
      assert |rest| == 0;
      assert d !in rest;
    }
  }

  /** No member, one, all, or two and a character that is missing. */
  lemma KindMeaning(cs: Charset, c: Char)
    ensures match KindOf(cs)
            case KFail => c !in cs
            case KChar(x) => c in cs <==> c == x
            case KAny => c in cs
            case KSet => (exists x, y :: x in cs && y in cs && x != y) && (exists x: Char :: x !in cs)
  {
    if |cs| == 1 {
      OnlyOne(cs);
    } else if cs != {} && cs != FullSet() {
      var x :| x in cs;
      assert (forall y :: y in cs ==> y == x) ==> cs == {x};
      assert (forall z: Char :: z in cs) ==> cs == FullSet();
    }
  }
}
