/**
 Character sets packed in 32 bytes, and the byte loops of `lpcode.c` that work on them. `Members`
 gives the set that the bytes stand for; every loop is proved against the operation on sets.
 */
module LpegCharsetBytes {
  import opened LpegCharset

  const CHARSETSIZE := 32
  const BITSPERCHAR := 8

  type Bytes = b: seq<bv8> | |b| == 32 witness seq(32, _ => 0)

  /** `1 << k` on a byte. */
  function Bit(k: int): bv8
    requires 0 <= k < 8
  {
    if k == 0 then 1 else if k == 1 then 2 else if k == 2 then 4 else if k == 3 then 8
    else if k == 4 then 16 else if k == 5 then 32 else if k == 6 then 64 else 128
  }

  /** `b & (1 << k)` */
  predicate TestBit(b: bv8, k: int)
    requires 0 <= k < 8
  {
    if k == 0 then b & 1 != 0 else if k == 1 then b & 2 != 0 else if k == 2 then b & 4 != 0
    else if k == 3 then b & 8 != 0 else if k == 4 then b & 16 != 0 else if k == 5 then b & 32 != 0
    else if k == 6 then b & 64 != 0 else b & 128 != 0
  }

  /** `testchar` */
  predicate TestChar(b: Bytes, c: Char) { TestBit(b[c / 8], c % 8) }

  /** The set that the bytes stand for. */
  function Members(b: Bytes): Charset { set c: int | 0 <= c < 256 && TestChar(b, c) }

  /** The character of bit `k` of byte `i`. */
  function CharOf(i: int, k: int): (c: Char)
    requires 0 <= i < 32 && 0 <= k < 8
    ensures c / 8 == i && c % 8 == k
  {
    8 * i + k
  }

  /** Byte `i` of a packed set. */
  function ByteOf(cs: Charset, i: int): (b: bv8)
    requires 0 <= i < 32
    ensures forall k {:trigger TestBit(b, k)} :: 0 <= k < 8 ==> (TestBit(b, k) <==> CharOf(i, k) in cs)
  {
    var c := k requires 0 <= k < 8 => CharOf(i, k) in cs;
    Eight(c(0), c(1), c(2), c(3), c(4), c(5), c(6), c(7))
  }

  function Eight(b0: bool, b1: bool, b2: bool, b3: bool, b4: bool, b5: bool, b6: bool, b7: bool): (b: bv8)
    ensures TestBit(b, 0) == b0 && TestBit(b, 1) == b1 && TestBit(b, 2) == b2 && TestBit(b, 3) == b3
    ensures TestBit(b, 4) == b4 && TestBit(b, 5) == b5 && TestBit(b, 6) == b6 && TestBit(b, 7) == b7
  {
    (if b0 then 1 else 0) | (if b1 then 2 else 0) | (if b2 then 4 else 0) | (if b3 then 8 else 0)
    | (if b4 then 16 else 0) | (if b5 then 32 else 0) | (if b6 then 64 else 0) | (if b7 then 128 else 0)
  }

  /** The bytes that stand for a set. */
  function Packed(cs: Charset): (b: Bytes)
    ensures Members(b) == cs
  {
    var b: Bytes := seq(32, i requires 0 <= i < 32 => ByteOf(cs, i));
    assert forall c: Char :: c in Members(b) <==> c in cs by {
      forall c: Char ensures c in Members(b) <==> c in cs {
        assert CharOf(c / 8, c % 8) == c && TestBit(ByteOf(cs, c / 8), c % 8) == (CharOf(c / 8, c % 8) in cs);
      }
    }
    b
  }

  /** Two packings of the same set are the same bytes. */
  lemma MembersInjective(a: Bytes, b: Bytes)
    ensures Members(a) == Members(b) <==> a == b
  {
    if Members(a) == Members(b) {
      forall i | 0 <= i < 32 ensures a[i] == b[i] {
        forall k | 0 <= k < 8 ensures TestBit(a[i], k) <==> TestBit(b[i], k) {
          assert CharOf(i, k) in Members(a) <==> CharOf(i, k) in Members(b);
        }
        SameBits(a[i], b[i]);
      }
    }
  }

  // ----- the loops -----

  /** `loopset(i, a[i] |= b[i])` */
  method UnionInto(a: array<bv8>, b: Bytes)
    requires a.Length == 32
    modifies a
    ensures Members(a[..]) == old(Members(a[..])) + Members(b)
  {
    ghost var was := a[..];
    var i := 0;
    while i < CHARSETSIZE
      invariant 0 <= i <= 32
      invariant forall j :: 0 <= j < i ==> a[j] == was[j] | b[j]
      invariant forall j :: i <= j < 32 ==> a[j] == was[j]
    {
      a[i] := a[i] | b[i];
      i := i + 1;
    }
    forall c: Char ensures c in Members(a[..]) <==> c in Members(was) + Members(b) { OrBit(was[c / 8], b[c / 8], c % 8); }
  }

  /** `loopset(i, a[i] &= b[i])` */
  method IntersectInto(a: array<bv8>, b: Bytes)
    requires a.Length == 32
    modifies a
    ensures Members(a[..]) == old(Members(a[..])) * Members(b)
  {
    ghost var was := a[..];
    var i := 0;
    while i < CHARSETSIZE
      invariant 0 <= i <= 32
      invariant forall j :: 0 <= j < i ==> a[j] == was[j] & b[j]
      invariant forall j :: i <= j < 32 ==> a[j] == was[j]
    {
      a[i] := a[i] & b[i];
      i := i + 1;
    }
    forall c: Char ensures c in Members(a[..]) <==> c in Members(was) * Members(b) { AndBit(was[c / 8], b[c / 8], c % 8); }
  }

  /** `cs_complement` */
  method ComplementInPlace(a: array<bv8>)
    requires a.Length == 32
    modifies a
    ensures Members(a[..]) == Complement(old(Members(a[..])))
  {
    ghost var was := a[..];
    var i := 0;
    while i < CHARSETSIZE
      invariant 0 <= i <= 32
      invariant forall j :: 0 <= j < i ==> a[j] == !was[j]
      invariant forall j :: i <= j < 32 ==> a[j] == was[j]
    {
      a[i] := !a[i];
      i := i + 1;
    }
    forall c: Char ensures c in Members(a[..]) <==> c in Complement(Members(was)) { NotBit(was[c / 8], c % 8); }
  }

  /** `setchar` */
  method SetChar(a: array<bv8>, x: Char)
    requires a.Length == 32
    modifies a
    ensures Members(a[..]) == old(Members(a[..])) + {x}
  {
    ghost var was := a[..];
    a[x / 8] := a[x / 8] | Bit(x % 8);
    forall c: Char ensures c in Members(a[..]) <==> c in Members(was) + {x} {
      OrBit(was[c / 8], Bit(x % 8), c % 8);
      OneBit(x % 8, c % 8);
    }
  }

  /** `cs_disjoint` */
  method DisjointBytes(a: Bytes, b: Bytes) returns (r: bool)
    ensures r <==> Members(a) !! Members(b)
  {
    var i := 0;
    while i < CHARSETSIZE
      invariant 0 <= i <= 32
      invariant forall j :: 0 <= j < i ==> a[j] & b[j] == 0
    {
      if a[i] & b[i] != 0 {
        BytesMeet(a, b, i);
        return false;
      }
      i := i + 1;
    }
    BytesApart(a, b);
    return true;
  }

  lemma BytesMeet(a: Bytes, b: Bytes, i: int)
    requires 0 <= i < 32 && a[i] & b[i] != 0
    ensures !(Members(a) !! Members(b))
  {
    var k := SomeBit(a[i] & b[i]);
    AndBit(a[i], b[i], k);
    var c := CharOf(i, k);
    assert c in Members(a) && c in Members(b);
  }

  lemma BytesApart(a: Bytes, b: Bytes)
    requires forall j :: 0 <= j < 32 ==> a[j] & b[j] == 0
    ensures Members(a) !! Members(b)
  {
    forall c: Char | c in Members(a) ensures c !in Members(b) { ApartAt(a, b, c); }
  }

  lemma ApartAt(a: Bytes, b: Bytes, c: Char)
    requires a[c / 8] & b[c / 8] == 0
    ensures !(TestChar(a, c) && TestChar(b, c))
  {
    AndBit(a[c / 8], b[c / 8], c % 8);
    ZeroBit(c % 8);
  }

  /** `cs_equal` */
  method EqualBytes(a: Bytes, b: Bytes) returns (r: bool)
    ensures r <==> Members(a) == Members(b)
  {
    MembersInjective(a, b);
    var i := 0;
    while i < CHARSETSIZE
      invariant 0 <= i <= 32
      invariant forall j :: 0 <= j < i ==> a[j] == b[j]
    {
      if a[i] != b[i] { return false; }
      i := i + 1;
    }
    return true;
  }

  /** `charsettype`: one pass over the bytes with two counters. */
  method CharsetType(cs: Bytes) returns (k: Kind)
    ensures k == KindOf(Members(cs))
  {
    hide KindOf, Members;
    var count, candidate := 0, -1;
    var i := 0;
    while i < CHARSETSIZE
      invariant 0 <= i <= 32
      invariant count == 0 || count == 1 || count == 8 * i
      invariant candidate == -1 <==> count != 1
      invariant count == 0 ==> forall j :: 0 <= j < i ==> cs[j] == 0
      invariant count == 1 ==> 0 <= candidate < i && OnlyBit(cs[candidate]) &&
                               forall j :: 0 <= j < i && j != candidate ==> cs[j] == 0
      invariant count > 1 ==> i > 0 && forall j :: 0 <= j < i ==> cs[j] == 0xFF
    {
      var b := cs[i];
      if b == 0 {
        if count > 1 { MixedByBytes(cs, 0, i); return KSet; }
      } else if b == 0xFF {
        if count < i * BITSPERCHAR {
          MixedByBytes(cs, i, if count == 0 then 0 else candidate);
          return KSet;
        } else {
          count := count + BITSPERCHAR;
        }
      } else if b & (b - 1) == 0 {
        if count > 0 {
          if count > 1 { MixedByBytes(cs, 0, i); } else { MixedByTwo(cs, candidate, i); }
          return KSet;
        } else {
          count := count + 1;
          candidate := i;
        }
      } else {
        MixedInByte(cs, i);
        return KSet;
      }
      i := i + 1;
    }
    if count == 0 {
      AllZero(cs);
      k := KFail;
    } else if count == 1 {
      var b := cs[candidate];
      var c := candidate * BITSPERCHAR;
      if b & 0xF0 != 0 { c := c + 4; b := b >> 4; }
      if b & 0x0C != 0 { c := c + 2; b := b >> 2; }
      if b & 0x02 != 0 { c := c + 1; }
      SingleBit(cs[candidate], c - candidate * 8);
      SingleByte(cs, candidate, c - candidate * 8);
      k := KChar(c);
    } else {
      AllOnes(cs);
      k := KAny;
    }
  }

  predicate OnlyBit(b: bv8) { b != 0 && b & (b - 1) == 0 && b != 0xFF }

  lemma AllZero(cs: Bytes)
    requires forall j :: 0 <= j < 32 ==> cs[j] == 0
    ensures KindOf(Members(cs)) == KFail
  {
    forall c: Char ensures c !in Members(cs) { ZeroBit(c % 8); }
    assert Members(cs) == {};
  }

  lemma AllOnes(cs: Bytes)
    requires forall j :: 0 <= j < 32 ==> cs[j] == 0xFF
    ensures KindOf(Members(cs)) == KAny
  {
    forall c: Char ensures c in Members(cs) { FullBit(c % 8); }
    assert 0 in Members(cs);
    assert Members(cs) == FullSet();
  }

  lemma SingleByte(cs: Bytes, i: int, k: int)
    requires 0 <= i < 32 && 0 <= k < 8 && cs[i] == Bit(k)
    requires forall j :: 0 <= j < 32 && j != i ==> cs[j] == 0
    ensures KindOf(Members(cs)) == KChar(8 * i + k)
  {
    var x: Char := CharOf(i, k);
    forall c: Char ensures c in Members(cs) <==> c == x {
      OneBit(k, c % 8);
      ZeroBit(c % 8);
    }
    assert Members(cs) == {x};
    var y: Char := if x == 0 then 1 else 0;
    assert y !in Members(cs) && y in FullSet();
  }

  /** Two members and a character that is missing. */
  lemma Mixed(cs: Bytes, x: Char, y: Char, z: Char)
    requires TestChar(cs, x) && TestChar(cs, y) && x != y && !TestChar(cs, z)
    ensures KindOf(Members(cs)) == KSet
  {
    var s := Members(cs);
    assert x in s && y in s && z !in s && z in FullSet();
    if |s| == 1 { OnlyOne(s); }
  }

  /** A full byte and a byte that is not full. */
  lemma MixedByBytes(cs: Bytes, i: int, j: int)
    requires 0 <= i < 32 && 0 <= j < 32 && cs[i] == 0xFF && cs[j] != 0xFF
    ensures KindOf(Members(cs)) == KSet
  {
    var k := MissingBit(cs[j]);
    FullBit(0);
    FullBit(1);
    Mixed(cs, CharOf(i, 0), CharOf(i, 1), CharOf(j, k));
  }

  /** Two bytes that are not empty, one of them not full. */
  lemma MixedByTwo(cs: Bytes, i: int, j: int)
    requires 0 <= i < j < 32 && cs[i] != 0 && cs[j] != 0 && cs[j] != 0xFF
    ensures KindOf(Members(cs)) == KSet
  {
    var k := SomeBit(cs[i]);
    var l := SomeBit(cs[j]);
    var m := MissingBit(cs[j]);
    Mixed(cs, CharOf(i, k), CharOf(j, l), CharOf(j, m));
  }

  /** A byte with at least two bits and at least one hole. */
  lemma MixedInByte(cs: Bytes, i: int)
    requires 0 <= i < 32 && cs[i] & (cs[i] - 1) != 0 && cs[i] != 0xFF
    ensures KindOf(Members(cs)) == KSet
  {
    var k, l := TwoBits(cs[i]);
    var m := MissingBit(cs[i]);
    Mixed(cs, CharOf(i, k), CharOf(i, l), CharOf(i, m));
  }

  // ----- bits of one byte -----

  lemma OrBit(a: bv8, b: bv8, k: int)
    requires 0 <= k < 8
    ensures TestBit(a | b, k) <==> TestBit(a, k) || TestBit(b, k)
  {}

  lemma AndBit(a: bv8, b: bv8, k: int)
    requires 0 <= k < 8
    ensures TestBit(a & b, k) <==> TestBit(a, k) && TestBit(b, k)
  {}

  lemma NotBit(a: bv8, k: int)
    requires 0 <= k < 8
    ensures TestBit(!a, k) <==> !TestBit(a, k)
  {}

  lemma OneBit(j: int, k: int)
    requires 0 <= j < 8 && 0 <= k < 8
    ensures TestBit(Bit(j), k) <==> j == k
  {}

  lemma ZeroBit(k: int)
    requires 0 <= k < 8
    ensures !TestBit(0, k)
  {}

  lemma FullBit(k: int)
    requires 0 <= k < 8
    ensures TestBit(0xFF, k)
  {}

  lemma SomeBit(b: bv8) returns (k: int)
    requires b != 0
    ensures 0 <= k < 8 && TestBit(b, k)
  {
    k := if b & 1 != 0 then 0 else if b & 2 != 0 then 1 else if b & 4 != 0 then 2 else if b & 8 != 0 then 3
         else if b & 16 != 0 then 4 else if b & 32 != 0 then 5 else if b & 64 != 0 then 6 else 7;
  }

  lemma MissingBit(b: bv8) returns (k: int)
    requires b != 0xFF
    ensures 0 <= k < 8 && !TestBit(b, k)
  {
    k := SomeBit(!b);
  }

  lemma TwoBits(b: bv8) returns (k: int, l: int)
    requires b & (b - 1) != 0
    ensures 0 <= k < 8 && 0 <= l < 8 && k != l && TestBit(b, k) && TestBit(b, l)
  {
    k := SomeBit(b);
    assert b & !Bit(k) != 0;
    l := SomeBit(b & !Bit(k));
    AndBit(b, !Bit(k), l);
  }

  lemma SameBits(a: bv8, b: bv8)
    requires forall k :: 0 <= k < 8 ==> (TestBit(a, k) <==> TestBit(b, k))
    ensures a == b
  {
    assert TestBit(a, 0) <==> TestBit(b, 0);
    assert TestBit(a, 1) <==> TestBit(b, 1);
    assert TestBit(a, 2) <==> TestBit(b, 2);
    assert TestBit(a, 3) <==> TestBit(b, 3);
    assert TestBit(a, 4) <==> TestBit(b, 4);
    assert TestBit(a, 5) <==> TestBit(b, 5);
    assert TestBit(a, 6) <==> TestBit(b, 6);
    assert TestBit(a, 7) <==> TestBit(b, 7);
  }

  /** The three halving tests of `charsettype` find the bit. */
  lemma SingleBit(b: bv8, k: int)
    requires OnlyBit(b)
    requires k == (if b & 0xF0 != 0 then 4 else 0)
                + (var h := if b & 0xF0 != 0 then b >> 4 else b;
                   (if h & 0x0C != 0 then 2 else 0)
                   + (var q := if h & 0x0C != 0 then h >> 2 else h; if q & 0x02 != 0 then 1 else 0))
    ensures 0 <= k < 8 && b == Bit(k)
  {}
}
