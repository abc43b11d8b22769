/**
 The byte format of `lua-seri.c`, and the proof that reading undoes writing.
 */
module SeriFormat {

  import opened Basics

  const MAX_COOKIE := 32
  const MAX_DEPTH := 32

  /**
   A Lua value. Floating-point numbers and pointers are their eight bytes. A table is its array part, and its other
   entries in the order of `lua_next`: key, value, key, value, ...
   */
  datatype Value =
    | Nil
    | Bool(b: bool)
    | Int(v: int)
    | Real(bytes: seq<Byte>)
    | Pointer(bytes: seq<Byte>)
    | Str(s: seq<Byte>)
    | Table(arr: seq<Value>, hash: seq<Value>)

  predicate IsInt32(v: int) { -0x8000_0000 <= v < 0x8000_0000 }

  predicate IsInt64(v: int) { -0x8000_0000_0000_0000 <= v < 0x8000_0000_0000_0000 }

  /** What Lua can hold: integers of 64 bits, lengths of an `int`, and keys that `lua_rawset` takes. */
  predicate IsValue(v: Value)
    decreases v
  {
    match v
    case Nil => true
    case Bool(_) => true
    case Int(n) => IsInt64(n)
    case Real(bytes) => |bytes| == 8
    case Pointer(bytes) => |bytes| == 8
    case Str(s) => IsInt32(|s|)
    case Table(a, h) => IsInt32(|a|) && AreValues(a) && AreValues(h) && IsHash(h)
  }

  predicate AreValues(vs: seq<Value>)
    decreases vs
  {
    vs == [] || (IsValue(vs[0]) && AreValues(vs[1..]))
  }

  predicate IsHash(h: seq<Value>) { |h| % 2 == 0 && forall i :: 0 <= i < |h| && i % 2 == 0 ==> IsKey(h[i]) }

  /** What `lua_rawset` takes for a key: neither nil nor a number that is not a number. */
  predicate IsKey(v: Value) { v != Nil && !(v.Real? && IsNaN(v.bytes)) }

  /** A double with all bits of the exponent and some bit of the fraction set, the lowest byte first. */
  predicate IsNaN(bytes: seq<Byte>) {
    |bytes| == 8 && bytes[7] % 128 == 127 && bytes[6] / 16 == 15 && (bytes[6] % 16 != 0 || exists i :: 0 <= i < 6 && bytes[i] != 0)
  }

  // ----- numbers as bytes -----

  /** The `n` low bytes of a number, the lowest first. */
  function Low(v: int, n: nat): seq<Byte>
    decreases n
  {
    if n == 0 then [] else [v % 256] + Low(v / 256, n - 1)
  }

  function Number(s: seq<Byte>): nat {
    if s == [] then 0 else var w: int := s[0]; w + 256 * Number(s[1..])
  }

  function Pow256(n: nat): nat { if n == 0 then 1 else 256 * Pow256(n - 1) }

  lemma {:induction false} LowLength(v: int, n: nat)
    ensures |Low(v, n)| == n
    decreases n
  {
    if n > 0 { LowLength(v / 256, n - 1); }
  }

  lemma {:induction false} NumberLow(v: int, n: nat)
    requires 0 <= v < Pow256(n)
    ensures Number(Low(v, n)) == v
    decreases n
  {
    if n > 0 { NumberLow(v / 256, n - 1); }
  }

  lemma Pow256s()
    ensures Pow256(1) == 0x100 && Pow256(2) == 0x1_0000 && Pow256(4) == 0x1_0000_0000 && Pow256(8) == 0x1_0000_0000_0000_0000
  {
    assert Pow256(3) == 0x100_0000;
    assert Pow256(5) == 256 * Pow256(4) && Pow256(6) == 256 * Pow256(5) && Pow256(7) == 256 * Pow256(6) && Pow256(8) == 256 * Pow256(7);
  }

  /** The signed number with the low `n` bytes of `v`, for a modulus `m` of as many bytes. */
  function Signed(v: int, m: nat): int
    requires m > 0
  {
    if v < m / 2 then v else v - m
  }

  const W32 := 0x1_0000_0000
  const W64 := 0x1_0000_0000_0000_0000

  // ----- writing -----

  function Tag(t: nat, cookie: nat): Byte
    requires t < 8 && cookie < 32
  {
    t + 8 * cookie
  }

  function EncInt(v: int): seq<Byte> {
    if v == 0 then [Tag(2, 0)]
    else if !IsInt32(v) then [Tag(2, 6)] + Low(v % W64, 8)
    else if v < 0 then [Tag(2, 4)] + Low(v % W32, 4)
    else if v < 0x100 then [Tag(2, 1)] + Low(v, 1)
    else if v < 0x1_0000 then [Tag(2, 2)] + Low(v, 2)
    else [Tag(2, 4)] + Low(v, 4)
  }

  function EncStr(s: seq<Byte>): seq<Byte> {
    if |s| < MAX_COOKIE then [Tag(4, |s|)] + s
    else if |s| < 0x1_0000 then [Tag(5, 2)] + Low(|s|, 2) + s
    else [Tag(5, 4)] + Low(|s|, 4) + s
  }

  function EncHead(n: nat): seq<Byte> {
    if n >= MAX_COOKIE - 1 then [Tag(6, MAX_COOKIE - 1)] + EncInt(n) else [Tag(6, n)]
  }

  /** `pack_one` */
  function Enc(v: Value): seq<Byte>
    decreases v
  {
    match v
    case Nil => [Tag(0, 0)]
    case Bool(b) => [Tag(1, if b then 1 else 0)]
    case Int(n) => EncInt(n)
    case Real(bytes) => [Tag(2, 8)] + bytes
    case Pointer(bytes) => [Tag(3, 0)] + bytes
    case Str(s) => EncStr(s)
    case Table(a, h) => EncHead(|a|) + EncSeq(a) + EncSeq(h) + [Tag(0, 0)]
  }

  /** The nesting below a value. */
  function Height(v: Value): nat
    decreases v
  {
    if v.Table? && (v.arr != [] || v.hash != []) then 1 + Max(HeightSeq(v.arr), HeightSeq(v.hash)) else 0
  }

  function HeightSeq(vs: seq<Value>): nat
    decreases vs
  {
    if vs == [] then 0 else Max(Height(vs[0]), HeightSeq(vs[1..]))
  }

  function Max(a: nat, b: nat): nat { if a < b then b else a }

  function EncSeq(vs: seq<Value>): seq<Byte>
    decreases vs
  {
    if vs == [] then [] else Enc(vs[0]) + EncSeq(vs[1..])
  }

  // ----- reading -----

  datatype Read<T> = Done(value: T, rest: seq<Byte>) | Invalid

  /** `rb_read` */
  function Take(s: seq<Byte>, n: nat): Read<seq<Byte>> {
    if |s| < n then Invalid else Done(s[..n], s[n..])
  }

  function IntOf(cookie: nat, bytes: seq<Byte>): int {
    if cookie == 4 then Signed(Number(bytes), W32) else if cookie == 6 then Signed(Number(bytes), W64) else Number(bytes)
  }

  /** `get_integer` */
  function DecInt(s: seq<Byte>, cookie: nat): (r: Read<int>)
    ensures r.Done? ==> |r.rest| <= |s|
  {
    if cookie == 0 || cookie == 1 || cookie == 2 || cookie == 4 || cookie == 6 then
      var t := Take(s, if cookie == 6 then 8 else cookie);
      if t.Invalid? then Invalid else Done(IntOf(cookie, t.value), t.rest)
    else Invalid
  }

  function DecBuffer(s: seq<Byte>, n: nat): (r: Read<Value>)
    ensures r.Done? ==> |r.rest| <= |s| && r.value.Str?
  {
    var t := Take(s, n);
    if t.Invalid? then Invalid else Done(Str(t.value), t.rest)
  }

  function DecLong(s: seq<Byte>, cookie: nat): (r: Read<Value>)
    ensures r.Done? ==> |r.rest| <= |s| && r.value.Str?
  {
    if cookie != 2 && cookie != 4 then Invalid
    else
      var t := Take(s, cookie);
      if t.Invalid? then Invalid else DecBuffer(t.rest, Number(t.value))
  }

  /** The number of array entries, from the cookie or from the integer behind it. */
  function DecHead(s: seq<Byte>, cookie: nat): (r: Read<int>)
    ensures r.Done? ==> |r.rest| <= |s|
  {
    if cookie != MAX_COOKIE - 1 then Done(cookie, s)
    else if s == [] || s[0] % 8 != 2 || s[0] / 8 == 8 then Invalid
    else
      var r := DecInt(s[1..], s[0] / 8);
      if r.Invalid? then Invalid else Done(Signed(r.value % W32, W32), r.rest)
  }

  /** `unpack_one` */
  function DecOne(s: seq<Byte>): (r: Read<Value>)
    ensures r.Done? ==> |r.rest| < |s|
    decreases |s|, 0
  {
    if s == [] then Invalid else DecBody(s[1..], s[0] % 8, s[0] / 8)
  }

  /** `push_value` */
  function DecBody(s: seq<Byte>, t: nat, cookie: nat): (r: Read<Value>)
    ensures r.Done? ==> |r.rest| <= |s|
    decreases |s|, 2
  {
    match t
    case 0 => Done(Nil, s)
    case 1 => Done(Bool(cookie != 0), s)
    case 2 =>
      if cookie == 8 then DecBytes(s, true)
      else
        var r := DecInt(s, cookie);
        if r.Invalid? then Invalid else Done(Int(r.value), r.rest)
    case 3 => DecBytes(s, false)
    case 4 => DecBuffer(s, cookie)
    case 5 => DecLong(s, cookie)
    case 6 =>
      var n := DecHead(s, cookie);
      if n.Invalid? then Invalid else DecTable(n.rest, n.value)
    case _ => Invalid
  }

  function DecBytes(s: seq<Byte>, real_: bool): (r: Read<Value>)
    ensures r.Done? ==> |r.rest| <= |s| && (r.value.Real? || r.value.Pointer?)
  {
    var t := Take(s, 8);
    if t.Invalid? then Invalid else Done(if real_ then Real(t.value) else Pointer(t.value), t.rest)
  }

  /** `unpack_table` behind the number of array entries */
  function DecTable(s: seq<Byte>, n: int): (r: Read<Value>)
    ensures r.Done? ==> |r.rest| <= |s| && r.value.Table?
    decreases |s|, 1, 1
  {
    var a := DecSeq(s, n);
    if a.Invalid? then Invalid
    else
      var h := DecPairs(a.rest);
      if h.Invalid? then Invalid else Done(Table(a.value, h.value), h.rest)
  }

  function DecSeq(s: seq<Byte>, n: int): (r: Read<seq<Value>>)
    ensures r.Done? ==> |r.rest| <= |s|
    decreases |s|, 1, 0
  {
    if n <= 0 then Done([], s)
    else
      var v := DecOne(s);
      if v.Invalid? then Invalid
      else
        var vs := DecSeq(v.rest, n - 1);
        if vs.Invalid? then Invalid else Done([v.value] + vs.value, vs.rest)
  }

  /** Keys and values up to the nil that ends them; a key that is not a number is an error. */
  function DecPairs(s: seq<Byte>): (r: Read<seq<Value>>)
    ensures r.Done? ==> |r.rest| <= |s|
    decreases |s|, 1, 0
  {
    var k := DecOne(s);
    if k.Invalid? then Invalid
    else if k.value == Nil then Done([], k.rest)
    else
      var v := DecOne(k.rest);
      if v.Invalid? || !IsKey(k.value) then Invalid
      else
        var h := DecPairs(v.rest);
        if h.Invalid? then Invalid else Done([k.value, v.value] + h.value, h.rest)
  }

  /** `luaseri_unpack`: values up to the end of the buffer. */
  function DecAll(s: seq<Byte>): Read<seq<Value>>
    decreases |s|
  {
    if s == [] then Done([], [])
    else
      var v := DecOne(s);
      if v.Invalid? then Invalid
      else
        var vs := DecAll(v.rest);
        if vs.Invalid? then Invalid else Done([v.value] + vs.value, vs.rest)
  }

  // ----- reading undoes writing -----

  lemma TakeFront(a: seq<Byte>, t: seq<Byte>)
    ensures Take(a + t, |a|) == Done(a, t)
  {
    assert (a + t)[..|a|] == a && (a + t)[|a|..] == t;
  }

  lemma IntTripBytes(v: int, n: nat, cookie: nat, u: int, t: seq<Byte>)
    requires 0 <= u < Pow256(n) && n == (if cookie == 6 then 8 else cookie)
    requires cookie == 1 || cookie == 2 || cookie == 4 || cookie == 6
    requires v == if cookie == 4 then Signed(u, W32) else if cookie == 6 then Signed(u, W64) else u
    ensures DecInt(Low(u, n) + t, cookie) == Done(v, t)
  {
    LowLength(u, n);
    NumberLow(u, n);
    TakeFront(Low(u, n), t);
  }

  /** The tag byte of an integer, and what is behind it. */
  lemma IntTrip(v: int, t: seq<Byte>)
    requires IsInt64(v)
    ensures var e := EncInt(v); |e| >= 1 && e[0] % 8 == 2 && e[0] / 8 != 8 && DecInt(e[1..] + t, e[0] / 8) == Done(v, t)
  {
    hide Low, Pow256, DecInt;
    Pow256s();
    var e := EncInt(v);
    if v == 0 {
      ZeroTrip(t);
      assert e[1..] == [];
    } else if !IsInt32(v) {
      IntTripBytes(v, 8, 6, v % W64, t);
      assert e[1..] == Low(v % W64, 8);
    } else if v < 0 {
      IntTripBytes(v, 4, 4, v % W32, t);
      assert e[1..] == Low(v % W32, 4);
    } else if v < 0x100 {
      IntTripBytes(v, 1, 1, v, t);
      assert e[1..] == Low(v, 1);
    } else if v < 0x1_0000 {
      IntTripBytes(v, 2, 2, v, t);
      assert e[1..] == Low(v, 2);
    } else {
      IntTripBytes(v, 4, 4, v, t);
      assert e[1..] == Low(v, 4);
    }
  }

  lemma ZeroTrip(t: seq<Byte>)
    ensures DecInt([] + t, 0) == Done(0, t)
  {
    assert [] + t == t && t[..0] == [] && t[0..] == t;
  }

  lemma StrTrip(s: seq<Byte>, t: seq<Byte>)
    requires IsInt32(|s|)
    ensures var e := EncStr(s); |e| >= 1 && DecBody(e[1..] + t, e[0] % 8, e[0] / 8) == Done(Str(s), t)
  {
    hide Low, Pow256, Number, Take;
    var e := EncStr(s);
    TakeFront(s, t);
    if |s| < MAX_COOKIE {
      assert e[1..] == s;
    } else {
      var n := if |s| < 0x1_0000 then 2 else 4;
      Pow256s();
      LowLength(|s|, n);
      NumberLow(|s|, n);
      assert e[1..] + t == Low(|s|, n) + (s + t);
      TakeFront(Low(|s|, n), s + t);
    }
  }

  lemma HeadTrip(n: nat, t: seq<Byte>)
    requires IsInt32(n)
    ensures var e := EncHead(n); |e| >= 1 && e[0] % 8 == 6 && DecHead(e[1..] + t, e[0] / 8) == Done(n, t)
  {
    hide EncInt, DecInt;
    var e := EncHead(n);
    if n >= MAX_COOKIE - 1 {
      IntTrip(n, t);
      var f := EncInt(n);
      assert e[1..] == f && (f + t)[0] == f[0] && (f + t)[1..] == f[1..] + t;
    } else {
      assert e[1..] + t == t;
    }
  }

  lemma ScalarTrip(v: Value, t: seq<Byte>)
    requires IsValue(v) && !v.Table?
    ensures DecOne(Enc(v) + t) == Done(v, t)
  {
    hide EncInt, EncStr, DecInt, DecBuffer, DecLong, Take;
    var s := Enc(v) + t;
    match v
    case Nil => assert s[1..] == t;
    case Bool(_) => assert s[1..] == t;
    case Int(n) =>
      IntTrip(n, t);
      assert s[1..] == EncInt(n)[1..] + t && s[0] == EncInt(n)[0];
    case Real(bytes) =>
      TakeFront(bytes, t);
      assert s[1..] == bytes + t;
    case Pointer(bytes) =>
      TakeFront(bytes, t);
      assert s[1..] == bytes + t;
    case Str(x) =>
      StrTrip(x, t);
      assert s[1..] == EncStr(x)[1..] + t && s[0] == EncStr(x)[0];
  }

  lemma OpenTrip(n: nat, tail: seq<Byte>)
    requires IsInt32(n)
    ensures DecOne(EncHead(n) + tail) == DecTable(tail, n)
  {
    hide EncHead, DecHead, DecTable;
    var s := EncHead(n) + tail;
    HeadTrip(n, tail);
    assert s[1..] == EncHead(n)[1..] + tail && s[0] == EncHead(n)[0];
  }

  /** Reading what was written for a value gives the value, and takes no byte more. */
  lemma {:induction false} OneTrip(v: Value, t: seq<Byte>)
    requires IsValue(v)
    ensures DecOne(Enc(v) + t) == Done(v, t)
    decreases v
  {
    hide EncHead, DecOne, EncSeq, DecSeq, DecPairs, DecTable;
    if v.Table? {
      var a, h := v.arr, v.hash;
      var tail2 := EncSeq(h) + [Tag(0, 0)] + t;
      var tail := EncSeq(a) + tail2;
      assert Enc(v) + t == EncHead(|a|) + tail;
      OpenTrip(|a|, tail);
      SeqTrip(a, tail2);
      PairsTrip(h, t);
      TableTrip(a, h, tail, tail2, t);
    } else {
      ScalarTrip(v, t);
    }
  }

  lemma TableTrip(a: seq<Value>, h: seq<Value>, s: seq<Byte>, s2: seq<Byte>, t: seq<Byte>)
    requires DecSeq(s, |a|) == Done(a, s2) && DecPairs(s2) == Done(h, t)
    ensures DecTable(s, |a|) == Done(Table(a, h), t)
  {
  }

  lemma {:induction false} SeqTrip(vs: seq<Value>, t: seq<Byte>)
    requires AreValues(vs)
    ensures DecSeq(EncSeq(vs) + t, |vs|) == Done(vs, t)
    decreases vs
  {
    hide Enc, DecOne;
    if vs == [] {
      assert EncSeq(vs) + t == t;
    } else {
      var u := EncSeq(vs[1..]) + t;
      assert EncSeq(vs) + t == Enc(vs[0]) + u;
      OneTrip(vs[0], u);
      SeqTrip(vs[1..], t);
      assert vs == [vs[0]] + vs[1..];
    }
  }

  /** The nil at the end is told from a key, since no key is nil. */
  lemma {:induction false} PairsTrip(h: seq<Value>, t: seq<Byte>)
    requires AreValues(h) && IsHash(h)
    ensures DecPairs(EncSeq(h) + [Tag(0, 0)] + t) == Done(h, t)
    decreases h
  {
    hide Enc, DecOne, IsNaN;
    var s := EncSeq(h) + [Tag(0, 0)] + t;
    if h == [] {
      assert s == [Tag(0, 0)] + t;
      NilTrip(t);
    } else {
      var h1, h2 := h[1..], h[2..];
      assert h1[1..] == h2 && h1[0] == h[1];
      var u := EncSeq(h2) + [Tag(0, 0)] + t;
      assert EncSeq(h1) == Enc(h[1]) + EncSeq(h2);
      assert s == Enc(h[0]) + (Enc(h[1]) + u);
      OneTrip(h[0], Enc(h[1]) + u);
      OneTrip(h[1], u);
      assert IsKey(h[0]);
      HashRest(h);
      PairsTrip(h2, t);
      assert h == [h[0], h[1]] + h2;
    }
  }

  lemma NilTrip(t: seq<Byte>)
    ensures DecOne([Tag(0, 0)] + t) == Done(Nil, t)
  {
    assert ([Tag(0, 0)] + t)[1..] == t;
  }

  lemma HashRest(h: seq<Value>)
    requires |h| >= 2 && IsHash(h)
    ensures IsHash(h[2..])
  {
    forall i | 0 <= i < |h[2..]| && i % 2 == 0 ensures IsKey(h[2..][i]) { assert IsKey(h[i + 2]); }
  }

  /** A list of values comes back as it was. */
  lemma {:induction false} AllTrip(vs: seq<Value>)
    requires AreValues(vs)
    ensures DecAll(EncSeq(vs)) == Done(vs, [])
    decreases vs
  {
    hide Enc, DecOne;
    if vs != [] {
      OneTrip(vs[0], EncSeq(vs[1..]));
      AllTrip(vs[1..]);
      assert vs == [vs[0]] + vs[1..];
    }
  }

  // ----- headers, and no shorter form -----

  const TYPE_NIL := 0
  const TYPE_BOOLEAN := 1
  const TYPE_NUMBER := 2
  const TYPE_USERDATA := 3
  const TYPE_SHORT_STRING := 4
  const TYPE_LONG_STRING := 5
  const TYPE_TABLE := 6

  const TYPE_NUMBER_ZERO := 0
  const TYPE_NUMBER_BYTE := 1
  const TYPE_NUMBER_WORD := 2
  const TYPE_NUMBER_DWORD := 4
  const TYPE_NUMBER_QWORD := 6
  const TYPE_NUMBER_REAL := 8

  /** The type that the first byte names, and its cookie. */
  predicate Heads(s: seq<Byte>, t: nat, cookie: nat) { s != [] && s[0] % 8 == t && s[0] / 8 == cookie }

  /** What the first byte says of each kind of value. */
  lemma Header(v: Value)
    ensures match v
      case Nil => Heads(Enc(v), TYPE_NIL, 0)
      case Bool(b) => Heads(Enc(v), TYPE_BOOLEAN, if b then 1 else 0)
      case Int(n) => Heads(Enc(v), TYPE_NUMBER, IntCookie(n))
      case Real(_) => Heads(Enc(v), TYPE_NUMBER, TYPE_NUMBER_REAL)
      case Pointer(_) => Heads(Enc(v), TYPE_USERDATA, 0)
      case Str(s) =>
        if |s| < MAX_COOKIE then Heads(Enc(v), TYPE_SHORT_STRING, |s|)
        else Heads(Enc(v), TYPE_LONG_STRING, if |s| < 0x1_0000 then 2 else 4)
      case Table(a, _) => Heads(Enc(v), TYPE_TABLE, if |a| < MAX_COOKIE - 1 then |a| else MAX_COOKIE - 1)
  {
    hide Low, EncSeq;
  }

  /** The narrowest cookie whose integers include `v`. */
  function IntCookie(v: int): nat {
    if v == 0 then TYPE_NUMBER_ZERO
    else if 0 < v < 0x100 then TYPE_NUMBER_BYTE
    else if 0 < v < 0x1_0000 then TYPE_NUMBER_WORD
    else if IsInt32(v) then TYPE_NUMBER_DWORD
    else TYPE_NUMBER_QWORD
  }

  lemma {:induction false} NumberBound(s: seq<Byte>)
    ensures Number(s) < Pow256(|s|)
  {
    if s != [] { NumberBound(s[1..]); }
  }

  lemma EncIntLength(v: int)
    ensures |EncInt(v)| == 1 + if IntCookie(v) == TYPE_NUMBER_QWORD then 8 else IntCookie(v)
  {
    hide Low;
    LowLength(v % W64, 8);
    LowLength(v % W32, 4);
    LowLength(v, 1);
    LowLength(v, 2);
    LowLength(v, 4);
  }

  /** What can be read from a number of each width. */
  lemma DecIntRange(s: seq<Byte>, cookie: nat, v: int, t: seq<Byte>)
    requires DecInt(s, cookie) == Done(v, t)
    ensures |s| - |t| == (if cookie == 6 then 8 else cookie) && |s| - |t| >= (if IntCookie(v) == 6 then 8 else IntCookie(v))
  {
    var n := if cookie == 6 then 8 else cookie;
    NumberBound(s[..n]);
    Pow256s();
    assert Pow256(0) == 1;
  }

  lemma IntComesFrom(s: seq<Byte>, v: int, t: seq<Byte>)
    requires DecOne(s) == Done(Int(v), t)
    ensures s != [] && DecInt(s[1..], s[0] / 8) == Done(v, t)
  {
    hide DecInt, DecTable, DecHead, DecLong, DecBuffer, DecBytes;
  }

  lemma StrComesFrom(s: seq<Byte>, x: seq<Byte>, t: seq<Byte>)
    requires DecOne(s) == Done(Str(x), t)
    ensures s != [] && (DecBuffer(s[1..], s[0] / 8) == Done(Str(x), t) || DecLong(s[1..], s[0] / 8) == Done(Str(x), t))
  {
    hide DecInt, DecTable, DecHead, DecLong, DecBuffer, DecBytes;
  }

  /** No bytes that are read as an integer are fewer than those written for it. */
  lemma ShortestInt(s: seq<Byte>, v: int, t: seq<Byte>)
    requires DecOne(s) == Done(Int(v), t)
    ensures |EncInt(v)| <= |s| - |t|
  {
    hide EncInt, DecOne, IntCookie;
    EncIntLength(v);
    IntComesFrom(s, v, t);
    DecIntRange(s[1..], s[0] / 8, v, t);
  }

  lemma EncStrLength(x: seq<Byte>)
    ensures |EncStr(x)| == |x| + if |x| < MAX_COOKIE then 1 else if |x| < 0x1_0000 then 3 else 5
  {
    hide Low;
    LowLength(|x|, 2);
    LowLength(|x|, 4);
  }

  lemma DecLongSize(s: seq<Byte>, cookie: nat, x: seq<Byte>, t: seq<Byte>)
    requires DecLong(s, cookie) == Done(Str(x), t)
    ensures |s| - |t| == |x| + cookie && (cookie == 2 || cookie == 4) && (cookie == 2 ==> |x| < 0x1_0000)
  {
    NumberBound(s[..cookie]);
    Pow256s();
  }

  /** No bytes that are read as a string are fewer than those written for it. */
  lemma ShortestStr(s: seq<Byte>, x: seq<Byte>, t: seq<Byte>)
    requires DecOne(s) == Done(Str(x), t)
    ensures |EncStr(x)| <= |s| - |t|
  {
    hide EncStr, DecOne, DecLong;
    EncStrLength(x);
    StrComesFrom(s, x, t);
    if DecLong(s[1..], s[0] / 8) == Done(Str(x), t) { DecLongSize(s[1..], s[0] / 8, x, t); }
  }
}
